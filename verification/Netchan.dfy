/** The network channel of NET.c: one endpoint of a stop-and-wait reliable stream over numbered
    datagrams, with the fragmentation of long messages on top.  The values and the functions on
    them say what each operation does; the class runs the loops and updates the channel in
    place.  What two such endpoints achieve together is the subject of the module Channel. */
module Netchan {
  import opened Basics

  const MAX_FRAGMENT := 0x578       // room of a fragment buffer, and of a packet sent again
  const MAX_PACKET := 4037
  const MAX_MESSAGE := 0xF96
  const MAX_ASSEMBLED := 0x1_0000
  const FRAGMENT_LIMIT := 1200
  const MAX_FRAGMENTS := 0x61A8
  const SEQUENCES := 0x4000_0000

  // ----- size buffers

  /** A sizebuf_t: allow and overflowed are the two bits of its overflow field. */
  datatype Buf = Buf(max: nat, allow: bool, overflowed: bool, data: seq<Byte>)

  /** SZ_Write.  What does not fit wipes the buffer, and with it the permission to overflow; None
      is the fatal error. */
  function Appended(b: Buf, bytes: seq<Byte>): Option<Buf> {
    if |b.data| + |bytes| <= b.max then Some(b.(data := b.data + bytes))
    else if !b.allow && |bytes| > b.max then None
    else Some(Buf(b.max, false, true, bytes))
  }

  /** A write that is not fatal stays inside its buffer, exactly unless the permission to overflow
      is set and the bytes alone are too many: then the copy runs past the end. */
  lemma StaysInsideIff(b: Buf, bytes: seq<Byte>)
    requires |b.data| <= b.max && Appended(b, bytes).Some?
    ensures |Appended(b, bytes).value.data| <= b.max <==> !(b.allow && |bytes| > b.max)
  {
  }

  class SizeBuf {
    const max: nat
    var allow: bool
    var overflowed: bool
    var data: seq<Byte>

    constructor (max: nat, allow: bool)
      ensures V() == Buf(max, allow, false, [])
    {
      this.max, this.allow, overflowed, data := max, allow, false, [];
    }

    function V(): Buf
      reads this
    {
      Buf(max, allow, overflowed, data)
    }

    method Write(bytes: seq<Byte>) returns (fatal: bool)
      modifies this
      ensures fatal <==> Appended(old(V()), bytes).None?
      ensures V() == if fatal then old(V()) else Appended(old(V()), bytes).value
      ensures !fatal && |old(data)| <= max ==> (|data| <= max <==> !(old(allow) && |bytes| > max))
      ensures fatal <==> |old(data)| + |bytes| > max && !old(allow) && |bytes| > max
      ensures !fatal && |old(data)| + |bytes| <= max ==>
        data == old(data) + bytes && overflowed == old(overflowed) && allow == old(allow)
      ensures !fatal && |old(data)| + |bytes| > max ==> data == bytes && overflowed && !allow
    {
      if |data| + |bytes| > max {
        if !allow && |bytes| > max { return true; }
        data, allow, overflowed := [], false, true;
      }
      data := data + bytes;
      return false;
    }
  }

  // ----- fragments

  /** A fragbuf_t.  In the lists to be sent the id counts from one; in the list received it is the
      word of the fragment header. */
  datatype Frag = Frag(id: nat, data: seq<Byte>)

  /** The fragments of one message, waiting for those before them. */
  datatype Holder = Holder(count: nat, frags: seq<Frag>)

  /** The fragment header: number and count in the high and the low half of a word. */
  function Word(id: nat, count: nat): nat {
    id % 0x1_0000 * 0x1_0000 + count % 0x1_0000
  }

  function High(word: nat): nat {
    word / 0x1_0000 % 0x1_0000
  }

  function Low(word: nat): nat {
    word % 0x1_0000
  }

  /** msg cut into fragments of the given size, numbered from id on. */
  function Pieces(msg: seq<Byte>, size: nat, id: nat): seq<Frag>
    requires size > 0
    decreases |msg|
  {
    if msg == [] then []
    else
      var n := if size <= |msg| then size else |msg|;
      [Frag(id, msg[..n])] + Pieces(msg[n..], size, id + 1)
  }

  lemma PiecesNext(frags: seq<Frag>, msg: seq<Byte>, at: nat, size: nat, id: nat, n: nat)
    requires size > 0 && at < |msg| && n == if size <= |msg| - at then size else |msg| - at
    ensures (frags + [Frag(id, msg[at..at + n])]) + Pieces(msg[at + n..], size, id + 1) ==
      frags + Pieces(msg[at..], size, id)
  {
    assert msg[at..][..n] == msg[at..at + n] && msg[at..][n..] == msg[at + n..];
  }

  function HolderOf(msg: seq<Byte>, size: nat): Holder
    requires size > 0
  {
    var frags := Pieces(msg, size, 1);
    Holder(|frags|, frags)
  }

  /** The bytes of the fragments, one after the other. */
  function Joined(frags: seq<Frag>): seq<Byte> {
    if frags == [] then [] else frags[0].data + Joined(frags[1..])
  }

  // ----- the sending side

  /** What waits to be sent: the message under construction, the messages already fragmented, and
      the fragments left of the one in progress, which had count fragments. */
  datatype Queue = Queue(message: Buf, waiting: seq<Holder>, sending: seq<Frag>, count: nat)

  /** Netchan_FragSend */
  function Advanced(q: Queue): Queue {
    if q.sending != [] || q.waiting == [] then q
    else q.(waiting := q.waiting[1..], sending := q.waiting[0].frags, count := q.waiting[0].count)
  }

  /** Netchan_CreateFragments_; None is the fatal error of a fragment buffer that overflows. */
  function Added(q: Queue, msg: seq<Byte>, size: nat): Option<Queue>
    requires size > 0
  {
    if msg == [] then Some(q)
    else if size > MAX_FRAGMENT && |msg| > MAX_FRAGMENT then None
    else Some(q.(waiting := q.waiting + [HolderOf(msg, size)]))
  }

  /** The message under construction is fragmented. */
  function Flushed(q: Queue, size: nat): Option<Queue>
    requires size > 0
  {
    match Added(q, q.message.data, size)
    case None => None
    case Some(r) => Some(r.(message := r.message.(data := [])))
  }

  /** Netchan_CreateFragments: what was queued before goes first. */
  function Fragmented(q: Queue, msg: seq<Byte>, size: nat): Option<Queue>
    requires size > 0
  {
    match Flushed(q, size)
    case None => None
    case Some(r) => Added(r, msg, size)
  }

  // ----- the receiving side

  /** The fragments received of a message, and whether they are all there. */
  datatype Inbox = Inbox(frags: seq<Frag>, ready: bool)

  /** Netchan_Validate on the header of a normal fragment, whose offset is zero. */
  predicate Validate(word: nat, length: nat) {
    word / 0x1_0000 <= MAX_FRAGMENTS && Low(word) <= MAX_FRAGMENTS && length <= 0x800
  }

  /** The place from k on of the fragment with this id, or the end. */
  function Find(frags: seq<Frag>, id: nat, k: nat): (r: nat)
    requires k <= |frags|
    ensures k <= r <= |frags| && (r < |frags| ==> frags[r].id == id) && forall j :: k <= j < r ==> frags[j].id != id
    decreases |frags| - k
  {
    if k == |frags| || frags[k].id == id then k else Find(frags, id, k + 1)
  }

  /** The place from k on of the first fragment with a higher number, or the end. */
  function Later(frags: seq<Frag>, number: nat, k: nat): (r: nat)
    requires k <= |frags|
    ensures k <= r <= |frags| && (r < |frags| ==> High(frags[r].id) > number)
    ensures forall j :: k <= j < r ==> High(frags[j].id) <= number
    decreases |frags| - k
  {
    if k == |frags| || High(frags[k].id) > number then k else Later(frags, number, k + 1)
  }

  /** The place in the list where a fragment with this id goes. */
  function Slot(frags: seq<Frag>, id: nat): (k: nat)
    ensures k <= |frags|
  {
    if frags == [] then 0 else Later(frags, High(id), 1)
  }

  /** Netchan_AddBufferToList.  Before a fragment with a higher number the new one takes that
      one's place in the list. */
  function Linked(frags: seq<Frag>, f: Frag): seq<Frag> {
    var k := Slot(frags, f.id);
    if k < |frags| then frags[..k] + [f] + frags[k + 1..] else frags + [f]
  }

  /** How many of the first k fragments are not at the place of their number. */
  function Gaps(frags: seq<Frag>, k: nat): nat
    requires k <= |frags|
  {
    if k == 0 then 0 else Gaps(frags, k - 1) + if High(frags[k - 1].id) != k then 1 else 0
  }

  /** A client misses no fragment exactly if each is at the place of its number. */
  lemma {:induction false} NoGapsIff(frags: seq<Frag>, k: nat)
    requires k <= |frags|
    ensures Gaps(frags, k) <= k
    ensures Gaps(frags, k) == 0 <==> forall i :: 0 <= i < k ==> High(frags[i].id) == i + 1
  {
    if k > 0 { NoGapsIff(frags, k - 1); }
  }

  /** A fragment arrives: Netchan_FindBufferById, the copy, and Netchan_CheckForCompletion. */
  function Arrived(box: Inbox, f: Frag): Inbox {
    var k := Find(box.frags, f.id, 0);
    var frags := if k < |box.frags| then box.frags[k := f] else Linked(box.frags, f);
    Inbox(frags, box.ready || |frags| == Low(f.id))
  }

  /** The fragments written one after the other. */
  function Gathered(b: Buf, frags: seq<Frag>): Buf
    decreases frags
  {
    if frags == [] then b
    else
      match Appended(b, frags[0].data)
      case None => b
      case Some(b') => Gathered(b', frags[1..])
  }

  /** A buffer found or added, and then filled, is the fragment arrived. */
  lemma Stored(frags: seq<Frag>, f: Frag)
    ensures var (k, l) := (Find(frags, f.id, 0), Linked(frags, Frag(f.id, [])));
      && (k == |frags| ==> Slot(frags, f.id) < |l| && l[Slot(frags, f.id) := f] == Linked(frags, f))
      && Linked(frags, f) != []
  {
    var (k, e) := (Slot(frags, f.id), Frag(f.id, []));
    if k < |frags| {
      Replaced(frags[..k], e, frags[k + 1..], f);
    } else {
      Replaced(frags, e, [], f);
      assert frags + [e] == frags + [e] + [] && frags + [f] == frags + [f] + [];
    }
  }

  lemma Replaced<T>(a: seq<T>, x: T, b: seq<T>, y: T)
    ensures (a + [x] + b)[|a| := y] == a + [y] + b
  {
  }

  function NetMessage(): Buf {
    Buf(MAX_ASSEMBLED, false, false, [])
  }

  // ----- the words of the packet header

  /** The first two words of a packet: a number, the reliable bit and the flag below it. */
  function Header(number: bv32, reliable: bool, flag: bool): bv32 {
    number | (if reliable then 0x8000_0000 else 0) | (if flag then 0x4000_0000 else 0)
  }

  lemma ThirtyBits(n: bv32)
    ensures n & 0x3FFF_FFFF == n <==> n < 0x4000_0000
  {
  }

  lemma BitsApart(n: bv32, a: bv32, b: bv32)
    requires (a == 0 || a == 0x8000_0000) && (b == 0 || b == 0x4000_0000)
    ensures (n | a | b) & 0x3FFF_FFFF == n & 0x3FFF_FFFF
    ensures n & 0x3FFF_FFFF == n ==> (n | a | b) & 0x8000_0000 == a && (n | a | b) & 0x4000_0000 == b
  {
  }

  /** The receiver reads back what went in exactly if the number has at most thirty bits. */
  lemma HeaderIff(number: bv32, reliable: bool, flag: bool)
    ensures var w := Header(number, reliable, flag);
      w & 0x3FFF_FFFF == number && (w & 0x8000_0000 != 0) == reliable && (w & 0x4000_0000 != 0) == flag
      <==> number < 0x4000_0000
  {
    ThirtyBits(number);
    BitsApart(number, if reliable then 0x8000_0000 else 0, if flag then 0x4000_0000 else 0);
  }

  // ----- the channel

  /** A packet with its munging undone; frag is the header of a normal fragment, which is then the
      reliable part. */
  datatype Packet = Packet(seqno: nat, rel: bool, ack: nat, ackRel: bool, frag: Option<nat>,
                           reliable: seq<Byte>, unreliable: seq<Byte>)

  datatype Chan = Chan(inSeq: nat, inAck: nat, inRelAck: bool, inRel: bool,
                       outSeq: nat, lastRel: nat, outRel: bool,
                       reliable: seq<Byte>, head: Option<nat>,
                       queue: Queue, inbox: Inbox)

  /** Netchan_Setup */
  function NewChan(): Chan {
    Chan(0, 0, false, false, 1, 0, false, [], None, Queue(Buf(MAX_MESSAGE, true, false, []), [], [], 0),
      Inbox([], false))
  }

  /** What came of a transmission: nothing at all, the fatal error, a packet, or the bytes of the
      unreliable part alone, where writing them wiped the packet. */
  datatype Outcome = Refused | Fatal | Sent(packet: Packet) | Garbled(bytes: seq<Byte>)

  /** The pending reliable part has to be sent again: a later packet than the one that carried it
      was acknowledged without it. */
  predicate Resends(c: Chan) {
    c.inAck > c.lastRel && c.inRelAck != c.outRel
  }

  /** Something is queued, and there is no reliable part pending. */
  predicate Loads(c: Chan) {
    c.reliable == [] && (Advanced(c.queue).sending != [] || c.queue.message.data != [])
  }

  /** The queue when the next fragment is taken: a long message joins it as fragments. */
  function Prepared(q: Queue, size: nat): Option<Queue>
    requires size > 0
  {
    var a := Advanced(q);
    if a.sending != [] && |a.message.data| > 1200 then Flushed(a, size) else Some(a)
  }

  /** The next reliable part is taken from the prepared queue: a fragment if there is one, else
      the message. */
  function Loaded(c: Chan): Chan {
    var q := c.queue;
    if q.sending != [] then
      var f := q.sending[0];
      if |f.data| < FRAGMENT_LIMIT then
        c.(outRel := !c.outRel, reliable := f.data, head := Some(Word(f.id, q.count)),
          queue := q.(sending := q.sending[1..]))
      else
        c.(outRel := !c.outRel, head := None)
    else if q.message.data != [] then
      c.(outRel := !c.outRel, reliable := q.message.data, head := None,
        queue := q.(message := q.message.(data := [])))
    else c.(head := None)
  }

  function HeaderSize(rel: bool, head: Option<nat>): nat {
    if rel && head.Some? then 18 else 8
  }

  /** The room left for the unreliable part, computed without sign. */
  function Room(resend: bool, used: nat): nat {
    ((if resend then MAX_FRAGMENT else MAX_PACKET) - used) % 0x1_0000_0000
  }

  function Packed(c: Chan, rel: bool, resend: bool, arg: seq<Byte>): Outcome {
    var used := HeaderSize(rel, c.head) + if rel then |c.reliable| else 0;
    var p := Packet(c.outSeq, rel, c.inSeq, c.inRel,
                    if rel then c.head else None, if rel then c.reliable else [], []);
    if Room(resend, used) < |arg| then Sent(p)
    else if used + |arg| <= MAX_PACKET then Sent(p.(unreliable := arg))
    else if |arg| > MAX_PACKET then Fatal
    else Garbled(arg)
  }

  /** Netchan_Transmit */
  function Transmitted(c: Chan, arg: seq<Byte>, size: nat): (Chan, Outcome)
    requires size > 0
  {
    if c.queue.message.overflowed then (c, Refused)
    else
      var q := if c.reliable == [] then Prepared(c.queue, size) else Some(c.queue);
      if q.None? then (c, Fatal)
      else
        var l := if c.reliable == [] then Loaded(c.(queue := q.value)) else c;
        var rel := Resends(c) || Loads(c);
        (l.(outSeq := c.outSeq + 1, lastRel := if rel then c.outSeq else c.lastRel), Packed(l, rel, Resends(c), arg))
  }

  /** What came of a packet: it was dropped, the fatal error, or it was taken. */
  datatype Verdict = Dropped | Death | Taken

  /** The pending reliable part was accepted: the reliable bit is echoed, and the packet that
      carried it is not far behind the last acknowledgement. */
  predicate Clears(c: Chan, p: Packet) {
    p.ackRel == c.outRel && c.inAck + 1 >= c.lastRel
  }

  /** The sequence numbers and the reliable bits after packet p. */
  function Received(c: Chan, p: Packet): Chan {
    c.(inSeq := p.seqno, inAck := p.ack, inRelAck := p.ackRel, inRel := c.inRel != p.rel,
       reliable := if Clears(c, p) then [] else c.reliable)
  }

  /** Netchan_Process */
  function Processed(c: Chan, p: Packet): (Chan, Verdict) {
    if p.frag.Some? && !Validate(p.frag.value, |p.reliable|) then (c, Dropped)
    else if c.inSeq >= p.seqno then (c, Dropped)
    else
      var d := Received(c, p);
      if p.frag.None? || p.frag.value == 0 then (d, Taken)
      else if |p.reliable| > MAX_FRAGMENT then (d, Death)
      else (d.(inbox := Arrived(d.inbox, Frag(p.frag.value, p.reliable))), Taken)
  }

  /** The assembled message is taken out, if it is ready. */
  function Opened(box: Inbox): (Inbox, Option<seq<Byte>>) {
    if !box.ready then (box, None)
    else (Inbox([], false), if box.frags == [] then None else Some(Gathered(NetMessage(), box.frags).data))
  }

  /** Netchan_CopyNormalFragments */
  function Drained(c: Chan): (Chan, Option<seq<Byte>>) {
    (c.(inbox := Opened(c.inbox).0), Opened(c.inbox).1)
  }

  /** The buffers are within their bounds. */
  ghost predicate Sized(c: Chan) {
    && c.queue.message.max == MAX_MESSAGE
    && |c.queue.message.data| <= MAX_MESSAGE
    && |c.reliable| <= MAX_MESSAGE && (c.head.Some? ==> |c.reliable| < FRAGMENT_LIMIT)
    && forall i :: 0 <= i < |c.inbox.frags| ==> Short(c.inbox.frags[i])
  }

  ghost predicate Short(f: Frag) {
    |f.data| <= MAX_FRAGMENT
  }

  /** Fragmenting nothing else flushes the message under construction. */
  lemma NothingFragmented(q: Queue, size: nat)
    requires size > 0
    ensures Fragmented(q, [], size) == Flushed(q, size)
    ensures q.message.data == [] ==> Flushed(q, size) == Some(q)
  {
  }

  /** Preparing leaves fragments or a message exactly if there were some. */
  lemma LoadsIff(c: Chan, size: nat)
    requires size > 0
    ensures var q := Prepared(c.queue, size); q.Some? ==>
      (Loads(c) <==> c.reliable == [] && (q.value.sending != [] || q.value.message.data != []))
      && q.value.message.overflowed == c.queue.message.overflowed
  {
  }

  /** A transmission in terms of the prepared queue. */
  lemma TransmittedIs(c: Chan, arg: seq<Byte>, size: nat)
    requires size > 0 && !c.queue.message.overflowed
    ensures var q := if c.reliable == [] then Prepared(c.queue, size) else Some(c.queue);
      if q.None? then Transmitted(c, arg, size) == (c, Fatal)
      else
        var l := if c.reliable == [] then Loaded(c.(queue := q.value)) else c;
        var loaded := c.reliable == [] && (q.value.sending != [] || q.value.message.data != []);
        var rel := Resends(c) || loaded;
        Transmitted(c, arg, size) ==
          (l.(outSeq := c.outSeq + 1, lastRel := if rel then c.outSeq else c.lastRel),
           Packed(l, rel, Resends(c), arg))
  {
    hide Prepared, Loaded, Packed, Advanced, Resends;
    LoadsIff(c, size);
  }

  lemma TransmittedNot(c: Chan, arg: seq<Byte>, size: nat)
    requires size > 0 && c.queue.message.overflowed
    ensures Transmitted(c, arg, size) == (c, Refused)
  {
  }

  lemma TransmitOverflow(c: Chan, arg: seq<Byte>, size: nat)
    requires size > 0
    ensures Transmitted(c, arg, size).0.queue.message.overflowed == c.queue.message.overflowed
  {
  }

  lemma TransmitSized(c: Chan, arg: seq<Byte>, size: nat)
    requires Sized(c) && size > 0
    ensures Sized(Transmitted(c, arg, size).0)
  {
    hide Packed, Resends, Loads, Word, HolderOf, Prepared, Short;
    if c.reliable == [] && Prepared(c.queue, size).Some? {
      PreparedMessage(c.queue, size);
      LoadedSized(c.(queue := Prepared(c.queue, size).value));
    }
  }

  lemma PreparedMessage(q: Queue, size: nat)
    requires size > 0 && Prepared(q, size).Some?
    ensures var m := Prepared(q, size).value.message; m == q.message || m == q.message.(data := [])
  {
  }

  lemma LoadedSized(c: Chan)
    requires Sized(c)
    ensures Sized(Loaded(c))
  {
    hide Word, Short;
  }

  lemma LinkedShort(frags: seq<Frag>, f: Frag)
    requires Short(f) && forall i :: 0 <= i < |frags| ==> Short(frags[i])
    ensures forall i :: 0 <= i < |Linked(frags, f)| ==> Short(Linked(frags, f)[i])
  {
  }

  lemma ProcessSized(c: Chan, p: Packet)
    requires Sized(c)
    ensures var (d, r) := Processed(c, p); r != Death ==> Sized(d)
  {
    if p.frag.Some? && |p.reliable| <= MAX_FRAGMENT { LinkedShort(c.inbox.frags, Frag(p.frag.value, p.reliable)); }
  }

  class Netchan {
    const client: bool                // whether this is the client's channel to its server
    var incomingSequence: nat
    var incomingAcknowledged: nat
    var incomingReliableAcknowledged: bool
    var incomingReliableSequence: bool
    var outgoingSequence: nat
    var outgoingReliableSequence: bool
    var lastReliableSequence: nat
    const message: SizeBuf            // netchan_message
    var reliable: seq<Byte>           // reliable_buf up to reliable_length
    var head: Option<nat>             // padding1FA8 and padding1FB0
    var waiting: seq<Holder>          // padding1FA0
    var sending: seq<Frag>            // padding1FB8
    var count: nat                    // NumberOfFragbufsIn1FC0
    var incoming: seq<Frag>           // padding1FD0
    var ready: bool                   // padding1FD8

    function S(): Chan
      reads this, message
    {
      Chan(incomingSequence, incomingAcknowledged, incomingReliableAcknowledged, incomingReliableSequence,
           outgoingSequence, lastReliableSequence, outgoingReliableSequence, reliable, head,
           Queue(message.V(), waiting, sending, count), Inbox(incoming, ready))
    }

    constructor (client: bool)
      ensures S() == NewChan() && Sized(S()) && fresh(message) && this.client == client
      ensures incomingSequence == incomingAcknowledged == lastReliableSequence == 0 && outgoingSequence == 1
      ensures !incomingReliableAcknowledged && !incomingReliableSequence && !outgoingReliableSequence
      ensures reliable == [] && message.data == [] && waiting == [] && sending == [] && incoming == [] && !ready
    {
      this.client := client;
      message := new SizeBuf(MAX_MESSAGE, true);
      incomingSequence, incomingAcknowledged := 0, 0;
      incomingReliableAcknowledged, incomingReliableSequence := false, false;
      outgoingSequence, lastReliableSequence, outgoingReliableSequence := 1, 0, false;
      reliable, head := [], None;
      waiting, sending, count := [], [], 0;
      incoming, ready := [], false;
    }

    // ----- sending

    method FragSend()
      modifies this`waiting, this`sending, this`count
      ensures S() == old(S()).(queue := Advanced(old(S()).queue))
    {
      if sending != [] || waiting == [] { return; }
      var list := waiting[0];
      waiting := waiting[1..];
      sending := list.frags;
      count := list.count;
    }

    /** Netchan_CreateFragments_ */
    method AddFragments(msg: SizeBuf, size: nat) returns (fatal: bool)
      requires size > 0
      modifies this`waiting
      ensures fatal <==> Added(old(S()).queue, old(msg.data), size).None?
      ensures !fatal ==> S() == old(S()).(queue := Added(old(S()).queue, old(msg.data), size).value)
    {
      if |msg.data| == 0 { return false; }
      var frags;
      fatal, frags := Cut(msg.data, size);
      if fatal { return true; }
      waiting := waiting + [Holder(|frags|, frags)];
    }

    /** The loop of Netchan_CreateFragments_ */
    method Cut(msg: seq<Byte>, size: nat) returns (fatal: bool, frags: seq<Frag>)
      requires size > 0
      ensures fatal <==> size > MAX_FRAGMENT && |msg| > MAX_FRAGMENT
      ensures !fatal ==> frags == Pieces(msg, size, 1)
    {
      frags := [];
      var id, at, left := 1, 0, |msg|;
      while left > 0
        invariant 0 <= at <= |msg| && left == |msg| - at && id == |frags| + 1
        invariant frags + Pieces(msg[at..], size, id) == Pieces(msg, size, 1)
        invariant left == |msg| || size <= MAX_FRAGMENT || |msg| <= MAX_FRAGMENT
        decreases left
      {
        var n := if size <= left then size else left;
        var written := Appended(Buf(MAX_FRAGMENT, false, false, []), msg[at..at + n]);
        if written.None? { return true, []; }
        PiecesNext(frags, msg, at, size, id, n);
        assert [] + msg[at..at + n] == msg[at..at + n];
        left := left - n;
        frags := frags + [Frag(id, written.value.data)];
        id := id + 1;
        at := at + n;
      }
      return false, frags;
    }

    /** msg may be the message under construction itself, which is then empty when its turn
        comes. */
    method CreateFragments(msg: SizeBuf, size: nat) returns (fatal: bool)
      requires size > 0
      modifies this`waiting, message`data
      ensures var r := Fragmented(old(S()).queue, if msg == message then [] else old(msg.data), size);
        && (fatal <==> r.None?)
        && (!fatal ==> S() == old(S()).(queue := r.value))
    {
      if |message.data| > 0 {
        fatal := AddFragments(message, size);
        if fatal { return true; }
        message.data := [];
      }
      fatal := AddFragments(msg, size);
    }

    /** Netchan_Transmit; size is what the fragment size callback returns. */
    method Transmit(arg: seq<Byte>, size: nat) returns (r: Outcome)
      requires Sized(S()) && size > 0
      modifies this, message
      ensures r == Transmitted(old(S()), arg, size).1
      ensures r != Fatal ==> S() == Transmitted(old(S()), arg, size).0 && Sized(S())
    {
      hide Sized, Prepared, Loaded, Packed, Advanced, Word, Transmitted;
      TransmitSized(S(), arg, size);
      if message.overflowed {
        TransmittedNot(S(), arg, size);
        return Refused;
      }
      TransmittedIs(S(), arg, size);
      var rel, resend := false, false;
      if incomingAcknowledged > lastReliableSequence && incomingReliableAcknowledged != outgoingReliableSequence {
        rel, resend := true, true;
      }
      if |reliable| == 0 {
        var fatal, direct := Prepare(size);
        if fatal { return Fatal; }
        var loaded := Load(direct);
        rel := rel || loaded;
      }
      r := Emit(rel, resend, arg);
    }

    /** The first part of Netchan_Transmit: the next fragments move up, and a long message joins
        them. */
    method Prepare(size: nat) returns (fatal: bool, direct: bool)
      requires size > 0
      modifies this`waiting, this`sending, this`count, message`data
      ensures var q := Prepared(old(S()).queue, size);
        && (fatal <==> q.None?)
        && (!fatal ==> S() == old(S()).(queue := q.value) && direct == (sending == [] && message.data != []))
    {
      hide Added;
      FragSend();
      NothingFragmented(S().queue, size);
      direct := |message.data| != 0;
      if sending != [] && direct {
        direct := false;
        if |message.data| > 1200 {
          fatal := CreateFragments(message, size);
          if fatal { return true, false; }
        }
      }
      return false, direct;
    }

    /** The second part: takes the next reliable part, if there is one. */
    method Load(direct: bool) returns (loaded: bool)
      requires reliable == [] && direct == (sending == [] && message.data != [])
      modifies this`sending, this`head, this`outgoingReliableSequence, this`reliable, message`data
      ensures S() == Loaded(old(S())) && loaded == (old(sending) != [] || old(message.data) != [])
    {
      var pieces := sending != [];
      head := None;
      if direct || pieces {
        outgoingReliableSequence := !outgoingReliableSequence;
      }
      if direct {
        reliable := message.data;
        message.data := [];
      }
      if pieces && |reliable| + |sending[0].data| < FRAGMENT_LIMIT {
        head := Some(Word(sending[0].id, count));
        reliable := reliable + sending[0].data;
        sending := sending[1..];
      }
      return direct || pieces;
    }

    /** The end of Netchan_Transmit: the packet takes the next number. */
    method Emit(rel: bool, resend: bool, arg: seq<Byte>) returns (r: Outcome)
      modifies this`outgoingSequence, this`lastReliableSequence
      ensures var c := old(S());
        && S() == c.(outSeq := c.outSeq + 1, lastRel := if rel then c.outSeq else c.lastRel)
        && r == Packed(c, rel, resend, arg)
    {
      hide Packed;
      var seqno := outgoingSequence;
      outgoingSequence := outgoingSequence + 1;
      r := Pack(rel, resend, seqno, arg);
      if rel {
        lastReliableSequence := outgoingSequence - 1;
      }
    }

    /** The third part: the packet with the reliable part, if it is due, and the unreliable one. */
    method Pack(rel: bool, resend: bool, seqno: nat, arg: seq<Byte>) returns (r: Outcome)
      ensures r == Packed(S().(outSeq := seqno), rel, resend, arg)
    {
      var used := 8;
      if rel && head.Some? { used := used + 10; }
      if rel { used := used + |reliable|; }
      var p := Packet(seqno, rel, incomingSequence, incomingReliableSequence,
                      if rel then head else None, if rel then reliable else [], []);
      var limit := if resend then MAX_FRAGMENT else MAX_PACKET;
      if (limit - used) % 0x1_0000_0000 < |arg| {
        return Sent(p);
      }
      if used + |arg| > MAX_PACKET {
        if |arg| > MAX_PACKET { return Fatal; }
        return Garbled(arg);
      }
      return Sent(p.(unreliable := arg));
    }

    // ----- receiving

    /** Netchan_FindBufferById: the place of the fragment with this id, which is added if there is
        none yet. */
    method FindBufferById(id: nat) returns (k: nat)
      modifies this`incoming
      ensures var f := Find(old(incoming), id, 0);
        && k == (if f < |old(incoming)| then f else Slot(old(incoming), id))
        && incoming == if f < |old(incoming)| then old(incoming) else Linked(old(incoming), Frag(id, []))
    {
      k := 0;
      while k < |incoming|
        invariant 0 <= k <= |incoming| && Find(incoming, id, k) == Find(incoming, id, 0)
        invariant incoming == old(incoming)
      {
        if incoming[k].id == id { return k; }
        k := k + 1;
      }
      k := AddBufferToList(Frag(id, []));
    }

    /** Netchan_AddBufferToList */
    method AddBufferToList(f: Frag) returns (k: nat)
      modifies this`incoming
      ensures incoming == Linked(old(incoming), f) && k == Slot(old(incoming), f.id)
    {
      if incoming == [] {
        incoming := [f];
        return 0;
      }
      k := 0;
      while k + 1 < |incoming|
        invariant k < |incoming| && Later(incoming, High(f.id), k + 1) == Later(incoming, High(f.id), 1)
        invariant incoming == old(incoming)
      {
        if High(incoming[k + 1].id) > High(f.id) {
          incoming := incoming[..k + 1] + [f] + incoming[k + 2..];
          return k + 1;
        }
        k := k + 1;
      }
      incoming := incoming + [f];
      return k + 1;
    }

    /** Netchan_CheckForCompletion.  A client asks for a new connection for each fragment that is
        not at its place. */
    method CheckForCompletion(total: nat) returns (retries: nat)
      modifies this`ready
      ensures ready <==> old(ready) || (incoming != [] && |incoming| == total)
      ensures retries == if client then Gaps(incoming, |incoming|) else 0
    {
      retries := 0;
      if incoming == [] { return; }
      var counted := 0;
      while counted < |incoming|
        invariant 0 <= counted <= |incoming|
        invariant retries == if client then Gaps(incoming, counted) else 0
      {
        var ptr := incoming[counted];
        counted := counted + 1;
        if High(ptr.id) != counted && client {
          retries := retries + 1;
        }
      }
      if counted == total { ready := true; }
    }

    /** Netchan_Process */
    method Process(p: Packet) returns (r: Verdict, retries: nat)
      requires Sized(S())
      modifies this
      ensures r == Processed(old(S()), p).1
      ensures retries ==
        if client && r == Taken && p.frag.Some? && p.frag.value != 0 then Gaps(incoming, |incoming|) else 0
      ensures r != Death ==> S() == Processed(old(S()), p).0 && Sized(S())
    {
      hide Sized, Arrived, Validate;
      ProcessSized(S(), p);
      retries := 0;
      if p.frag.Some? && !Validate(p.frag.value, |p.reliable|) { return Dropped, 0; }
      if incomingSequence >= p.seqno { return Dropped, 0; }
      Accept(p);
      if p.frag.None? { return Taken, retries; }
      if p.frag.value != 0 {
        var fatal;
        fatal, retries := Store(p.frag.value, p.reliable);
        if fatal { return Death, 0; }
      }
      return Taken, retries;
    }

    /** The middle of Netchan_Process: the sequence numbers and the reliable bits. */
    method Accept(p: Packet)
      modifies this`reliable, this`incomingSequence, this`incomingAcknowledged,
        this`incomingReliableAcknowledged, this`incomingReliableSequence
      ensures S() == Received(old(S()), p)
    {
      if p.ackRel == outgoingReliableSequence {
        if incomingAcknowledged + 1 >= lastReliableSequence {
          reliable := [];
        }
      }
      incomingSequence := p.seqno;
      incomingAcknowledged := p.ack;
      incomingReliableAcknowledged := p.ackRel;
      if p.rel {
        incomingReliableSequence := !incomingReliableSequence;
      }
    }

    /** The end of Netchan_Process: the fragment is copied into its buffer. */
    method Store(word: nat, data: seq<Byte>) returns (fatal: bool, retries: nat)
      modifies this`incoming, this`ready
      ensures fatal <==> |data| > MAX_FRAGMENT
      ensures !fatal ==> S() == old(S()).(inbox := Arrived(old(S()).inbox, Frag(word, data)))
      ensures retries == if client && !fatal then Gaps(incoming, |incoming|) else 0
    {
      hide Find, Slot, Linked, High;
      ghost var before := incoming;
      Stored(before, Frag(word, data));
      var k := FindBufferById(word);
      var written := Appended(Buf(MAX_FRAGMENT, false, false, []), data);
      if written.None? { return true, 0; }
      incoming := incoming[k := Frag(word, written.value.data)];
      assert [] + data == data;
      retries := CheckForCompletion(Low(word));
      return false, retries;
    }

    /** Netchan_CopyNormalFragments */
    method CopyNormalFragments() returns (r: Option<seq<Byte>>)
      requires Sized(S())
      modifies this`incoming, this`ready
      ensures r == Drained(old(S())).1 && S() == Drained(old(S())).0 && Sized(S())
    {
      if !ready { return None; }
      if incoming == [] {
        ready := false;
        return None;
      }
      var message := new SizeBuf(MAX_ASSEMBLED, false);
      var k := 0;
      while k < |incoming|
        invariant 0 <= k <= |incoming| && S() == old(S()) && fresh(message) && message.max == MAX_ASSEMBLED
        invariant Gathered(message.V(), incoming[k..]) == Gathered(NetMessage(), incoming)
      {
        assert Short(incoming[k]) && incoming[k..][1..] == incoming[k + 1..];
        var fatal := message.Write(incoming[k].data);
        k := k + 1;
      }
      ready := false;
      incoming := [];
      return Some(message.data);
    }

    /** What SV_ReadPackets does with a packet of this channel. */
    method ReadPacket(p: Packet) returns (r: Verdict, m: Option<seq<Byte>>)
      requires Sized(S())
      modifies this
      ensures r == Processed(old(S()), p).1
      ensures r != Death ==> (S(), m) == Drained(Processed(old(S()), p).0) && Sized(S())
    {
      var retries;
      r, retries := Process(p);
      if r == Death { return r, None; }
      m := CopyNormalFragments();
    }
  }
}
