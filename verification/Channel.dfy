/** Two channels of NET.c and the network between them, which loses, repeats and reorders packets.
    In every run in which bytes sent in place of a wiped packet are dropped, each endpoint takes the
    reliable parts of the other exactly once and in order, and the bytes it delivers are a prefix of
    the bytes queued at the other.  What other such bytes do is the subject of Misreading. */
module Channel {
  import opened Basics
  import opened Netchan
  import opened Fragments
  import opened Order
  import opened Stream
  import opened Delivery

  /** A packet on the network, with the number of payloads its sender had taken by then. */
  datatype Wire = Wire(p: Packet, taken: nat)

  /** An endpoint: its channel, and the history of what was sent and taken, how much of what was
      sent the other side is known to have taken, and the bytes queued and delivered. */
  datatype End = End(chan: Chan, sent: seq<Payload>, taken: seq<Payload>, seen: nat,
                     queued: seq<Byte>, delivered: seq<Byte>)

  // ----- the endpoint as the two halves of a stream

  function Gram(w: Wire): Datagram {
    Datagram(w.p.seqno, if w.p.rel then Some(Payload(w.p.frag, w.p.reliable)) else None, w.p.ack, w.p.ackRel, w.taken)
  }

  function Grams(ws: seq<Wire>): (r: seq<Datagram>)
    ensures |r| == |ws| && forall i :: 0 <= i < |ws| ==> r[i] == Gram(ws[i])
  {
    seq(|ws|, i requires 0 <= i < |ws| => Gram(ws[i]))
  }

  function Out(e: End): Sender {
    var c := e.chan;
    Sender(c.outSeq, c.lastRel, c.outRel, c.inSeq, c.inAck, c.inRelAck,
           if c.reliable == [] then None else Some(Load(c)), e.sent, e.seen)
  }

  function In(e: End): Receiver {
    Receiver(e.chan.inSeq, e.chan.inRel, e.chan.outSeq, e.taken)
  }

  // ----- the steps of an endpoint

  function NewEnd(): End {
    End(NewChan(), [], [], 0, [], [])
  }

  /** Bytes are written to the message under construction. */
  function Writes(e: End, bytes: seq<Byte>): End
    requires Appended(e.chan.queue.message, bytes).Some?
  {
    var q := e.chan.queue;
    e.(chan := e.chan.(queue := q.(message := Appended(q.message, bytes).value)), queued := e.queued + bytes)
  }

  /** A message is queued in fragments. */
  function Cuts(e: End, msg: seq<Byte>, size: nat): End
    requires size > 0 && Fragmented(e.chan.queue, msg, size).Some?
  {
    e.(chan := e.chan.(queue := Fragmented(e.chan.queue, msg, size).value), queued := e.queued + msg)
  }

  /** The packet that a transmission sends, if it sends one, and the channel after it. */
  function Transmits(e: End, arg: seq<Byte>, size: nat): (End, Option<Wire>)
    requires size > 0
  {
    var (c, r) := Transmitted(e.chan, arg, size);
    (e.(chan := c, sent := if Loads(e.chan) && !r.Refused? then e.sent + [Load(c)] else e.sent),
     if r.Sent? then Some(Wire(r.packet, |e.taken|)) else None)
  }

  /** The bytes that a transmission sends instead of a packet that it wiped. */
  function Wiped(e: End, arg: seq<Byte>, size: nat): Option<seq<Byte>>
    requires size > 0
  {
    var r := Transmitted(e.chan, arg, size).1;
    if r.Garbled? then Some(r.bytes) else None
  }

  /** A packet is processed, and a message it completes is delivered, as in SV_ReadPackets. */
  function Receives(e: End, w: Wire): End {
    var (c, v) := Processed(e.chan, w.p);
    var (d, m) := Drained(c);
    var direct := if v == Taken && w.p.rel && w.p.frag.None? then e.delivered + w.p.reliable else e.delivered;
    e.(chan := d,
       seen := if v == Taken then w.taken else e.seen,
       taken := if v == Taken && w.p.rel then e.taken + [Payload(w.p.frag, w.p.reliable)] else e.taken,
       delivered := if m.Some? then direct + m.value else direct)
  }

  // ----- what each endpoint keeps

  /** A reliable part fits its buffer, and its fragment header is one the receiver takes. */
  ghost predicate HeadOk(head: Option<nat>, data: seq<Byte>) {
    |data| <= MAX_MESSAGE &&
    (head.Some? ==> head.value != 0 && Validate(head.value, |data|) && |data| < FRAGMENT_LIMIT)
  }

  ghost predicate WireOk(w: Wire) {
    HeadOk(w.p.frag, w.p.reliable) && (w.p.frag.Some? ==> w.p.rel)
  }

  /** What was queued is what was sent and what is left, in order; what was sent flows; and what
      was taken was delivered, up to the message in progress. */
  ghost predicate Sound(e: End) {
    && SendsInOrder(e) && Sized(e.chan)
    && HeadOk(e.chan.head, e.chan.reliable)
    && e.chan.inbox == Flowed(e.taken).box && !e.chan.inbox.ready && e.delivered == Flowed(e.taken).out
  }

  ghost predicate SendsInOrder(e: End) {
    && AlwaysFaithful(e.sent) && Sum(e.sent) <= e.queued
    && (!e.chan.queue.message.overflowed ==>
        e.queued == Sum(e.sent) + Pending(e.chan.queue) && QueueOk(Flowed(e.sent).box, e.chan.queue))
  }

  lemma NewIsSound()
    ensures Sound(NewEnd())
  {
    NoneIsPartial();
    assert Faithful([]);
    assert forall k :: 0 <= k <= 0 ==> NewEnd().sent[..k] == [];
  }

  lemma WriteKeeps(e: End, bytes: seq<Byte>)
    requires Sound(e) && Appended(e.chan.queue.message, bytes).Some? && |bytes| <= MAX_MESSAGE
    ensures var f := Writes(e, bytes); Sound(f) && Out(f) == Out(e) && In(f) == In(e)
  {
    hide AlwaysFaithful, Flowed, Sum, Pending, WaitingOk, Short;
    var q := e.chan.queue;
    StaysInsideIff(q.message, bytes);
    if |q.message.data| + |bytes| <= q.message.max { WrittenBytes(q, bytes); }
  }

  lemma CutKeeps(e: End, msg: seq<Byte>, size: nat)
    requires Sound(e) && Sendable(msg, size) && Fragmented(e.chan.queue, msg, size).Some?
    ensures var f := Cuts(e, msg, size); Sound(f) && Out(f) == Out(e) && In(f) == In(e)
  {
    hide Fragmented, Pending, QueueOk, Flowed, Sum, AlwaysFaithful;
    var q := e.chan.queue;
    if !q.message.overflowed {
      FragmentedOk(Flowed(e.sent).box, q, msg, size);
      FragmentedBytes(q, msg, size);
    }
    MessageFlushed(q, msg, size);
  }

  lemma MessageFlushed(q: Queue, msg: seq<Byte>, size: nat)
    requires size > 0 && Fragmented(q, msg, size).Some?
    ensures Fragmented(q, msg, size).value.message == q.message.(data := [])
  {
  }

  /** A payload is loaded, from a queue in order. */
  lemma LoadKeeps(e: End, size: nat)
    requires SendsInOrder(e) && 0 < size < FRAGMENT_LIMIT && !e.chan.queue.message.overflowed && Loads(e.chan)
    ensures Prepared(e.chan.queue, size).Some?
    ensures var l := Loaded(e.chan.(queue := Prepared(e.chan.queue, size).value));
      && l.reliable != [] && HeadOk(l.head, l.reliable) && !l.queue.message.overflowed
      && SendsInOrder(e.(chan := l, sent := e.sent + [Load(l)]))
  {
    hide Prepared, Loaded, QueueOk, Pending, FlowStep, Flowed, Advanced, Held, Sum, Partial;
    var (f, q0) := (Flowed(e.sent), e.chan.queue);
    LoadsIff(e.chan, size);
    QueueHeld(f.box, q0);
    PreparedOk(f.box, q0, size);
    PreparedBytes(q0, size);
    PreparedAdvanced(q0, size);
    var c := e.chan.(queue := Prepared(q0, size).value);
    var l := Loaded(c);
    LoadedBytes(c);
    LoadHead(f.box, c);
    LoadFlows(f, c);
    FlowedNext(e.sent, Load(l));
    QueuePartial(FlowStep(f, Load(l)).box, l.queue);
    assert e.sent[..|e.sent|] == e.sent && Faithful(e.sent);
    AlwaysNext(e.sent, Load(l));
    assert Sum(e.sent) + (l.reliable + Pending(l.queue)) == (Sum(e.sent) + l.reliable) + Pending(l.queue);
  }

  lemma LoadHead(box: Inbox, c: Chan)
    requires QueueOk(box, c.queue) && c.reliable == []
    ensures HeadOk(Loaded(c).head, Loaded(c).reliable)
  {
    if c.queue.sending != [] {
      var (s, n) := (c.queue.sending[0], c.queue.count);
      assert FragOk(s) && NumberedAt(c.queue.sending, |box.frags| + 1, 0);
      WordParts(s.id, n);
    }
  }

  /** Where there is nothing to load, the queue is in order as before. */
  lemma IdleKeeps(e: End, size: nat)
    requires SendsInOrder(e) && size > 0 && !e.chan.queue.message.overflowed && e.chan.reliable == []
      && !Loads(e.chan)
    ensures Prepared(e.chan.queue, size) == Some(Advanced(e.chan.queue))
    ensures var l := Loaded(e.chan.(queue := Advanced(e.chan.queue)));
      l == e.chan.(queue := Advanced(e.chan.queue), head := None) && SendsInOrder(e.(chan := l))
  {
    AdvancedBytes(e.chan.queue);
    AdvancedOk(Flowed(e.sent).box, e.chan.queue);
  }

  /** What the sending half sees of a transmission. */
  ghost predicate Transmission(e: End, f: End, w: Option<Wire>, load: Option<Payload>) {
    && Out(f) == Send(Out(e), load) && In(f) == In(e).(outSeq := e.chan.outSeq + 1)
    && (load.Some? ==> Out(e).pending.None?)
    && (w.Some? ==>
        var d := Gram(w.value);
        && d.seqno == e.chan.outSeq && d.payload == Carried(Out(e), load)
        && d.ack == e.chan.inSeq && d.ackRel == e.chan.inRel && d.taken == |e.taken| && WireOk(w.value))
  }

  /** The packet that is put together carries the pending payload, or none. */
  lemma PackedIs(c: Chan, rel: bool, resend: bool, arg: seq<Byte>, taken: nat)
    requires HeadOk(c.head, c.reliable)
    ensures var r := Packed(c, rel, resend, arg); !r.Refused? && (r.Sent? ==>
      var w := Wire(r.packet, taken);
      WireOk(w) && Gram(w) == Datagram(c.outSeq, if rel then Some(Load(c)) else None, c.inSeq, c.inRel, taken))
  {
  }

  /** A transmission refines the step of the sending half, and the endpoint stays sound. */
  lemma TransmitKeeps(e: End, arg: seq<Byte>, size: nat) returns (load: Option<Payload>)
    requires Sound(e) && 0 < size < FRAGMENT_LIMIT && !e.chan.queue.message.overflowed
    requires Lost(Out(e)) ==> Out(e).pending.Some? || Loads(e.chan)
    ensures var (f, w) := Transmits(e, arg, size); Sound(f) && Transmission(e, f, w, load)
    ensures load.Some? <==> Loads(e.chan)
  {
    hide Prepared, Loaded, QueueOk, Pending, Flowed, Advanced, Packed, AlwaysFaithful, Sum, Sized;
    var c := e.chan;
    TransmitSized(c, arg, size);
    if c.reliable != [] {
      load := None;
      PackedIs(c, Resends(c), Resends(c), arg, |e.taken|);
    } else if Loads(c) {
      LoadKeeps(e, size);
      var l := Loaded(c.(queue := Prepared(c.queue, size).value));
      load := Some(Load(l));
      PackedIs(l, true, Resends(c), arg, |e.taken|);
      LoadsIff(c, size);
      LoadedIs(c.(queue := Prepared(c.queue, size).value));
    } else {
      load := None;
      IdleKeeps(e, size);
      PackedIs(Loaded(c.(queue := Advanced(c.queue))), Resends(c), Resends(c), arg, |e.taken|);
    }
  }

  lemma LoadedIs(c: Chan)
    requires c.queue.sending != [] || c.queue.message.data != []
    ensures var l := Loaded(c);
      l == c.(outRel := !c.outRel, reliable := l.reliable, head := l.head, queue := l.queue)
  {
  }

  lemma HeadCleared(head: Option<nat>, data: seq<Byte>)
    requires HeadOk(head, data)
    ensures HeadOk(head, [])
  {
  }

  /** The payloads taken after packet w. */
  function TakenBy(e: End, w: Wire): seq<Payload> {
    if w.p.rel then e.taken + [Payload(w.p.frag, w.p.reliable)] else e.taken
  }

  function BoxAfter(box: Inbox, p: Packet): Inbox {
    if p.frag.Some? then Arrived(box, Frag(p.frag.value, p.reliable)) else box
  }

  /** A new packet is taken, and a fragment filed. */
  lemma NewIsTaken(c: Chan, p: Packet)
    requires p.seqno > c.inSeq && HeadOk(p.frag, p.reliable)
    ensures Processed(c, p) == (Received(c, p).(inbox := BoxAfter(c.inbox, p)), Taken)
  {
    hide Arrived, Validate;
  }

  lemma FlowsOn(ps: seq<Payload>, w: Wire)
    requires WireOk(w) && !Flowed(ps).box.ready && w.p.rel
    ensures
      var (f, box) := (Flowed(ps), BoxAfter(Flowed(ps).box, w.p));
      var g := Flowed(ps + [Payload(w.p.frag, w.p.reliable)]);
      && g.box == Opened(box).0 && !g.box.ready
      && g.out == (if w.p.frag.None? then f.out + w.p.reliable
                   else if Opened(box).1.Some? then f.out + Opened(box).1.value
                   else f.out)
      && (w.p.frag.None? ==> Opened(box).1 == None)
  {
    hide Arrived, Gathered, Flowed;
    FlowedNext(ps, Payload(w.p.frag, w.p.reliable));
  }

  /** A new packet moves the sequence numbers and the reliable bits, and its payload flows. */
  lemma ReceiveFlows(e: End, w: Wire)
    requires e.chan.inbox == Flowed(e.taken).box && !e.chan.inbox.ready && e.delivered == Flowed(e.taken).out
    requires WireOk(w) && w.p.seqno > e.chan.inSeq
    ensures var (ps, g) := (TakenBy(e, w), Flowed(TakenBy(e, w)));
      && !g.box.ready
      && Receives(e, w) == e.(chan := Received(e.chan, w.p).(inbox := g.box), seen := w.taken, taken := ps,
        delivered := g.out)
  {
    hide Flowed, Processed, Received, Arrived, Gathered, HeadOk;
    NewIsTaken(e.chan, w.p);
    if w.p.rel { FlowsOn(e.taken, w); }
  }

  lemma ReceiveSized(e: End, w: Wire)
    requires Sized(e.chan) && WireOk(w)
    ensures Sized(Receives(e, w).chan)
  {
    hide Arrived, Validate, Gathered;
    ProcessSized(e.chan, w.p);
  }

  /** Taking a packet refines the steps of both halves, and the endpoint stays sound; a packet
      that is not new changes nothing. */
  lemma ReceiveKeeps(e: End, w: Wire)
    requires Sound(e) && WireOk(w)
    ensures var f := Receives(e, w);
      if w.p.seqno <= e.chan.inSeq then f == e
      else Sound(f) && Out(f) == Hear(Out(e), Gram(w)) && In(f) == Take(In(e), Gram(w))
  {
    if w.p.seqno > e.chan.inSeq {
      hide Flowed, QueueOk, Pending, AlwaysFaithful, Sum, Receives, HeadOk, WireOk, Sized;
      ReceiveFlows(e, w);
      ReceiveSized(e, w);
      HeadCleared(e.chan.head, e.chan.reliable);
    }
  }

  // ----- wiped packets

  function Word32(b: seq<Byte>, at: nat): nat
    requires at + 4 <= |b|
  {
    (b[at] as nat) + 0x100 * (b[at + 1] as nat) + 0x1_0000 * (b[at + 2] as nat) + 0x100_0000 * (b[at + 3] as nat)
  }

  /** The number, the reliable bit, the fragment flag and the security bit that the receiver finds
      in bytes that are no packet. */
  function Number(b: seq<Byte>): nat
    requires |b| >= 8
  {
    Word32(b, 0) % SEQUENCES
  }

  predicate Marked(b: seq<Byte>)
    requires |b| >= 8
  {
    Word32(b, 0) >= 0x8000_0000
  }

  predicate Flagged(b: seq<Byte>)
    requires |b| >= 8
  {
    Word32(b, 0) / SEQUENCES % 2 == 1
  }

  predicate Secured(b: seq<Byte>)
    requires |b| >= 8
  {
    Word32(b, 4) / SEQUENCES % 2 == 1
  }

  predicate Echo(b: seq<Byte>)
    requires |b| >= 8
  {
    Word32(b, 4) >= 0x8000_0000
  }

  /** The receiver may read p from the bytes.  The header is in the first two words; the rest was
      munged with the number of the packet and is unmunged with the number read, so that it may be
      anything of its length. */
  ghost predicate Reads(b: seq<Byte>, p: Packet) {
    && |b| >= 8 && !Secured(b) && p.seqno == Number(b) && p.rel == Marked(b)
    && p.ack == Word32(b, 4) % SEQUENCES && p.ackRel == Echo(b)
    && (if Flagged(b) then |p.reliable| + |p.unreliable| <= |b| - 10
        else p.frag == None && |p.reliable| + |p.unreliable| == |b| - 8)
    && (p.frag.None? ==> if p.rel then p.unreliable == [] else p.reliable == [])
  }

  /** The receiver drops the bytes whatever it reads: they ask for security, or their number is not
      new to it. */
  predicate Harmless(b: seq<Byte>, inSeq: nat) {
    |b| >= 8 && (Secured(b) || Number(b) <= inSeq)
  }

  // ----- the two endpoints

  /** Both endpoints, every packet either has sent, and the bytes either has sent where it wiped a
      packet: the network may deliver any of them, at any time, any number of times, or never. */
  datatype World = World(a: End, b: End, ab: seq<Wire>, ba: seq<Wire>, wab: seq<seq<Byte>>, wba: seq<seq<Byte>>)

  function Flip(w: World): World {
    World(w.b, w.a, w.ba, w.ab, w.wba, w.wab)
  }

  datatype Action = Write(bytes: seq<Byte>) | Cut(msg: seq<Byte>, size: nat) | Transmit(arg: seq<Byte>, size: nat)
    | Receive(k: nat) | Misread(k: nat, p: Packet)

  /** An action of endpoint a happens only if it meets no fatal error, a write is no longer than its
      buffer, the fragments are shorter than the limit and not too many, and the sequence number has
      thirty bits.  A packet may be wiped if the bytes sent in its place are harmless. */
  ghost predicate Enabled(w: World, act: Action) {
    var q := w.a.chan.queue;
    match act
    case Write(bytes) => |bytes| <= MAX_MESSAGE && Appended(q.message, bytes).Some?
    case Cut(msg, size) => Sendable(msg, size) && Fragmented(q, msg, size).Some?
    case Transmit(arg, size) =>
      && 0 < size < FRAGMENT_LIMIT && |arg| < 0x8000_0000 && w.a.chan.outSeq < SEQUENCES
      && Transmitted(w.a.chan, arg, size).1 != Fatal
      && (Wiped(w.a, arg, size).Some? ==> Harmless(arg, w.b.chan.inSeq))
    case Receive(k) => k < |w.ba|
    case Misread(k, p) => k < |w.wba| && Reads(w.wba[k], p)
  }

  function AppendIf<T>(ws: seq<T>, w: Option<T>): seq<T> {
    if w.Some? then ws + [w.value] else ws
  }

  /** Endpoint a transmits, and what it sends is on the network. */
  function SendsOut(w: World, arg: seq<Byte>, size: nat): World
    requires size > 0
  {
    var (f, x) := Transmits(w.a, arg, size);
    w.(a := f, ab := AppendIf(w.ab, x), wab := AppendIf(w.wab, Wiped(w.a, arg, size)))
  }

  /** Endpoint a takes p for a packet. */
  function Misreads(e: End, p: Packet): End {
    Receives(e, Wire(p, e.seen))
  }

  /** Endpoint a acts. */
  ghost function Step(w: World, act: Action): World
    requires Enabled(w, act)
  {
    match act
    case Write(bytes) => w.(a := Writes(w.a, bytes))
    case Cut(msg, size) => w.(a := Cuts(w.a, msg, size))
    case Transmit(arg, size) => SendsOut(w, arg, size)
    case Receive(k) => w.(a := Receives(w.a, w.ba[k]))
    case Misread(_, p) => w.(a := Misreads(w.a, p))
  }

  datatype Event = Event(atA: bool, act: Action)

  /** Either endpoint acts, if it can. */
  ghost function Happen(w: World, e: Event): World {
    if e.atA then (if Enabled(w, e.act) then Step(w, e.act) else w)
    else if Enabled(Flip(w), e.act) then Flip(Step(Flip(w), e.act)) else w
  }

  function NewWorld(): World {
    World(NewEnd(), NewEnd(), [], [], [], [])
  }

  /** The world after a run. */
  ghost function Run(es: seq<Event>): World {
    if es == [] then NewWorld() else Happen(Run(es[..|es| - 1]), es[|es| - 1])
  }

  // ----- the invariant of every run

  ghost predicate AllWireOk(ws: seq<Wire>) {
    forall i :: 0 <= i < |ws| ==> WireOk(ws[i])
  }

  ghost predicate AllHarmless(bs: seq<seq<Byte>>, inSeq: nat) {
    forall i :: 0 <= i < |bs| ==> Harmless(bs[i], inSeq)
  }

  ghost predicate Follows(a: End, b: End, ab: seq<Wire>, ba: seq<Wire>) {
    Link(Out(a), In(b), Grams(ab), Grams(ba))
  }

  ghost predicate Inv(w: World) {
    && Follows(w.a, w.b, w.ab, w.ba) && Follows(w.b, w.a, w.ba, w.ab)
    && Sound(w.a) && Sound(w.b) && AllWireOk(w.ab) && AllWireOk(w.ba)
    && AllHarmless(w.wab, w.b.chan.inSeq) && AllHarmless(w.wba, w.a.chan.inSeq)
  }

  lemma GramsAppend(ws: seq<Wire>, w: Wire)
    ensures Grams(ws + [w]) == Grams(ws) + [Gram(w)]
  {
  }

  /** A transmission keeps the invariant, but for the bytes sent in place of a packet. */
  lemma TransmitInv(w: World, arg: seq<Byte>, size: nat)
    requires Inv(w) && 0 < size < FRAGMENT_LIMIT
    ensures Inv(SendsOut(w, arg, size).(wab := w.wab))
    ensures SendsOut(w, arg, size).wab == AppendIf(w.wab, if Wiped(w.a, arg, size).Some? then Some(arg) else None)
  {
    hide Sound, Transmits, Wiped, Link, WireOk, Harmless;
    var (a, b) := (w.a, w.b);
    WipedIs(a, arg, size);
    if a.chan.queue.message.overflowed {
      TransmitRefused(a, arg, size);
    } else {
      NothingLost(w);
      var load := TransmitKeeps(a, arg, size);
      var (f, x) := Transmits(a, arg, size);
      var d := if x.Some? then Gram(x.value)
        else Datagram(a.chan.outSeq, Carried(Out(a), load), a.chan.inSeq, a.chan.inRel, |a.taken|);
      SendKeeps(Out(a), In(b), Grams(w.ab), Grams(w.ba), load, d);
      AnswerKeeps(Out(b), In(a), Grams(w.ba), Grams(w.ab), d);
      if x.Some? { GramsAppend(w.ab, x.value); }
    }
  }

  lemma TransmitStep(w: World, arg: seq<Byte>, size: nat)
    requires Inv(w) && Enabled(w, Transmit(arg, size))
    ensures Inv(Step(w, Transmit(arg, size)))
  {
    hide Follows, Sound, WireOk, Harmless;
    TransmitInv(w, arg, size);
  }

  lemma TransmitRefused(e: End, arg: seq<Byte>, size: nat)
    requires size > 0 && e.chan.queue.message.overflowed
    ensures Transmits(e, arg, size) == (e, None) && Wiped(e, arg, size).None?
  {
  }

  lemma WipedIs(e: End, arg: seq<Byte>, size: nat)
    requires size > 0
    ensures Wiped(e, arg, size).Some? ==> Wiped(e, arg, size).value == arg
  {
  }

  /** In every run a part is sent again exactly if the last packet heard acknowledges a later
      packet without it, and then it is pending and b has not taken it. */
  lemma NothingLost(w: World)
    requires Follows(w.a, w.b, w.ab, w.ba)
    ensures Resends(w.a.chan) <==> w.a.chan.inAck > w.a.chan.lastRel && w.a.seen < |w.a.sent|
    ensures Resends(w.a.chan) ==> w.a.chan.reliable != [] && |w.a.sent| == |w.b.taken| + 1
  {
    if Lost(Out(w.a)) { LostIs(Out(w.a), In(w.b)); }
  }

  /** The echoed bit tells the truth: of a packet new to a it agrees with a's bit exactly if b had
      taken everything by then.  What is pending is cleared exactly if it had, and the packet
      heard before acknowledges all but at most the last packet with a reliable part. */
  lemma EchoIsTrue(w: World, k: nat)
    requires Inv(w) && k < |w.ba| && w.ba[k].p.seqno > w.a.chan.inSeq
    ensures w.ba[k].p.ackRel == w.a.chan.outRel <==> w.ba[k].taken == |w.a.sent|
    ensures w.a.chan.reliable != [] ==>
      (Step(w, Receive(k)).a.chan.reliable == [] <==>
        w.ba[k].taken == |w.a.sent| && w.a.chan.inAck + 1 >= w.a.chan.lastRel)
    ensures w.ba[k].taken == |w.a.sent| ==> w.b.taken == w.a.sent
  {
    hide Sound, Receives, Link, WireOk, Hear, Take;
    assert Grams(w.ba)[k] == Gram(w.ba[k]) && WireOk(w.ba[k]);
    EchoIs(Out(w.a), In(w.b), Grams(w.ab), Grams(w.ba), k);
    ReceiveKeeps(w.a, w.ba[k]);
  }

  lemma ReceiveStep(w: World, k: nat)
    requires Inv(w) && k < |w.ba|
    ensures Inv(Step(w, Receive(k)))
  {
    hide Sound, Receives, Link, WireOk;
    assert Grams(w.ba)[k] == Gram(w.ba[k]) && WireOk(w.ba[k]);
    ReceiveKeeps(w.a, w.ba[k]);
    if w.ba[k].p.seqno > w.a.chan.inSeq {
      StillHarmless(w.wba, w.a.chan.inSeq, w.ba[k].p.seqno);
      HearKeeps(Out(w.a), In(w.b), Grams(w.ab), Grams(w.ba), k);
      TakeKeeps(Out(w.b), In(w.a), Grams(w.ba), Grams(w.ab), k);
    }
  }

  lemma StillHarmless(bs: seq<seq<Byte>>, inSeq: nat, later: nat)
    requires AllHarmless(bs, inSeq) && inSeq <= later
    ensures AllHarmless(bs, later)
  {
  }

  /** A packet that is not new changes nothing, whatever it holds. */
  lemma OldIsDropped(e: End, w: Wire)
    requires w.p.seqno <= e.chan.inSeq && !e.chan.inbox.ready
    ensures Receives(e, w) == e
  {
  }

  /** Harmless bytes are dropped. */
  lemma MisreadStep(w: World, k: nat, p: Packet)
    requires AllHarmless(w.wba, w.a.chan.inSeq) && !w.a.chan.inbox.ready && Enabled(w, Misread(k, p))
    ensures Step(w, Misread(k, p)) == w
  {
    assert Harmless(w.wba[k], w.a.chan.inSeq);
    OldIsDropped(w.a, Wire(p, w.a.seen));
  }

  lemma StepKeeps(w: World, act: Action)
    requires Inv(w) && Enabled(w, act)
    ensures Inv(Step(w, act))
  {
    match act
    case Write(bytes) => WriteKeeps(w.a, bytes);
    case Cut(msg, size) => CutKeeps(w.a, msg, size);
    case Transmit(arg, size) => TransmitStep(w, arg, size);
    case Receive(k) => ReceiveStep(w, k);
    case Misread(k, p) => MisreadStep(w, k, p);
  }

  lemma {:induction false} RunKeeps(es: seq<Event>)
    ensures Inv(Run(es))
    decreases |es|
  {
    if es == [] {
      NewIsSound();
    } else {
      var (w, e) := (Run(es[..|es| - 1]), es[|es| - 1]);
      RunKeeps(es[..|es| - 1]);
      if e.atA && Enabled(w, e.act) { StepKeeps(w, e.act); }
      if !e.atA && Enabled(Flip(w), e.act) { StepKeeps(Flip(w), e.act); }
    }
  }

  // ----- the promises

  /** b has taken what a sent but for at most the last, and a part is pending until it was taken. */
  ghost predicate TakenOnce(w: World) {
    var (c, sent, taken) := (w.a.chan, w.a.sent, w.b.taken);
    && taken <= sent && |sent| <= |taken| + 1
    && (c.reliable == [] ==> taken == sent)
    && (c.reliable != [] ==> sent != [] && sent[|sent| - 1].data == c.reliable)
  }

  lemma TakesOnce(w: World)
    requires Follows(w.a, w.b, w.ab, w.ba)
    ensures TakenOnce(w)
  {
  }

  /** Exactly once and in order: at every moment of every run, in both directions. */
  lemma ExactlyOnce(es: seq<Event>)
    ensures TakenOnce(Run(es)) && TakenOnce(Flip(Run(es)))
  {
    hide TakenOnce, Run, Follows;
    RunKeeps(es);
    TakesOnce(Run(es));
    TakesOnce(Flip(Run(es)));
  }

  /** What b delivers is a prefix of what a queued, if b has taken what a sent but for the last. */
  lemma PrefixDelivered(a: End, b: End)
    requires Sound(a) && Sound(b) && b.taken <= a.sent
    ensures b.delivered + Joined(b.chan.inbox.frags) <= a.queued
  {
    hide Sized, QueueOk, Pending, Partial, Flowed, Sum, HeadOk;
    assert a.sent[..|b.taken|] == b.taken && Faithful(b.taken);
    SumPrefix(a.sent, |b.taken|);
  }

  /** What b delivers is a prefix of what a queued, and it is all once nothing is left to send. */
  lemma DeliversPrefix(w: World)
    requires Inv(w)
    ensures w.b.delivered <= w.a.queued
    ensures var c := w.a.chan;
      !c.queue.message.overflowed && c.reliable == [] && Pending(c.queue) == [] ==> w.b.delivered == w.a.queued
  {
    var (a, b) := (w.a, w.b);
    hide Sized, Partial, HeadOk;
    PrefixDelivered(a, b);
    assert Faithful(a.sent[..|b.taken|]);
    if !a.chan.queue.message.overflowed && a.chan.reliable == [] && Pending(a.chan.queue) == [] {
      NothingInProgress(Flowed(a.sent).box, a.chan.queue);
      assert a.sent[..|b.taken|] == a.sent;
    }
  }

  lemma NothingInProgress(box: Inbox, q: Queue)
    requires QueueOk(box, q) && Pending(q) == []
    ensures box.frags == []
  {
    assert q.sending != [] ==> FragOk(q.sending[0]);
  }

  /** In every run the bytes delivered on either side are a prefix of those queued on the other. */
  lemma DeliveredIsPrefix(es: seq<Event>)
    ensures Run(es).b.delivered <= Run(es).a.queued && Run(es).a.delivered <= Run(es).b.queued
  {
    RunKeeps(es);
    DeliversPrefix(Run(es));
    DeliversPrefix(Flip(Run(es)));
  }
}
