/** Fragmentation in NET.c: which messages survive being cut up, sent and put together again, and
    what goes wrong with the others. */
module Fragments {
  import opened Basics
  import opened Netchan

  // ----- cutting up

  /** The fragments are numbered from id on. */
  ghost predicate Numbered(frags: seq<Frag>, id: nat) {
    forall i :: 0 <= i < |frags| ==> NumberedAt(frags, id, i)
  }

  ghost predicate NumberedAt(frags: seq<Frag>, id: nat, i: nat)
    requires i < |frags|
  {
    frags[i].id == id + i
  }

  /** Fragment i is the last and not empty, or it is full. */
  ghost predicate FullAt(frags: seq<Frag>, size: nat, i: nat)
    requires i < |frags|
  {
    0 < |frags[i].data| <= size && (i + 1 < |frags| ==> |frags[i].data| == size)
  }

  ghost predicate Full(frags: seq<Frag>, size: nat) {
    forall i :: 0 <= i < |frags| ==> FullAt(frags, size, i)
  }

  lemma {:induction false} PiecesAre(msg: seq<Byte>, size: nat, id: nat)
    requires size > 0
    ensures var frags := Pieces(msg, size, id); Numbered(frags, id) && Full(frags, size) && Joined(frags) == msg
    decreases |msg|
  {
    var frags := Pieces(msg, size, id);
    if msg != [] {
      var n := if size <= |msg| then size else |msg|;
      var rest := Pieces(msg[n..], size, id + 1);
      PiecesAre(msg[n..], size, id + 1);
      assert frags[1..] == rest;
      assert rest == [] ==> msg[n..] == [];
      forall i | 0 <= i < |frags| ensures NumberedAt(frags, id, i) && FullAt(frags, size, i) {
        if i > 0 { assert NumberedAt(rest, id + 1, i - 1) && FullAt(rest, size, i - 1); }
      }
      assert msg[..n] + msg[n..] == msg;
    }
  }

  // ----- the fragment header

  lemma WordParts(id: nat, n: nat)
    ensures High(Word(id, n)) == id % 0x1_0000 && Low(Word(id, n)) == n % 0x1_0000
    ensures Word(id, n) / 0x1_0000 == id % 0x1_0000
  {
  }

  /** The receiver takes every header of n fragments, on packets of this length, exactly if there
      are not too many and the packet is not too long. */
  lemma HeadersValid(n: nat, length: nat)
    requires n > 0
    ensures (forall id :: 1 <= id <= n ==> Validate(Word(id, n), length)) <==> n <= 25000 && length <= 2048
  {
    forall id | 1 <= id <= n ensures n <= 25000 && length <= 2048 ==> Validate(Word(id, n), length) {
      WordParts(id, n);
    }
    if n > 25000 {
      WordParts(30000, n);
      WordParts(1, n);
      assert n < 30000 ==> !Validate(Word(1, n), length);
      assert n >= 30000 ==> !Validate(Word(30000, n), length);
    }
    if length > 2048 { assert !Validate(Word(1, n), length); }
  }

  // ----- putting together

  /** The fragments as the receiver files them: the id is the word of the header. */
  function Filed(frags: seq<Frag>, n: nat): (r: seq<Frag>)
    ensures |r| == |frags| && forall i :: 0 <= i < |frags| ==> r[i] == Frag(Word(frags[i].id, n), frags[i].data)
  {
    seq(|frags|, i requires 0 <= i < |frags| => Frag(Word(frags[i].id, n), frags[i].data))
  }

  /** The fragments of a message of n arrive one after the other. */
  function AllArrived(frags: seq<Frag>, n: nat): Inbox {
    if frags == [] then Inbox([], false)
    else
      var f := frags[|frags| - 1];
      Arrived(AllArrived(frags[..|frags| - 1], n), Frag(Word(f.id, n), f.data))
  }

  /** The list is the first fragments of a message of n, in order. */
  ghost predicate Begun(filed: seq<Frag>, n: nat) {
    forall i :: 0 <= i < |filed| ==> BegunAt(filed, n, i)
  }

  ghost predicate BegunAt(filed: seq<Frag>, n: nat, i: nat)
    requires i < |filed|
  {
    filed[i].id == Word(i + 1, n)
  }

  /** A fragment with the highest number so far goes to the end. */
  lemma HighestLast(filed: seq<Frag>, f: Frag)
    requires forall i :: 0 <= i < |filed| ==> High(filed[i].id) < High(f.id)
    ensures Find(filed, f.id, 0) == |filed| && Linked(filed, f) == filed + [f]
  {
    hide High;
    var (k, l) := (Find(filed, f.id, 0), Slot(filed, f.id));
  }

  lemma BegunHigh(filed: seq<Frag>, n: nat, i: nat)
    requires Begun(filed, n) && i < |filed| < 0x1_0000
    ensures High(filed[i].id) == i + 1
  {
    assert BegunAt(filed, n, i);
    WordParts(i + 1, n);
  }

  /** So a client does not ask for a new connection while fragments come in order. */
  lemma {:induction false} NoGapsInOrder(filed: seq<Frag>, n: nat, k: nat)
    requires Begun(filed, n) && k <= |filed| < 0x1_0000
    ensures Gaps(filed, k) == 0
  {
    if k > 0 {
      NoGapsInOrder(filed, n, k - 1);
      BegunHigh(filed, n, k - 1);
    }
  }

  lemma BegunNext(filed: seq<Frag>, n: nat, f: Frag)
    requires Begun(filed, n) && f.id == Word(|filed| + 1, n)
    ensures Begun(filed + [f], n)
  {
    hide Word;
    forall i | 0 <= i < |filed| + 1 ensures BegunAt(filed + [f], n, i) {
      if i < |filed| { assert BegunAt(filed, n, i); }
    }
  }

  /** The next fragment of a message goes to the end, and completes it if it is the last. */
  lemma NextArrives(filed: seq<Frag>, n: nat, f: Frag)
    requires Begun(filed, n) && |filed| < n < 0x1_0000 && f.id == Word(|filed| + 1, n)
    ensures Arrived(Inbox(filed, false), f) == Inbox(filed + [f], |filed| + 1 == n)
    ensures Begun(filed + [f], n)
  {
    WordParts(|filed| + 1, n);
    BegunNext(filed, n, f);
    hide High, Low, Word, Find, Linked, Begun;
    forall i | 0 <= i < |filed| ensures High(filed[i].id) < High(f.id) {
      BegunHigh(filed, n, i);
    }
    HighestLast(filed, f);
  }

  /** Fragments that arrive in order are filed in order, and the message is ready exactly with
      the last. */
  lemma {:induction false} ArriveInOrder(frags: seq<Frag>, n: nat)
    requires Numbered(frags, 1) && |frags| <= n < 0x1_0000 && n > 0
    ensures AllArrived(frags, n) == Inbox(Filed(frags, n), |frags| == n)
    decreases |frags|
  {
    if frags == [] {
      assert Filed(frags, n) == [];
    } else {
      var (before, f) := (frags[..|frags| - 1], frags[|frags| - 1]);
      assert NumberedAt(frags, 1, |frags| - 1);
      forall i | 0 <= i < |before| ensures NumberedAt(before, 1, i) {
        assert NumberedAt(frags, 1, i);
      }
      ArriveInOrder(before, n);
      forall i | 0 <= i < |before| ensures BegunAt(Filed(before, n), n, i) {
        assert NumberedAt(before, 1, i);
      }
      NextArrives(Filed(before, n), n, Frag(Word(f.id, n), f.data));
      assert Filed(before, n) + [Frag(Word(f.id, n), f.data)] == Filed(frags, n);
    }
  }

  /** Gathering gives all the bytes exactly if they fit. */
  lemma {:induction false} GatherIff(b: Buf, frags: seq<Frag>)
    requires |b.data| <= b.max && MAX_FRAGMENT <= b.max && forall i :: 0 <= i < |frags| ==> Short(frags[i])
    ensures |Gathered(b, frags).data| <= b.max
    ensures Gathered(b, frags).data == b.data + Joined(frags) <==> |b.data| + |Joined(frags)| <= b.max
    decreases |frags|
  {
    if frags == [] {
      assert b.data + Joined(frags) == b.data;
    } else {
      assert Short(frags[0]);
      var b' := Appended(b, frags[0].data).value;
      forall i | 0 <= i < |frags[1..]| ensures Short(frags[1..][i]) {
        assert Short(frags[i + 1]);
      }
      GatherIff(b', frags[1..]);
      assert b.data + Joined(frags) == (b.data + frags[0].data) + Joined(frags[1..]);
    }
  }

  /** What is left of fragments that do not fit is the end of the bytes. */
  lemma {:induction false} GatheredIsEnd(b: Buf, frags: seq<Frag>) returns (k: nat)
    requires |b.data| <= b.max && MAX_FRAGMENT <= b.max && forall i :: 0 <= i < |frags| ==> Short(frags[i])
    ensures k <= |b.data + Joined(frags)| && Gathered(b, frags).data == (b.data + Joined(frags))[k..]
    decreases |frags|
  {
    k := 0;
    if frags == [] {
      assert b.data + Joined(frags) == b.data;
    } else {
      assert Short(frags[0]);
      var (all, b') := (b.data + Joined(frags), Appended(b, frags[0].data).value);
      forall i | 0 <= i < |frags[1..]| ensures Short(frags[1..][i]) {
        assert Short(frags[i + 1]);
      }
      k := GatheredIsEnd(b', frags[1..]);
      assert all == (b.data + frags[0].data) + Joined(frags[1..]);
      if |b'.data| < |b.data| + |frags[0].data| {
        assert b'.data + Joined(frags[1..]) == all[|b.data|..];
        k := k + |b.data|;
      }
    }
  }

  lemma {:induction false} JoinedFiled(frags: seq<Frag>, n: nat)
    ensures Joined(Filed(frags, n)) == Joined(frags)
    decreases |frags|
  {
    if frags != [] {
      assert Filed(frags, n)[1..] == Filed(frags[1..], n);
      JoinedFiled(frags[1..], n);
    }
  }

  // ----- the round trip

  /** Each fragment is short enough to be loaded and has a header the receiver takes. */
  ghost predicate Travels(frags: seq<Frag>) {
    forall i :: 0 <= i < |frags| ==> TravelsAt(frags, i)
  }

  ghost predicate TravelsAt(frags: seq<Frag>, i: nat)
    requires i < |frags|
  {
    |frags[i].data| < FRAGMENT_LIMIT && Validate(Word(frags[i].id, |frags|), |frags[i].data|)
  }

  /** The fragments of msg travel exactly if they are short and not too many. */
  lemma TravelIff(msg: seq<Byte>, size: nat)
    requires size > 0 && msg != []
    ensures var frags := Pieces(msg, size, 1);
      Travels(frags) <==> (size < FRAGMENT_LIMIT || |msg| < FRAGMENT_LIMIT) && |frags| <= MAX_FRAGMENTS
  {
    var frags := Pieces(msg, size, 1);
    PiecesAre(msg, size, 1);
    assert |frags[0].data| == if size <= |msg| then size else |msg|;
    if Travels(frags) {
      assert TravelsAt(frags, 0);
      forall id | 1 <= id <= |frags| ensures Validate(Word(id, |frags|), 0) {
        assert NumberedAt(frags, 1, id - 1) && TravelsAt(frags, id - 1);
      }
      HeadersValid(|frags|, 0);
    }
    if (size < FRAGMENT_LIMIT || |msg| < FRAGMENT_LIMIT) && |frags| <= MAX_FRAGMENTS {
      forall i | 0 <= i < |frags| ensures TravelsAt(frags, i) {
        assert NumberedAt(frags, 1, i) && FullAt(frags, size, i);
        assert size > |msg| ==> |frags| == 1;
        HeadersValid(|frags|, |frags[i].data|);
      }
    }
  }

  /** Cut up, sent and put together, a message comes out as it went in exactly if the fragments
      are short, not too many, and together not too long; it is ready with the last fragment and
      not before. */
  lemma RoundTrip(msg: seq<Byte>, size: nat)
    requires size > 0 && msg != []
    ensures var frags := Pieces(msg, size, 1);
      Travels(frags) && Gathered(NetMessage(), AllArrived(frags, |frags|).frags).data == msg
      <==> (size < FRAGMENT_LIMIT || |msg| < FRAGMENT_LIMIT) && |frags| <= MAX_FRAGMENTS && |msg| <= MAX_ASSEMBLED
    ensures var frags := Pieces(msg, size, 1);
      Travels(frags) ==> forall k: nat :: k <= |frags| ==> (AllArrived(frags[..k], |frags|).ready <==> k == |frags|)
  {
    var frags := Pieces(msg, size, 1);
    PiecesAre(msg, size, 1);
    TravelIff(msg, size);
    if Travels(frags) {
      var n := |frags|;
      forall k: nat | k <= n ensures AllArrived(frags[..k], n).ready <==> k == n {
        forall i | 0 <= i < k ensures NumberedAt(frags[..k], 1, i) {
          assert NumberedAt(frags, 1, i);
        }
        ArriveInOrder(frags[..k], n);
      }
      ArriveInOrder(frags, n);
      forall i | 0 <= i < n ensures Short(Filed(frags, n)[i]) {
        assert TravelsAt(frags, i);
      }
      GatherIff(NetMessage(), Filed(frags, n));
      JoinedFiled(frags, n);
      assert NetMessage().data + Joined(Filed(frags, n)) == msg;
    }
  }

  /** SV_GetFragmentSize: the size used for a client, from its cl_dlmax setting, which is None
      where it is empty.  All sizes are positive; the settings from the limit on up to the bound
      let fragments get stuck. */
  function FragmentSize(connected: bool, dlmax: Option<int>): (size: nat)
    ensures 0x40 <= size <= 0x4000
    ensures size >= FRAGMENT_LIMIT <==> connected && dlmax.Some? && FRAGMENT_LIMIT <= dlmax.value <= 0x4000
    ensures !connected || (dlmax.Some? && dlmax.value > 0x4000) ==> size == 0x400
    ensures connected && dlmax.Some? && dlmax.value <= 0x4000 ==>
      size >= dlmax.value && (size == dlmax.value || size == 0x40)
    ensures connected && dlmax.None? ==> size == 0x80
  {
    if !connected then 0x400
    else
      match dlmax
      case None => 0x80
      case Some(i) => if i < 0x40 then 0x40 else if i > 0x4000 then 0x400 else i
  }

  // ----- what goes wrong

  /** Filing keeps every fragment that is there exactly if none but the first has a higher number;
      otherwise one is lost. */
  lemma FilingLoses(frags: seq<Frag>, f: Frag)
    ensures var later := exists k :: 1 <= k < |frags| && High(frags[k].id) > High(f.id);
      && (!later <==> Linked(frags, f) == frags + [f])
      && (later ==> |Linked(frags, f)| == |frags| && Linked(frags, f) == frags[Slot(frags, f.id) := f])
  {
    var k := Slot(frags, f.id);
    if k < |frags| {
      assert |Linked(frags, f)| == |frags|;
    }
  }

  /** A fragment not there yet is filed. */
  lemma ArrivesNew(box: Inbox, f: Frag)
    requires forall i :: 0 <= i < |box.frags| ==> High(box.frags[i].id) != High(f.id)
    ensures var l := Linked(box.frags, f); Arrived(box, f) == Inbox(l, box.ready || |l| == Low(f.id))
  {
    assert Find(box.frags, f.id, 0) == |box.frags|;
  }

  /** The third fragment of three is lost where the second comes after it. */
  lemma OutOfOrder(f1: Frag, f2: Frag, f3: Frag)
    requires High(f1.id) == 1 && High(f2.id) == 2 && High(f3.id) == 3
    requires Low(f1.id) == Low(f2.id) == Low(f3.id) == 3
    ensures Arrived(Arrived(Arrived(Inbox([], false), f1), f3), f2) == Inbox([f1, f2], false)
  {
    hide Arrived, High, Low;
    ArrivesNew(Inbox([], false), f1);
    assert Linked([], f1) == [f1];
    ArrivesNew(Inbox([f1], false), f3);
    assert Linked([f1], f3) == [f1, f3];
    ArrivesNew(Inbox([f1, f3], false), f2);
    assert Slot([f1, f3], f2.id) == 1;
    assert Linked([f1, f3], f2) == [f1, f2];
  }

  /** The fragment next in line is too long to be loaded. */
  ghost predicate Stuck(c: Chan, f: Frag) {
    && c.reliable == [] && |f.data| >= FRAGMENT_LIMIT
    && Advanced(c.queue).sending != [] && Advanced(c.queue).sending[0] == f
  }

  lemma StuckQueue(q: Queue, msg: seq<Byte>, size: nat)
    requires size > 0 && Advanced(q).sending != [] && Added(q, msg, size).Some?
    ensures Advanced(Added(q, msg, size).value).sending == Advanced(q).sending
  {
  }

  /** A fragment of the limit or more never leaves: each transmission flips the reliable bit,
      carries nothing and leaves the fragment next in line. */
  lemma StuckSends(c: Chan, f: Frag, arg: seq<Byte>, size: nat)
    requires Stuck(c, f) && size > 0
    ensures var (d, r) := Transmitted(c, arg, size);
      && Stuck(d, f)
      && (r.Sent? ==> r.packet.rel && r.packet.reliable == [] && r.packet.frag == None && d.outRel == !c.outRel)
  {
    var a := Advanced(c.queue);
    assert a.message == c.queue.message && Advanced(a) == a;
    if Added(a, a.message.data, size).Some? { StuckQueue(a, a.message.data, size); }
  }

  /** Nothing that is received or queued meanwhile changes that, be it written to the message under
      construction or cut into fragments. */
  lemma StuckStays(c: Chan, f: Frag, size: nat, p: Packet, msg: seq<Byte>)
    requires Stuck(c, f) && size > 0
    ensures Stuck(Processed(c, p).0, f)
    ensures Appended(c.queue.message, msg).Some? ==>
      Stuck(c.(queue := c.queue.(message := Appended(c.queue.message, msg).value)), f)
    ensures Fragmented(c.queue, msg, size).Some? ==> Stuck(c.(queue := Fragmented(c.queue, msg, size).value), f)
  {
    var q := c.queue;
    if Fragmented(q, msg, size).Some? {
      StuckQueue(q, q.message.data, size);
      var r := Flushed(q, size).value;
      assert Advanced(r).sending == Advanced(q).sending;
      StuckQueue(r, msg, size);
    }
  }

  // ----- the unreliable part

  /** The reliable part is sent again, overfills the room for that, and all together overfills a
      packet. */
  predicate Overfills(c: Chan, arg: seq<Byte>) {
    var used := (if c.head == None then 8 else 18) + |c.reliable|;
    c.inAck > c.lastRel && c.inRelAck != c.outRel && used > 1400 && used + |arg| > 4037
  }

  lemma PackedGarbled(c: Chan, rel: bool, resend: bool, arg: seq<Byte>)
    requires Sized(c) && |arg| < 0x8000_0000 && (resend ==> rel)
    ensures var used := HeaderSize(true, c.head) + |c.reliable|;
      var r := Packed(c, rel, resend, arg);
      if resend && used > MAX_FRAGMENT && used + |arg| > MAX_PACKET then
        r == (if |arg| <= MAX_PACKET then Garbled(arg) else Fatal)
      else r.Sent?
  {
  }

  /** The unreliable part rides along exactly if it fits a packet, or the smaller one of a part
      sent again that leaves room in that; it is dropped otherwise, unless the packet is wiped. */
  lemma UnreliableIff(c: Chan, rel: bool, resend: bool, arg: seq<Byte>)
    requires Sized(c) && arg != [] && (resend ==> rel)
    ensures var used := if rel then (if c.head == None then 8 else 18) + |c.reliable| else 8;
      var r := Packed(c, rel, resend, arg);
      && (r.Sent? && r.packet.unreliable == arg <==>
        used + |arg| <= if resend && used <= 1400 then 1400 else 4037)
      && (r.Sent? && r.packet.unreliable != arg ==> r.packet.unreliable == [])
      && (r.Sent? ==> r.packet.rel == rel && r.packet.reliable == (if rel then c.reliable else []))
  {
  }

  /** A packet is wiped exactly if it overfills; more bytes than a packet holds are fatal exactly
      then.  That nothing pending means nothing to send again is an invariant of every run. */
  lemma GarbledIff(c: Chan, arg: seq<Byte>, size: nat)
    requires Sized(c) && 0 < size <= MAX_FRAGMENT && |arg| < 0x8000_0000
    requires c.reliable == [] ==> !Resends(c)
    ensures var r := Transmitted(c, arg, size).1;
      && (r.Refused? <==> c.queue.message.overflowed)
      && (r.Garbled? <==> !c.queue.message.overflowed && Overfills(c, arg) && |arg| <= MAX_PACKET)
      && (r.Fatal? <==> !c.queue.message.overflowed && Overfills(c, arg) && |arg| > MAX_PACKET)
      && (r.Garbled? ==> r.bytes == arg)
  {
    hide Packed, Prepared, Loaded, Advanced, Short;
    TransmitSized(c, arg, size);
    if c.reliable != [] {
      PackedGarbled(c, Resends(c), Resends(c), arg);
    } else if !c.queue.message.overflowed {
      PreparedSome(c.queue, size);
      var l := Loaded(c.(queue := Prepared(c.queue, size).value));
      SizedParts(l, Transmitted(c, arg, size).0);
      PackedGarbled(l, Loads(c), false, arg);
    }
  }

  lemma PreparedSome(q: Queue, size: nat)
    requires 0 < size <= MAX_FRAGMENT
    ensures Prepared(q, size).Some?
  {
  }

  lemma SizedParts(c: Chan, d: Chan)
    requires Sized(d) && d.queue == c.queue && d.reliable == c.reliable && d.head == c.head && d.inbox == c.inbox
    ensures Sized(c)
  {
  }
}
