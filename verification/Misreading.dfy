/** What becomes of the promises of the channel where a transmission wipes its packet and sends the
    unreliable part in its place: the receiver reads the first bytes as a header.  The promises
    survive whatever happens next exactly if it drops the bytes, or takes them for a packet without
    a reliable part and without a fragment whose acknowledgement does not mislead it. */
module Misreading {
  import opened Basics
  import opened Netchan
  import opened Fragments
  import opened Order
  import opened Stream
  import opened Drift
  import opened Delivery
  import opened Channel
  import opened Survival

  /** While a part is pending, a transmission changes the numbers only. */
  lemma PendingStays(e: End, arg: seq<Byte>, size: nat)
    requires size > 0 && e.chan.reliable != []
    ensures var f := Transmits(e, arg, size).0;
      f.chan.reliable == e.chan.reliable && f.sent == e.sent && f.taken == e.taken && f.chan.inSeq == e.chan.inSeq
  {
  }

  /** A packet is wiped only where a part without a fragment header is sent again, and by a part
      long enough to be read as a header. */
  lemma WipedWhere(w: World, arg: seq<Byte>, size: nat)
    requires Inv(w) && 0 < size < FRAGMENT_LIMIT && |arg| < 0x8000_0000 && Wiped(w.a, arg, size).Some?
    ensures |arg| >= 40 && Resends(w.a.chan) && w.a.chan.head == None && w.a.chan.reliable != []
    ensures |w.a.sent| == |w.b.taken| + 1 && w.b.taken <= w.a.sent && Load(w.a.chan) == w.a.sent[|w.b.taken|]
    ensures Wiped(w.a, arg, size) == Some(arg)
  {
    hide Transmitted, Sized, QueueOk, Pending, AlwaysFaithful, Flowed, Sum;
    NothingLost(w);
    HeadedShort(w.a);
    GarbledIff(w.a.chan, arg, size);
  }

  lemma HeadedShort(e: End)
    requires Sound(e)
    ensures Sized(e.chan) && |e.chan.reliable| <= MAX_MESSAGE
    ensures e.chan.head.Some? ==> |e.chan.reliable| < FRAGMENT_LIMIT
  {
  }

  // ----- readings

  lemma ReadingIs(b: seq<Byte>, p: Packet)
    requires Reads(b, p)
    ensures |b| >= 8 && p.seqno == Number(b) && p.rel == Marked(b) && !Secured(b)
  {
  }

  /** A reading of a whole packet whose content is not the given one. */
  function Reading(b: seq<Byte>, other: seq<Byte>): (p: Packet)
    requires |b| >= 40 && !Secured(b)
    ensures Reads(b, p) && p.frag.None? && (p.rel ==> p.reliable != other)
    ensures p.rel == Marked(b) && p.seqno == Number(b)
  {
    var x: Byte := if other != [] && other[0] == 0 then 1 else 0;
    var content := seq(|b| - (if Flagged(b) then 10 else 8), _ => x);
    Packet(Number(b), Marked(b), Word32(b, 4) % SEQUENCES, Echo(b), None,
           if Marked(b) then content else [], if Marked(b) then [] else content)
  }

  /** The sender can tell that its bytes will be dropped: it knows a number that is not new. */
  lemma SenderCanTell(w: World, arg: seq<Byte>)
    requires Inv(w) && |arg| >= 8 && Number(arg) <= w.a.chan.inAck
    ensures Harmless(arg, w.b.chan.inSeq)
  {
  }

  /** What a reading that is not dropped does to the receiver: marked reliable it is taken as a whole,
      not marked it is not; either way what is pending is cleared by the rule for packets. */
  lemma ReadingTaken(e: End, b: seq<Byte>, p: Packet)
    requires Reads(b, p) && !e.chan.inbox.ready && Processed(e.chan, p).1 != Dropped
    ensures var (f, v) := (Misreads(e, p), Processed(e.chan, p).1);
      && f.sent == e.sent
      && f.taken == (if p.rel && v == Taken then e.taken + [Payload(p.frag, p.reliable)] else e.taken)
      && f.chan.reliable == (if Clears(e.chan, p) then [] else e.chan.reliable)
  {
    hide Validate, Arrived, Gathered, Clears;
  }

  /** A reading that is not new changes nothing. */
  lemma ReadingDropped(w: World, p: Packet)
    requires Inv(w) && p.seqno <= w.b.chan.inSeq
    ensures Misreads(w.b, p) == w.b
  {
    OldIsDropped(w.b, Wire(p, w.b.seen));
  }

  lemma NotReady(w: World)
    requires Inv(w)
    ensures !w.b.chan.inbox.ready && TakenOnce(w) && TakenOnce(Flip(w))
  {
    TakesOnce(w);
    TakesOnce(Flip(w));
  }

  lemma TakenWith(a: End, b: End, taken: seq<Payload>, x: Payload)
    requires taken <= a.sent && |a.sent| == |taken| + 1 && a.sent[|taken|] == Load(a.chan)
    requires a.chan.reliable != [] && b.taken == taken + [x]
    ensures x == Load(a.chan) <==> b.taken <= a.sent
    ensures x == Load(a.chan) ==> b.taken == a.sent
  {
    assert a.sent == taken + [Load(a.chan)];
  }

  /** Once b takes a marked reading, the promise holds exactly if what it reads is the pending part
      itself, which is no fragment. */
  lemma MarkedIff(w: World, arg: seq<Byte>, size: nat, p: Packet)
    requires Inv(w) && 0 < size < FRAGMENT_LIMIT && |arg| < 0x8000_0000 && Wiped(w.a, arg, size).Some?
    requires Reads(arg, p) && p.rel && Processed(w.b.chan, p).1 == Taken
    ensures var v := SendsOut(w, arg, size);
      TakenOnce(v.(b := Misreads(v.b, p))) <==> p.frag.None? && p.reliable == w.a.chan.reliable
  {
    hide Inv, Transmits, Wiped, Reads, Misreads, Resends, Processed, Clears;
    WipedWhere(w, arg, size);
    NotReady(w);
    PendingStays(w.a, arg, size);
    ReadingTaken(w.b, arg, p);
    TakenWith(w.a, Misreads(w.b, p), w.b.taken, Payload(p.frag, p.reliable));
  }

  /** The bytes clear a part that b has pending and a has not taken. */
  ghost predicate ClearsFalsely(w: World, b: seq<Byte>)
    requires |b| >= 8
  {
    var c := w.b.chan;
    Echo(b) == c.outRel && c.inAck + 1 >= c.lastRel && c.reliable != [] && w.a.taken != w.b.sent
  }

  /** Once b has a reading that is not marked, the promise of the other direction fails at once
      exactly if it clears falsely. */
  lemma UnmarkedIff(w: World, arg: seq<Byte>, size: nat, p: Packet)
    requires Inv(w) && 0 < size < FRAGMENT_LIMIT && |arg| < 0x8000_0000 && Wiped(w.a, arg, size).Some?
    requires Reads(arg, p) && !p.rel && Processed(w.b.chan, p).1 != Dropped
    ensures var x := SendsOut(w, arg, size).(b := Misreads(SendsOut(w, arg, size).b, p));
      TakenOnce(x) && (TakenOnce(Flip(x)) <==> !ClearsFalsely(w, arg))
  {
    hide Inv, Transmits, Wiped, Misreads, Resends, Processed;
    WipedWhere(w, arg, size);
    NotReady(w);
    PendingStays(w.a, arg, size);
    ReadingTaken(w.b, arg, p);
  }

  // ----- what follows

  /** The bytes reach b, which takes p for a packet; they stay on the network. */
  ghost function Arrives(w: World, arg: seq<Byte>, p: Packet): World {
    w.(b := Misreads(w.b, p), wab := w.wab + [arg])
  }

  /** Whatever b reads from the bytes and whatever happens then, the promises hold. */
  ghost predicate Survives(w: World, arg: seq<Byte>) {
    forall p, es :: Reads(arg, p) ==> Promises(RunFrom(Arrives(w, arg, p), es))
  }

  /** The packet without a payload that the header of the bytes is. */
  function Heard(b: seq<Byte>, seen: nat): Datagram
    requires |b| >= 8
  {
    Datagram(Number(b), None, Word32(b, 4) % SEQUENCES, Echo(b), seen)
  }

  /** The acknowledgement in the bytes misleads b as a sender. */
  ghost predicate Misled(w: World, arg: seq<Byte>)
    requires |arg| >= 8
  {
    Misleads(Out(w.b), In(w.a), Grams(w.ba), Grams(w.ab), Heard(arg, w.b.seen), Live(w.b), Queued(w.b.chan.queue))
  }

  /** A plain reading is neither marked nor flagged. */
  lemma PlainReading(w: World, arg: seq<Byte>, p: Packet)
    requires Inv(w) && Reads(arg, p) && !Marked(arg) && !Flagged(arg) && p.seqno > w.b.chan.inSeq
    ensures var (f, d) := (Misreads(w.b, p), Heard(arg, w.b.seen));
      && Sound(f) && Out(f) == Hear(Out(w.b), d) && In(f) == Take(In(w.b), d)
      && f.chan.queue == w.b.chan.queue && f.chan.outSeq == w.b.chan.outSeq && f.chan.inSeq == p.seqno
      && f.sent == w.b.sent
  {
    hide Sound, Receives;
    var x := Wire(p, w.b.seen);
    assert WireOk(x) && Gram(x) == Heard(arg, w.b.seen);
    ReceiveKeeps(w.b, x);
    ReceiveLive(w.b, x);
  }

  /** One that does not mislead leaves the weaker invariant. */
  lemma PlainBound(w: World, arg: seq<Byte>, p: Packet)
    requires Inv(w) && Reads(arg, p) && !Marked(arg) && !Flagged(arg) && p.seqno > w.b.chan.inSeq && !Misled(w, arg)
    ensures Bound(Arrives(w, arg, p))
  {
    hide Sound, Misreads, Tied, Link, WireOk, Misleads, Reads;
    ReadingIs(arg, p);
    PlainReading(w, arg, p);
    var d := Heard(arg, w.b.seen);
    FollowsTies(w.a, w.b, w.ab, w.ba);
    JumpTied(Out(w.a), In(w.b), Grams(w.ab), Grams(w.ba), Live(w.a), d);
    MisledTied(Out(w.b), In(w.a), Grams(w.ba), Grams(w.ab), d, Live(w.b), Queued(w.b.chan.queue));
  }

  /** One that misleads can be continued to a broken promise. */
  lemma PlainBreaks(w: World, arg: seq<Byte>, p: Packet)
    requires Inv(w) && Reads(arg, p) && !Marked(arg) && !Flagged(arg) && p.seqno > w.b.chan.inSeq && Misled(w, arg)
    ensures Breakable(Arrives(w, arg, p))
  {
    hide Sound, Misreads, WireOk, Breakable, Reads, Harmless, SendsNothing, RepeatsNext, ClearsNext, RepeatsPending;
    ReadingIs(arg, p);
    PlainReading(w, arg, p);
    var (s, r, d) := (Out(w.b), In(w.a), Heard(arg, w.b.seen));
    var y := Flip(Arrives(w, arg, p));
    var loads := Queued(w.b.chan.queue);
    if ClearsUntaken(s, r, d) {
      ClearedBreaks(y);
    } else if SendsNothing(s, d, loads) {
      NothingCase(w, y, d);
    } else if RepeatsNext(s, d) {
      NextCase(w, y, d);
    } else if ClearsNext(s, Grams(w.ab), d) {
      ClearsCase(w, y, d);
    } else {
      PendingCase(w, y, d);
    }
    FlipBreaks(Arrives(w, arg, p));
  }

  /** y is w with the sides changed, after b heard d that nobody sent. */
  ghost predicate After(w: World, y: World, d: Datagram) {
    && Inv(w) && Ready(y) && Out(y.a) == Hear(Out(w.b), d) && d.seqno > w.b.chan.inSeq && d.ack < SEQUENCES
    && y.a.chan.queue == w.b.chan.queue && y.b == w.a && y.ab == w.ba && y.ba == w.ab
  }

  lemma SentTaken(w: World)
    requires Inv(w)
    ensures |w.a.taken| <= |w.b.sent| <= |w.a.taken| + 1 && w.b.chan.outRel == Odd(|w.b.sent|)
    ensures w.b.chan.reliable == [] ==> |w.a.taken| == |w.b.sent|
  {
  }

  lemma NothingCase(w: World, y: World, d: Datagram)
    requires After(w, y, d) && SendsNothing(Out(w.b), d, Queued(w.b.chan.queue))
    ensures Breakable(y)
  {
    hide Inv, Ready, Breakable;
    SentTaken(w);
    NothingBreaks(y);
  }

  lemma NextCase(w: World, y: World, d: Datagram)
    requires After(w, y, d) && RepeatsNext(Out(w.b), d) && !ClearsUntaken(Out(w.b), In(w.a), d)
    ensures Breakable(y)
  {
    hide Inv, Ready, Breakable, Loads;
    SentTaken(w);
    var v := Queueing(y);
    NextTwiceBreaks(v);
  }

  lemma ClearsCase(w: World, y: World, d: Datagram)
    requires After(w, y, d) && ClearsNext(Out(w.b), Grams(w.ab), d) && !ClearsUntaken(Out(w.b), In(w.a), d)
    ensures Breakable(y)
  {
    hide Ready, Breakable, Loads, Sound, WireOk, Harmless;
    SentTaken(w);
    var k :| 0 <= k < |Grams(w.ab)| && OldAnswer(Out(w.b), d, Grams(w.ab)[k]);
    assert Inbound(Out(w.b), In(w.a), Grams(w.ab)[k]);
    var v := Queueing(y);
    NextClearedBreaks(v, k);
  }

  lemma PendingCase(w: World, y: World, d: Datagram)
    requires After(w, y, d) && RepeatsPending(Out(w.b), In(w.a), Grams(w.ba), d)
    ensures Breakable(y)
  {
    hide Ready, Breakable, Sound, WireOk, Harmless;
    SentTaken(w);
    if |w.a.taken| == |w.b.sent| {
      AgainBreaks(y);
    } else if y.a.chan.inAck > y.a.chan.outSeq {
      TwiceBreaks(y);
    } else {
      var k :| 0 <= k < |Grams(w.ba)| && !Stale(In(w.a), Grams(w.ba)[k]);
      assert Outbound(Out(w.b), In(w.a), Grams(w.ba)[k]);
      CopyBreaks(y, k);
    }
  }

  // ----- readings that break a promise at once

  lemma MarkedBreaks(w: World, arg: seq<Byte>, p: Packet)
    requires Inv(w) && Reads(arg, p) && p.rel && p.frag.None? && p.seqno > w.b.chan.inSeq
    requires |w.b.taken| < |w.a.sent| ==> p.reliable != w.a.sent[|w.b.taken|].data
    ensures !Promises(Arrives(w, arg, p))
  {
    hide Inv, Reads, Misreads, Sound;
    NotReady(w);
    ReadingTaken(w.b, arg, p);
    var taken := Misreads(w.b, p).taken;
    assert taken[|w.b.taken|] == Payload(None, p.reliable);
  }

  /** What the inbox of b holds is the beginning of a message, and with what was delivered a prefix of
      what was queued. */
  lemma InboxPartial(w: World)
    requires Inv(w)
    ensures Partial(w.b.chan.inbox.frags) && w.b.delivered + Joined(w.b.chan.inbox.frags) <= w.a.queued
    ensures !w.b.chan.inbox.ready
  {
    hide Sized, QueueOk, Flowed, HeadOk;
    NotReady(w);
    PrefixDelivered(w.a, w.b);
    assert w.a.sent[..|w.b.taken|] == w.b.taken && Faithful(w.b.taken);
  }

  /** A fragment that ends the message begun. */
  function Ending(frags: seq<Frag>, z: Byte): Frag {
    Frag(Word(|frags| + 1, |frags| + 1), [z])
  }

  /** It completes the message with a byte of its own. */
  lemma EndingCompletes(frags: seq<Frag>, z: Byte)
    requires Partial(frags)
    ensures var f := Ending(frags, z);
      && f.id != 0 && Validate(f.id, 1)
      && Opened(Arrived(Inbox(frags, false), f)) == (Inbox([], false), Some(Joined(frags) + [z]))
  {
    var f := Ending(frags, z);
    var n :| |frags| < n <= MAX_FRAGMENTS && Begun(frags, n);
    WordParts(|frags| + 1, |frags| + 1);
    forall i | 0 <= i < |frags| ensures High(frags[i].id) < High(f.id) {
      BegunHigh(frags, n, i);
    }
    HighestLast(frags, f);
    JoinedAppend(frags, f);
    assert Short(f) && AllShort(frags + [f]);
    GatherIff(NetMessage(), frags + [f]);
    assert NetMessage().data + Joined(frags + [f]) == Joined(frags) + [z];
  }

  /** A reading of bytes with the fragment flag that are not marked. */
  function FragmentReading(b: seq<Byte>, f: Frag): (p: Packet)
    requires |b| >= 40 && !Secured(b) && Flagged(b) && !Marked(b) && |f.data| == 1
    ensures Reads(b, p) && !p.rel && p.seqno == Number(b) && p.frag == Some(f.id) && p.reliable == f.data
  {
    Packet(Number(b), false, Word32(b, 4) % SEQUENCES, Echo(b), Some(f.id), f.data, [])
  }

  lemma FragmentDelivers(e: End, b: seq<Byte>, f: Frag)
    requires |b| >= 40 && !Secured(b) && Flagged(b) && !Marked(b) && |f.data| == 1 && f.id != 0 && Validate(f.id, 1)
    requires Number(b) > e.chan.inSeq
    ensures var (box, m) := Opened(Arrived(e.chan.inbox, f));
      m.Some? ==> Misreads(e, FragmentReading(b, f)).delivered == e.delivered + m.value
  {
    hide Arrived, Validate, Gathered, Clears;
  }

  /** The byte after what b has, or any. */
  lemma FragmentBreaks(w: World, arg: seq<Byte>) returns (p: Packet)
    requires Inv(w) && |arg| >= 40 && !Secured(arg) && Flagged(arg) && !Marked(arg) && Number(arg) > w.b.chan.inSeq
    ensures Reads(arg, p) && !Promises(Arrives(w, arg, p))
  {
    hide Inv, Partial, Arrived, Opened, Misreads, Word, Validate, TakenOnce, Reads, FragmentReading;
    InboxPartial(w);
    var (frags, had) := (w.b.chan.inbox.frags, w.b.delivered + Joined(w.b.chan.inbox.frags));
    var z: Byte := if |had| < |w.a.queued| && w.a.queued[|had|] == 0 then 1 else 0;
    var f := Ending(frags, z);
    EndingCompletes(frags, z);
    FragmentDelivers(w.b, arg, f);
    p := FragmentReading(arg, f);
    assert Misreads(w.b, p).delivered == w.b.delivered + (Joined(frags) + [z]);
    assert (w.b.delivered + (Joined(frags) + [z]))[|had|] == z;
  }

  // ----- the exact condition

  /** Bytes that reach b survive, whatever b reads and whatever happens then, exactly if b drops
      them, or they are neither marked nor flagged and do not mislead b as a sender. */
  lemma SurvivesIff(w: World, arg: seq<Byte>)
    requires Inv(w) && |arg| >= 40
    ensures Survives(w, arg)
      <==> Harmless(arg, w.b.chan.inSeq) || (!Marked(arg) && !Flagged(arg) && !Misled(w, arg))
  {
    hide Inv, Bound, Promises, Misreads, Reads, Misled, Arrives, Breakable;
    if Harmless(arg, w.b.chan.inSeq) || (!Marked(arg) && !Flagged(arg) && !Misled(w, arg)) {
      forall p, es | Reads(arg, p) ensures Promises(RunFrom(Arrives(w, arg, p), es)) {
        ReadingIs(arg, p);
        if Number(arg) <= w.b.chan.inSeq { DroppedBound(w, arg, p); } else { PlainBound(w, arg, p); }
        BoundSurvives(Arrives(w, arg, p), es);
      }
    } else {
      var p := BreakingReading(w, arg);
      NotSurvived(w, arg, p);
    }
  }

  lemma DroppedBound(w: World, arg: seq<Byte>, p: Packet)
    requires Inv(w) && Reads(arg, p) && p.seqno <= w.b.chan.inSeq
    ensures Bound(Arrives(w, arg, p))
  {
    hide TiedTo, Sound, WireOk, Follows, Misreads;
    InvBound(w);
    ReadingDropped(w, p);
  }

  lemma BreakingReading(w: World, arg: seq<Byte>) returns (p: Packet)
    requires Inv(w) && |arg| >= 40 && !Harmless(arg, w.b.chan.inSeq)
    requires Marked(arg) || Flagged(arg) || Misled(w, arg)
    ensures Reads(arg, p) && Breakable(Arrives(w, arg, p))
  {
    hide Inv, Promises, Misreads, Reads, Misled, Arrives;
    var other := if |w.b.taken| < |w.a.sent| then w.a.sent[|w.b.taken|].data else [];
    p := Reading(arg, other);
    if Marked(arg) {
      MarkedBreaks(w, arg, p);
      BreaksNow(Arrives(w, arg, p));
    } else if Flagged(arg) {
      p := FragmentBreaks(w, arg);
      BreaksNow(Arrives(w, arg, p));
    } else {
      PlainBreaks(w, arg, p);
    }
  }

  lemma NotSurvived(w: World, arg: seq<Byte>, p: Packet)
    requires Reads(arg, p) && Breakable(Arrives(w, arg, p))
    ensures !Survives(w, arg)
  {
    hide Reads, Promises, RunFrom, Arrives;
    var es :| !Promises(RunFrom(Arrives(w, arg, p), es));
  }

  // ----- the same for a transmission

  /** a has transmitted and wiped its packet; the bytes are on the way. */
  function InFlight(w: World, arg: seq<Byte>, size: nat): World
    requires size > 0
  {
    SendsOut(w, arg, size).(wab := w.wab)
  }

  lemma InFlightKeeps(w: World, arg: seq<Byte>, size: nat)
    requires Inv(w) && 0 < size < FRAGMENT_LIMIT && |arg| < 0x8000_0000 && Wiped(w.a, arg, size).Some?
    ensures Inv(InFlight(w, arg, size)) && InFlight(w, arg, size).wab == w.wab && |arg| >= 40
  {
    hide Inv;
    WipedWhere(w, arg, size);
    TransmitInv(w, arg, size);
  }

  lemma {:induction false} RunsFromKeep(w: World, es: seq<Event>)
    requires Inv(w)
    ensures Inv(RunFrom(w, es))
    decreases |es|
  {
    hide Inv;
    if es != [] {
      HappenKeeps(w, es[0]);
      RunsFromKeep(Happen(w, es[0]), es[1..]);
    }
  }

  lemma HappenKeeps(w: World, e: Event)
    requires Inv(w)
    ensures Inv(Happen(w, e))
  {
    hide Follows, Sound, AllWireOk, AllHarmless, Step;
    if e.atA && Enabled(w, e.act) { StepKeeps(w, e.act); }
    if !e.atA && Enabled(Flip(w), e.act) { StepKeeps(Flip(w), e.act); }
  }

  /** The bytes of a transmission that wiped its packet, on their arrival at any later moment. */
  lemma WipedIff(w: World, arg: seq<Byte>, size: nat, es: seq<Event>)
    requires Inv(w) && 0 < size < FRAGMENT_LIMIT && |arg| < 0x8000_0000 && Wiped(w.a, arg, size).Some?
    ensures |arg| >= 40
    ensures var v := RunFrom(InFlight(w, arg, size), es);
      Survives(v, arg) <==> Harmless(arg, v.b.chan.inSeq) || (!Marked(arg) && !Flagged(arg) && !Misled(v, arg))
  {
    hide Inv, Survives, Misled, InFlight, RunFrom;
    InFlightKeeps(w, arg, size);
    RunsFromKeep(InFlight(w, arg, size), es);
    SurvivesIff(RunFrom(InFlight(w, arg, size), es), arg);
  }
}
