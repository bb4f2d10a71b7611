/** Which promises of the channel outlive a moment at which one endpoint has taken other bytes for a
    packet.  A weaker invariant than that of Channel is kept by every step and still gives the
    promises; what breaks it can be continued to a broken promise. */
module Survival {
  import opened Basics
  import opened Netchan
  import opened Fragments
  import opened Order
  import opened Stream
  import opened Drift
  import opened Delivery
  import opened Channel

  /** Both directions: exactly once and in order, and nothing delivered that was not queued. */
  ghost predicate Promises(w: World) {
    TakenOnce(w) && TakenOnce(Flip(w)) && w.b.delivered <= w.a.queued && w.a.delivered <= w.b.queued
  }

  /** The world after more events. */
  ghost function RunFrom(w: World, es: seq<Event>): World
    decreases |es|
  {
    if es == [] then w else RunFrom(Happen(w, es[0]), es[1..])
  }

  // ----- the weaker invariant

  predicate Live(e: End) {
    !e.chan.queue.message.overflowed && e.chan.outSeq < SEQUENCES
  }

  /** Something is queued. */
  predicate Queued(q: Queue) {
    Advanced(q).sending != [] || q.message.data != []
  }

  /** The sending half of a is tied to the receiving half of b, and where it believes something lost
      that is not pending there is something to load instead. */
  ghost predicate TiedTo(a: End, b: End, ab: seq<Wire>, ba: seq<Wire>) {
    && Tied(Out(a), In(b), Grams(ab), Grams(ba), Live(a))
    && (Live(a) && Lost(Out(a)) ==> Out(a).pending.Some? || Loads(a.chan))
  }

  ghost predicate Bound(w: World) {
    && TiedTo(w.a, w.b, w.ab, w.ba) && TiedTo(w.b, w.a, w.ba, w.ab)
    && Sound(w.a) && Sound(w.b) && AllWireOk(w.ab) && AllWireOk(w.ba)
    && AllHarmless(w.wab, w.b.chan.inSeq) && AllHarmless(w.wba, w.a.chan.inSeq)
  }

  lemma FollowsTies(a: End, b: End, ab: seq<Wire>, ba: seq<Wire>)
    requires Follows(a, b, ab, ba)
    ensures TiedTo(a, b, ab, ba)
  {
    hide Link, Tied, Grams;
    LinkTies(Out(a), In(b), Grams(ab), Grams(ba), Live(a));
  }

  lemma InvBound(w: World)
    requires Inv(w)
    ensures Bound(w)
  {
    hide Follows, TiedTo, Sound, WireOk, Harmless;
    FollowsTies(w.a, w.b, w.ab, w.ba);
    FollowsTies(w.b, w.a, w.ba, w.ab);
  }

  /** It gives the promises. */
  lemma BoundPromises(w: World)
    requires Bound(w)
    ensures Promises(w)
  {
    hide Sound, AllOutbound, AllAnswers, Sane, Growing, WireOk, Harmless;
    PrefixDelivered(w.a, w.b);
    PrefixDelivered(w.b, w.a);
  }

  // ----- it is kept

  lemma LoadsStay(q: Queue, bytes: seq<Byte>)
    requires |q.message.data| <= q.message.max && Appended(q.message, bytes).Some?
    requires (Advanced(q).sending != [] || q.message.data != [])
    ensures Queued(q.(message := Appended(q.message, bytes).value))
  {
  }

  lemma LoadsCut(q: Queue, msg: seq<Byte>, size: nat)
    requires size > 0 && Held(q) && Fragmented(q, msg, size).Some?
    requires Advanced(q).sending != [] || q.message.data != []
    ensures Advanced(Fragmented(q, msg, size).value).sending != []
  {
    var (g, f) := (Added(q, q.message.data, size).value, Flushed(q, size).value);
    CutAdvances(q, q.message.data, size);
    AdvancesIff(q);
    assert Advanced(f).sending == Advanced(g).sending;
    CutAdvances(f, msg, size);
  }

  lemma CutAdvances(q: Queue, msg: seq<Byte>, size: nat)
    requires size > 0 && Added(q, msg, size).Some?
    ensures Advanced(q).sending != [] ==> Advanced(Added(q, msg, size).value).sending != []
    ensures q.waiting == [] && msg != [] ==> Advanced(Added(q, msg, size).value).sending != []
  {
  }

  /** A step of a that leaves both halves alone. */
  lemma QuietTied(w: World, f: End)
    requires TiedTo(w.a, w.b, w.ab, w.ba) && TiedTo(w.b, w.a, w.ba, w.ab)
    requires Out(f) == Out(w.a) && In(f) == In(w.a) && (Live(f) ==> Live(w.a))
    requires Live(f) && Loads(w.a.chan) ==> Loads(f.chan)
    ensures TiedTo(f, w.b, w.ab, w.ba) && TiedTo(w.b, f, w.ba, w.ab)
  {
    hide Tied, Grams, Loads, Lost;
    TiedDies(Out(w.a), In(w.b), Grams(w.ab), Grams(w.ba), Live(w.a), Live(f));
  }

  lemma WriteBound(w: World, bytes: seq<Byte>)
    requires Bound(w) && Enabled(w, Write(bytes))
    ensures Bound(Step(w, Write(bytes)))
  {
    hide TiedTo, Sound, WireOk, Harmless, Out, In, Pending;
    var q := w.a.chan.queue;
    WriteKeeps(w.a, bytes);
    HeldOrOver(w.a);
    if Loads(w.a.chan) { LoadsStay(q, bytes); }
    OutStill(w.a, Writes(w.a, bytes));
    QuietTied(w, Writes(w.a, bytes));
  }

  /** The queue of a sound endpoint is in order unless it overflowed. */
  lemma HeldOrOver(e: End)
    requires Sound(e)
    ensures |e.chan.queue.message.data| <= e.chan.queue.message.max
    ensures !e.chan.queue.message.overflowed ==> Held(e.chan.queue)
    ensures !e.chan.inbox.ready
  {
    if !e.chan.queue.message.overflowed { QueueHeld(Flowed(e.sent).box, e.chan.queue); }
  }

  lemma OutStill(e: End, f: End)
    requires Out(f) == Out(e) && In(f) == In(e)
    ensures f.chan.reliable == [] <==> e.chan.reliable == []
    ensures f.chan.outSeq == e.chan.outSeq && f.chan.inSeq == e.chan.inSeq
  {
  }

  lemma CutBound(w: World, msg: seq<Byte>, size: nat)
    requires Bound(w) && Enabled(w, Cut(msg, size))
    ensures Bound(Step(w, Cut(msg, size)))
  {
    hide TiedTo, Sound, WireOk, Harmless, Out, In, Pending, Fragmented;
    var q := w.a.chan.queue;
    CutKeeps(w.a, msg, size);
    MessageFlushed(q, msg, size);
    HeldOrOver(w.a);
    if Loads(w.a.chan) && !q.message.overflowed { LoadsCut(q, msg, size); }
    OutStill(w.a, Cuts(w.a, msg, size));
    QuietTied(w, Cuts(w.a, msg, size));
  }

  lemma TransmitBound(w: World, arg: seq<Byte>, size: nat)
    requires Bound(w) && Enabled(w, Transmit(arg, size))
    ensures Bound(Step(w, Transmit(arg, size)))
  {
    hide Sound, Transmits, Wiped, Tied, WireOk, Harmless, Transmission, Loads;
    var a := w.a;
    Channel.WipedIs(a, arg, size);
    if a.chan.queue.message.overflowed {
      TransmitRefused(a, arg, size);
    } else {
      var load := TransmitKeeps(a, arg, size);
      var (f, x) := Transmits(a, arg, size);
      TransmitLive(a, arg, size);
      TransmitTied(w, f, x, load);
    }
  }

  lemma TransmitTied(w: World, f: End, x: Option<Wire>, load: Option<Payload>)
    requires Transmission(w.a, f, x, load) && Live(w.a) && (load.Some? <==> Loads(w.a.chan))
    requires TiedTo(w.a, w.b, w.ab, w.ba) && TiedTo(w.b, w.a, w.ba, w.ab) && AllWireOk(w.ab)
    ensures f.chan.inSeq == w.a.chan.inSeq && AllWireOk(AppendIf(w.ab, x))
    ensures TiedTo(f, w.b, AppendIf(w.ab, x), w.ba) && TiedTo(w.b, f, w.ba, AppendIf(w.ab, x))
  {
    hide Tied, WireOk, Grams, Loads;
    var (a, b) := (w.a, w.b);
    var d := if x.Some? then Gram(x.value)
             else Datagram(a.chan.outSeq, Carried(Out(a), load), a.chan.inSeq, a.chan.inRel, |a.taken|);
    SendTied(Out(a), In(b), Grams(w.ab), Grams(w.ba), load, d, Live(f));
    AnswerTied(Out(b), In(a), Grams(w.ba), Grams(w.ab), d, Live(b));
    if x.Some? { GramsAppend(w.ab, x.value); }
  }

  lemma TransmitLive(e: End, arg: seq<Byte>, size: nat)
    requires size > 0
    ensures Transmits(e, arg, size).0.chan.queue.message.overflowed == e.chan.queue.message.overflowed
  {
    TransmitOverflow(e.chan, arg, size);
  }

  lemma ReceiveBound(w: World, k: nat)
    requires Bound(w) && k < |w.ba|
    ensures Bound(Step(w, Receive(k)))
  {
    hide Sound, Receives, Tied, WireOk, Harmless, Loads;
    assert Grams(w.ba)[k] == Gram(w.ba[k]) && WireOk(w.ba[k]);
    ReceiveKeeps(w.a, w.ba[k]);
    if w.ba[k].p.seqno > w.a.chan.inSeq {
      StillHarmless(w.wba, w.a.chan.inSeq, w.ba[k].p.seqno);
      ReceiveLive(w.a, w.ba[k]);
      HearTied(Out(w.a), In(w.b), Grams(w.ab), Grams(w.ba), k, Live(w.a));
      TakeTied(Out(w.b), In(w.a), Grams(w.ba), Grams(w.ab), k, Live(w.b));
    }
  }

  lemma ReceiveLive(e: End, w: Wire)
    ensures Receives(e, w).chan.queue == e.chan.queue && Receives(e, w).chan.outSeq == e.chan.outSeq
  {
  }

  lemma StepBound(w: World, act: Action)
    requires Bound(w) && Enabled(w, act)
    ensures Bound(Step(w, act))
  {
    hide Bound;
    match act
    case Write(bytes) => WriteBound(w, bytes);
    case Cut(msg, size) => CutBound(w, msg, size);
    case Transmit(arg, size) => TransmitBound(w, arg, size);
    case Receive(k) => ReceiveBound(w, k);
    case Misread(k, p) => MisreadBound(w, k, p);
  }

  lemma MisreadBound(w: World, k: nat, p: Packet)
    requires Bound(w) && Enabled(w, Misread(k, p))
    ensures Bound(Step(w, Misread(k, p)))
  {
    hide TiedTo, Sound, WireOk, Harmless;
    HeldOrOver(w.a);
    MisreadStep(w, k, p);
  }

  /** So the promises hold in all that follows. */
  lemma {:induction false} BoundSurvives(w: World, es: seq<Event>)
    requires Bound(w)
    ensures Promises(RunFrom(w, es))
    decreases |es|
  {
    hide Bound, Promises;
    if es == [] {
      BoundPromises(w);
    } else {
      BoundHappens(w, es[0]);
      BoundSurvives(Happen(w, es[0]), es[1..]);
    }
  }

  lemma BoundHappens(w: World, e: Event)
    requires Bound(w)
    ensures Bound(Happen(w, e))
  {
    hide TiedTo, Sound, AllWireOk, AllHarmless, Step;
    if e.atA && Enabled(w, e.act) { StepBound(w, e.act); }
    if !e.atA && Enabled(Flip(w), e.act) { StepBound(Flip(w), e.act); }
  }

  // ----- what can be continued to a broken promise

  ghost predicate Breakable(w: World) {
    exists es :: !Promises(RunFrom(w, es))
  }

  lemma BreaksNow(w: World)
    requires !Promises(w)
    ensures Breakable(w)
  {
    assert RunFrom(w, []) == w;
  }

  lemma BreaksAfter(w: World, e: Event)
    requires Breakable(Happen(w, e))
    ensures Breakable(w)
  {
    hide Promises, Happen;
    var es :| !Promises(RunFrom(Happen(w, e), es));
    assert ([e] + es)[1..] == es;
    assert RunFrom(w, [e] + es) == RunFrom(Happen(w, e), es);
  }

  lemma FlipHappens(w: World, e: Event)
    ensures Happen(Flip(w), Event(!e.atA, e.act)) == Flip(Happen(w, e))
  {
    hide Step, Enabled;
  }

  lemma {:induction false} FlipRuns(w: World, es: seq<Event>) returns (fs: seq<Event>)
    ensures RunFrom(Flip(w), fs) == Flip(RunFrom(w, es))
    decreases |es|
  {
    hide Happen;
    if es == [] {
      fs := [];
    } else {
      FlipHappens(w, es[0]);
      var rest := FlipRuns(Happen(w, es[0]), es[1..]);
      fs := [Event(!es[0].atA, es[0].act)] + rest;
      assert fs[1..] == rest;
    }
  }

  lemma FlipBreaks(w: World)
    requires Breakable(Flip(w))
    ensures Breakable(w)
  {
    hide RunFrom, TakenOnce;
    var es :| !Promises(RunFrom(Flip(w), es));
    var fs := FlipRuns(Flip(w), es);
    assert Flip(Flip(w)) == w;
    assert !Promises(RunFrom(w, fs));
  }

  /** A sound endpoint that can still send and a sound one on the other side, to which its next
      packet is new. */
  ghost predicate Ready(w: World) {
    && Sound(w.a) && Sound(w.b) && AllWireOk(w.ab) && AllWireOk(w.ba)
    && Live(w.a) && w.b.chan.inSeq < w.a.chan.outSeq
  }

  const SIZE := 100

  lemma EmptyPacked(c: Chan, rel: bool, resend: bool)
    requires HeadOk(c.head, c.reliable)
    ensures Packed(c, rel, resend, []).Sent?
  {
  }

  /** A transmission without an unreliable part sends a packet. */
  lemma EmptySent(e: End)
    requires Sound(e) && Live(e)
    ensures Transmitted(e.chan, [], SIZE).1.Sent?
  {
    hide Prepared, Loaded, QueueOk, Pending, Flowed, Advanced, Packed, AlwaysFaithful, Sum, Sized;
    var c := e.chan;
    if c.reliable != [] {
      EmptyPacked(c, Resends(c), Resends(c));
    } else if Loads(c) {
      LoadKeeps(e, SIZE);
      EmptyPacked(Loaded(c.(queue := Prepared(c.queue, SIZE).value)), true, Resends(c));
    } else {
      IdleKeeps(e, SIZE);
      EmptyPacked(Loaded(c.(queue := Advanced(c.queue))), Resends(c), Resends(c));
    }
  }

  /** a transmits and nothing is wiped. */
  function Sends(w: World): World {
    SendsOut(w, [], SIZE)
  }

  lemma SendsHappens(w: World)
    requires Ready(w)
    ensures Happen(w, Event(true, Transmit([], SIZE))) == Sends(w)
    ensures Breakable(Sends(w)) ==> Breakable(w)
  {
    hide Sound, Transmits, RunFrom, Promises, AllWireOk;
    EmptySent(w.a);
    if Breakable(Sends(w)) { BreaksAfter(w, Event(true, Transmit([], SIZE))); }
  }

  /** What the transmission does, in the abstract. */
  lemma SendsIs(w: World) returns (load: Option<Payload>, x: Wire)
    requires Ready(w) && (Lost(Out(w.a)) ==> Out(w.a).pending.Some? || Loads(w.a.chan))
    ensures var v := Sends(w);
      && v.ab == w.ab + [x] && v.b == w.b && v.ba == w.ba
      && Out(v.a) == Send(Out(w.a), load) && Sound(v.a) && AllWireOk(v.ab)
      && Gram(x).seqno == w.a.chan.outSeq && Gram(x).payload == Carried(Out(w.a), load)
      && v.a.chan.queue.message.overflowed == w.a.chan.queue.message.overflowed
    ensures (load.Some? <==> Loads(w.a.chan)) && (load.Some? ==> Out(w.a).pending.None?)
  {
    hide Sound, Transmits, WireOk, Wiped, Loads;
    EmptySent(w.a);
    load := TransmitKeeps(w.a, [], SIZE);
    SentIs(w.a);
    x := Transmits(w.a, [], SIZE).1.value;
    TransmitLive(w.a, [], SIZE);
  }

  lemma SentIs(e: End)
    requires Transmitted(e.chan, [], SIZE).1.Sent?
    ensures Transmits(e, [], SIZE).1.Some? && Wiped(e, [], SIZE).None?
  {
  }

  /** b takes packet k. */
  ghost function Takes(w: World, k: nat): World
    requires k < |w.ab|
  {
    w.(b := Receives(w.b, w.ab[k]))
  }

  lemma TakesIs(w: World, k: nat)
    requires Sound(w.b) && AllWireOk(w.ab) && k < |w.ab| && w.ab[k].p.seqno > w.b.chan.inSeq
    ensures var v := Takes(w, k);
      In(v.b) == Take(In(w.b), Gram(w.ab[k])) && Sound(v.b) && v.b.chan.inSeq == w.ab[k].p.seqno
    ensures Breakable(Takes(w, k)) ==> Breakable(w)
  {
    hide Sound, Receives, WireOk, RunFrom, Promises;
    assert WireOk(w.ab[k]);
    ReceiveKeeps(w.b, w.ab[k]);
    if Breakable(Takes(w, k)) {
      assert Happen(w, Event(false, Receive(k))) == Takes(w, k);
      BreaksAfter(w, Event(false, Receive(k)));
    }
  }

  lemma TooMuchTaken(w: World)
    requires |w.b.taken| > |w.a.sent|
    ensures Breakable(w)
  {
    hide RunFrom;
    BreaksNow(w);
  }

  /** A part that b has will be sent again. */
  lemma AgainBreaks(w: World)
    requires Ready(w) && Lost(Out(w.a)) && Out(w.a).pending.Some? && |w.b.taken| >= |w.a.sent|
    ensures Breakable(w)
  {
    hide Sound, Breakable, WireOk, Receives, Loads;
    var load, x := SendsIs(w);
    var v := Sends(w);
    SendsHappens(w);
    TakesIs(v, |w.ab|);
    TooMuchTaken(Takes(v, |w.ab|));
  }

  /** A part of which a copy is new to b will be sent again. */
  lemma CopyBreaks(w: World, k: nat)
    requires Ready(w) && Lost(Out(w.a)) && Out(w.a).pending.Some? && |w.b.taken| + 1 >= |w.a.sent|
    requires k < |w.ab| && w.ab[k].p.rel && w.b.chan.inSeq < w.ab[k].p.seqno < w.a.chan.outSeq
    ensures Breakable(w)
  {
    hide Sound, Breakable, WireOk, Receives, Loads;
    TakesIs(w, k);
    AgainBreaks(Takes(w, k));
  }

  /** A part will be sent again, and then once more. */
  lemma TwiceBreaks(w: World)
    requires Ready(w) && Lost(Out(w.a)) && Out(w.a).pending.Some? && |w.b.taken| + 1 >= |w.a.sent|
    requires w.a.chan.outSeq < w.a.chan.inAck < SEQUENCES
    ensures Breakable(w)
  {
    hide Sound, Breakable, WireOk, Loads;
    var load, x := SendsIs(w);
    SendsHappens(w);
    CopyBreaks(Sends(w), |w.ab|);
  }

  /** The next part will be sent twice. */
  lemma NextTwiceBreaks(w: World)
    requires Ready(w) && Loads(w.a.chan) && |w.b.taken| >= |w.a.sent|
    requires w.a.chan.inRelAck == w.a.chan.outRel && w.a.chan.outSeq < w.a.chan.inAck < SEQUENCES
    ensures Breakable(w)
  {
    hide Sound, Breakable, WireOk, Loads;
    var load, x := SendsIs(w);
    SendsHappens(w);
    CopyBreaks(Sends(w), |w.ab|);
  }

  /** The next part will be cleared by an answer that is older than the last. */
  lemma NextClearedBreaks(w: World, k: nat)
    requires Ready(w) && Loads(w.a.chan) && |w.b.taken| == |w.a.sent| && w.a.chan.outRel == Odd(|w.a.sent|)
    requires w.a.chan.inAck + 1 >= w.a.chan.outSeq && !Lost(Out(w.a))
    requires k < |w.ba| && w.ba[k].p.seqno > w.a.chan.inSeq
    requires w.ba[k].taken + 1 == |w.a.sent| && w.ba[k].p.ackRel == Odd(w.ba[k].taken)
    ensures Breakable(w)
  {
    hide Sound, Breakable, WireOk, Receives, Loads;
    var load, x := SendsIs(w);
    SendsHappens(w);
    var v := Sends(w);
    HearsIs(v, k);
    ClearedBreaks(Hears(v, k));
  }

  /** a hears packet k. */
  ghost function Hears(w: World, k: nat): World
    requires k < |w.ba|
  {
    w.(a := Receives(w.a, w.ba[k]))
  }

  lemma HearsIs(w: World, k: nat)
    requires Sound(w.a) && AllWireOk(w.ba) && k < |w.ba| && w.ba[k].p.seqno > w.a.chan.inSeq
    ensures Out(Hears(w, k).a) == Hear(Out(w.a), Gram(w.ba[k]))
    ensures Breakable(Hears(w, k)) ==> Breakable(w)
  {
    hide Sound, Receives, WireOk, RunFrom, Promises;
    assert WireOk(w.ba[k]);
    ReceiveKeeps(w.a, w.ba[k]);
    if Breakable(Hears(w, k)) {
      assert Happen(w, Event(true, Receive(k))) == Hears(w, k);
      BreaksAfter(w, Event(true, Receive(k)));
    }
  }

  lemma ClearedBreaks(w: World)
    requires Out(w.a).pending.None? && |w.b.taken| != |w.a.sent|
    ensures Breakable(w)
  {
    hide RunFrom;
    BreaksNow(w);
  }

  /** An empty part will be sent, which nobody queued. */
  lemma NothingBreaks(w: World)
    requires Ready(w) && Lost(Out(w.a)) && Out(w.a).pending.None? && !Loads(w.a.chan) && |w.b.taken| >= |w.a.sent|
    ensures Breakable(w)
  {
    hide Sound, Breakable, WireOk, Receives, AllWireOk;
    SendsHappens(w);
    NothingSent(w);
    TakesIs(Sends(w), |w.ab|);
    TooMuchTaken(Takes(Sends(w), |w.ab|));
  }

  lemma NothingSent(w: World)
    requires Ready(w) && Lost(Out(w.a)) && Out(w.a).pending.None? && !Loads(w.a.chan)
    ensures var v := Sends(w);
      && |v.ab| == |w.ab| + 1 && v.ab[..|w.ab|] == w.ab && AllWireOk(v.ab) && v.b == w.b && v.a.sent == w.a.sent
      && v.ab[|w.ab|].p.rel && v.ab[|w.ab|].p.seqno == w.a.chan.outSeq
  {
    hide Sound, Transmitted, WireOk;
    NothingPacked(w.a);
    assert WireOk(Sends(w).ab[|w.ab|]);
  }

  lemma NothingPacked(e: End)
    requires Sound(e) && Live(e) && Lost(Out(e)) && Out(e).pending.None? && !Loads(e.chan)
    ensures var (f, x) := Transmits(e, [], SIZE);
      && f.sent == e.sent && x.Some? && x.value.p.rel && x.value.p.seqno == e.chan.outSeq && WireOk(x.value)
  {
    hide Prepared, Pending, QueueOk, Flowed, AlwaysFaithful, Sum, Sized, Advanced;
    IdleKeeps(e, SIZE);
  }

  /** Where nothing is queued, something can be. */
  lemma Queueing(w: World) returns (v: World)
    requires Ready(w) && w.a.chan.reliable == []
    ensures Ready(v) && Loads(v.a.chan) && Out(v.a) == Out(w.a) && v.b == w.b && v.ab == w.ab && v.ba == w.ba
    ensures Breakable(v) ==> Breakable(w)
  {
    if Loads(w.a.chan) { return w; }
    hide Sound, WireOk, RunFrom, Promises, AllWireOk;
    var bytes: seq<Byte> := [0];
    var q := w.a.chan.queue;
    HeldOrOver(w.a);
    MessageBound(w.a);
    WriteKeeps(w.a, bytes);
    v := w.(a := Writes(w.a, bytes));
    assert Happen(w, Event(true, Write(bytes))) == v;
    if Breakable(v) { BreaksAfter(w, Event(true, Write(bytes))); }
  }

  lemma MessageBound(e: End)
    requires Sound(e)
    ensures e.chan.queue.message.max == MAX_MESSAGE
  {
  }
}
