/** The reliable stream makes progress: where the network loses nothing, two exchanges settle
    whatever is pending, and enough of them deliver everything that was queued. */
module Recovery {
  import opened Basics
  import opened Netchan
  import opened Fragments
  import opened Order
  import opened Stream
  import opened Delivery
  import opened Channel

  // ----- one exchange on the abstract stream

  /** The answer of a receiver that has taken packet d. */
  ghost predicate Answers(d: Datagram, r: Receiver) {
    d.ack == r.inSeq && d.ackRel == r.inRel && d.taken == |r.taken|
  }

  /** A packet of the sender. */
  ghost predicate Sends(d: Datagram, s: Sender, load: Option<Payload>) {
    d.seqno == s.outSeq && d.payload == Carried(s, load)
  }

  /** After an exchange the sender knows what the receiver has, up to the last packet. */
  ghost predicate Abreast(s: Sender, r: Receiver) {
    s.inAck + 1 == s.outSeq && s.seen == |r.taken| && (s.seen < |s.sent| ==> s.inAck > s.lastRel)
  }

  lemma OneExchange(s: Sender, r: Receiver, load: Option<Payload>, d: Datagram, x: Datagram)
    requires Paired(s, r) && (load.Some? ==> s.pending.None?)
    requires Sends(d, s, load) && Answers(x, Take(r, d))
    ensures var t := Hear(Send(s, load), x);
      && Abreast(t, Take(r, d)) && t.outSeq == s.outSeq + 1
      && (t.pending.Some? ==> s.pending.Some? || load.Some?)
      && (Abreast(s, r) ==> t.pending.None?)
  {
  }

  // ----- one exchange between the endpoints

  /** The unreliable part and the fragment size of a transmission. */
  datatype Talk = Talk(arg: seq<Byte>, size: nat)

  /** The transmission does not wipe its packet.  An unreliable part without room is only dropped. */
  predicate TalkOk(c: Chan, t: Talk) {
    0 < t.size < FRAGMENT_LIMIT && |t.arg| < 0x8000_0000 && !Overfills(c, t.arg)
  }

  /** An unreliable part that fits beside any reliable one. */
  ghost predicate ShortTalk(t: Talk) {
    0 < t.size < FRAGMENT_LIMIT && |t.arg| + MAX_MESSAGE + 8 <= MAX_PACKET
  }

  /** A short one never wipes a packet. */
  lemma ShortTalkOk(c: Chan, t: Talk)
    requires Sized(c) && ShortTalk(t)
    ensures TalkOk(c, t)
  {
  }

  ghost predicate Talking(w: World) {
    Inv(w) && !w.a.chan.queue.message.overflowed && !w.b.chan.queue.message.overflowed
  }

  /** Both sides can talk for n more packets. */
  ghost predicate Open(w: World, n: nat) {
    Talking(w) && w.a.chan.outSeq + n <= SEQUENCES && w.b.chan.outSeq + n <= SEQUENCES
  }

  /** Endpoint a transmits and b receives that packet at once; then the sides change. */
  ghost function Trip(w: World, t: Talk): World {
    var x := Flip(Happen(w, Event(true, Transmit(t.arg, t.size))));
    if |x.ba| > |w.ab| then Step(x, Receive(|x.ba| - 1)) else x
  }

  /** Then it sends one, whatever the unreliable part. */
  lemma TransmitSends(w: World, t: Talk)
    requires Talking(w) && TalkOk(w.a.chan, t)
    ensures Transmitted(w.a.chan, t.arg, t.size).1.Sent?
    ensures Transmits(w.a, t.arg, t.size).1.Some? && Wiped(w.a, t.arg, t.size).None?
  {
    hide Transmitted, Overfills, Pending, QueueOk, AlwaysFaithful, Flowed, Sum;
    NothingLost(w);
    GarbledIff(w.a.chan, t.arg, t.size);
  }

  /** The bytes of a payload, if there is one. */
  function Data(load: Option<Payload>): seq<Byte> {
    if load.Some? then load.value.data else []
  }

  /** A transmission takes the payload it loads from the front of the queue. */
  lemma TransmitBytes(e: End, t: Talk, load: Option<Payload>)
    requires Sound(e) && t.size > 0 && !e.chan.queue.message.overflowed
    requires load.Some? <==> Loads(e.chan)
    requires var (f, w) := Transmits(e, t.arg, t.size); Transmission(e, f, w, load)
    ensures var f := Transmits(e, t.arg, t.size).0;
      && Pending(e.chan.queue) == Data(load) + Pending(f.chan.queue) && (load.Some? ==> Data(load) != [])
      && !f.chan.queue.message.overflowed
  {
    hide Transmitted, Pending, QueueOk, AlwaysFaithful, Flowed, Sum;
    var c := e.chan;
    QueueHeld(Flowed(e.sent).box, c.queue);
    TransmitTakesFront(c, t.arg, t.size);
    TransmitOverflow(c, t.arg, t.size);
  }

  lemma TripIs(w: World, t: Talk) returns (load: Option<Payload>, d: Datagram)
    requires Talking(w) && w.a.chan.outSeq < SEQUENCES && TalkOk(w.a.chan, t)
    ensures var v := Trip(w, t);
      && Talking(v)
      && Out(v.b) == Send(Out(w.a), load) && In(v.b) == In(w.a).(outSeq := w.a.chan.outSeq + 1)
      && Out(v.a) == Hear(Out(w.b), d) && In(v.a) == Take(In(w.b), d)
      && Sends(d, Out(w.a), load) && Answers(d, In(w.a))
      && v.a.chan.queue == w.b.chan.queue && v.a.queued == w.b.queued && v.b.queued == w.a.queued
      && Pending(w.a.chan.queue) == Data(load) + Pending(v.b.chan.queue)
    ensures (load.Some? <==> Loads(w.a.chan)) && (load.Some? ==> Out(w.a).pending.None? && Data(load) != [])
  {
    hide Sound, Transmits, Link, WireOk, Receives, Wiped, Overfills, Transmitted;
    var act := Transmit(t.arg, t.size);
    TransmitSends(w, t);
    StepKeeps(w, act);
    NothingLost(w);
    load := TransmitKeeps(w.a, t.arg, t.size);
    TransmitBytes(w.a, t, load);
    var x := Flip(Step(w, act));
    var k := |x.ba| - 1;
    d := Gram(x.ba[k]);
    StepKeeps(x, Receive(k));
    ReceiveKeeps(x.a, x.ba[k]);
    SentIsNew(w);
    ReceiveQueue(x.a, x.ba[k]);
    TransmitQueued(w.a, t);
  }

  lemma SentIsNew(w: World)
    requires Follows(w.a, w.b, w.ab, w.ba)
    ensures w.b.chan.inSeq < w.a.chan.outSeq
  {
  }

  lemma ReceiveQueue(e: End, w: Wire)
    ensures Receives(e, w).chan.queue == e.chan.queue && Receives(e, w).queued == e.queued
  {
  }

  lemma TransmitQueued(e: End, t: Talk)
    requires t.size > 0
    ensures Transmits(e, t.arg, t.size).0.queued == e.queued
  {
  }

  /** a transmits, b receives and answers, a receives. */
  ghost function Exchange(w: World, t: Talk, u: Talk): World {
    Trip(Trip(w, t), u)
  }

  /** Neither transmission wipes its packet. */
  ghost predicate ExchangeOk(w: World, t: Talk, u: Talk) {
    TalkOk(w.a.chan, t) && TalkOk(Trip(w, t).a.chan, u)
  }

  /** What an exchange does for the stream from a to b. */
  ghost predicate Exchanged(w: World, v: World, load: Option<Payload>) {
    && Abreast(Out(v.a), In(v.b))
    && (Out(v.a).pending.Some? ==> Out(w.a).pending.Some? || load.Some?)
    && (Abreast(Out(w.a), In(w.b)) ==> Out(v.a).pending.None?)
    && Pending(w.a.chan.queue) == Data(load) + Pending(v.a.chan.queue)
    && (load.Some? <==> Loads(w.a.chan)) && (load.Some? ==> Out(w.a).pending.None? && Data(load) != [])
    && v.a.queued == w.a.queued && v.b.queued == w.b.queued
    && v.a.sent == w.a.sent + (if load.Some? then [load.value] else [])
  }

  lemma ExchangeIs(w: World, t: Talk, u: Talk, n: nat) returns (load: Option<Payload>)
    requires Open(w, n) && n > 0 && ExchangeOk(w, t, u)
    ensures Open(Exchange(w, t, u), n - 1) && Exchanged(w, Exchange(w, t, u), load)
  {
    hide Inv, Trip, TalkOk, Pending;
    var d, x, back;
    load, d := TripIs(w, t);
    back, x := TripIs(Trip(w, t), u);
    PairedIs(w);
    OneExchange(Out(w.a), In(w.b), load, d, x);
  }

  lemma PairedIs(w: World)
    requires Inv(w)
    ensures Stream.Paired(Out(w.a), In(w.b))
  {
  }

  /** Two exchanges settle what is pending: b has it, and a knows, also of a part loaded since. */
  lemma TwoExchangesSettle(w: World, t1: Talk, u1: Talk, t2: Talk, u2: Talk)
    requires Open(w, 2) && ExchangeOk(w, t1, u1) && ExchangeOk(Exchange(w, t1, u1), t2, u2)
    ensures var v := Exchange(Exchange(w, t1, u1), t2, u2);
      w.a.sent <= v.b.taken && v.a.chan.reliable == [] && v.b.taken == v.a.sent
  {
    hide Exchange, ExchangeOk, Pending, Sound;
    var load1 := ExchangeIs(w, t1, u1, 2);
    var x := Exchange(w, t1, u1);
    var load2 := ExchangeIs(x, t2, u2, 1);
    PairedIs(Exchange(x, t2, u2));
  }

  // ----- everything is delivered

  /** The talk of a whole conversation: a's i-th transmission and the answer. */
  type Script = nat -> (Talk, Talk)

  /** n exchanges, of which the first is number k. */
  ghost function Exchanges(w: World, s: Script, k: nat, n: nat): World
    decreases n
  {
    if n == 0 then w else Exchanges(Exchange(w, s(k).0, s(k).1), s, k + 1, n - 1)
  }

  /** None of the transmissions in these exchanges wipes its packet. */
  ghost predicate ScriptOk(w: World, s: Script, k: nat, n: nat)
    decreases n
  {
    n == 0 || (ExchangeOk(w, s(k).0, s(k).1) && ScriptOk(Exchange(w, s(k).0, s(k).1), s, k + 1, n - 1))
  }

  lemma ExchangesNext(w: World, s: Script, k: nat, n: nat) returns (x: World)
    requires ScriptOk(w, s, k, n) && n > 0
    ensures x == Exchange(w, s(k).0, s(k).1) && ExchangeOk(w, s(k).0, s(k).1) && ScriptOk(x, s, k + 1, n - 1)
    ensures Exchanges(w, s, k, n) == Exchanges(x, s, k + 1, n - 1)
  {
    hide Exchange, ExchangeOk;
    x := Exchange(w, s(k).0, s(k).1);
  }

  /** What is queued is loaded, if nothing is pending. */
  lemma LoadsPending(w: World)
    requires Inv(w) && !w.a.chan.queue.message.overflowed && w.a.chan.reliable == [] && !Loads(w.a.chan)
    ensures Pending(w.a.chan.queue) == []
  {
    QueueHeld(Flowed(w.a.sent).box, w.a.chan.queue);
    AdvancesIff(w.a.chan.queue);
  }

  /** Where nothing is pending and something is queued, an exchange settles at least one byte. */
  lemma ExchangeDrains(w: World, t: Talk, u: Talk, n: nat)
    requires Open(w, n) && n > 0 && ExchangeOk(w, t, u) && Settled(w)
    ensures var v := Exchange(w, t, u);
      && Open(v, n - 1) && Settled(v) && v.a.queued == w.a.queued
      && (|Pending(v.a.chan.queue)| < |Pending(w.a.chan.queue)|
        || Pending(w.a.chan.queue) == Pending(v.a.chan.queue) == [])
  {
    hide Inv, ExchangeOk, Pending, Loads, Exchange;
    var load := ExchangeIs(w, t, u, n);
    if load.None? { NothingQueued(w); }
  }

  lemma NothingQueued(w: World)
    requires Talking(w) && w.a.chan.reliable == [] && !Loads(w.a.chan)
    ensures Pending(w.a.chan.queue) == []
  {
    LoadsPending(w);
  }

  /** Nothing is pending, and a knows what b has. */
  ghost predicate Settled(w: World) {
    Abreast(Out(w.a), In(w.b)) && w.a.chan.reliable == []
  }

  lemma Finished(w: World)
    requires Talking(w) && w.a.chan.reliable == [] && Pending(w.a.chan.queue) == []
    ensures w.b.delivered == w.a.queued
  {
    DeliversPrefix(w);
  }

  /** From a state where nothing is pending, each exchange settles at least one byte. */
  lemma {:induction false} Drains(w: World, s: Script, k: nat, n: nat)
    requires ScriptOk(w, s, k, n) && Open(w, n) && Settled(w)
    requires |Pending(w.a.chan.queue)| <= n
    ensures var v := Exchanges(w, s, k, n);
      Open(v, 0) && Settled(v) && Pending(v.a.chan.queue) == [] && v.a.queued == w.a.queued
    decreases n
  {
    hide Exchange, Exchanges, ExchangeOk, ScriptOk, Pending, Settled, Talking;
    if n == 0 {
      NoExchange(w, s, k);
    } else {
      var x := ExchangesNext(w, s, k, n);
      ExchangeDrains(w, s(k).0, s(k).1, n);
      Drains(x, s, k + 1, n - 1);
    }
  }

  lemma NoExchange(w: World, s: Script, k: nat)
    ensures Exchanges(w, s, k, 0) == w
  {
  }

  /** Where the network loses nothing, nobody writes more and no transmission wipes its packet, the
      other side ends up with every byte that was queued, after two exchanges and one for each byte
      at most. */
  lemma EverythingArrives(w: World, s: Script, n: nat)
    requires ScriptOk(w, s, 0, n) && Open(w, n) && n >= |Pending(w.a.chan.queue)| + 2
    ensures Exchanges(w, s, 0, n).b.delivered == w.a.queued
  {
    hide Exchange, Exchanges, ExchangeOk, ScriptOk, Pending, Loads, Inv;
    var x := ExchangesNext(w, s, 0, n);
    var load1 := ExchangeIs(w, s(0).0, s(0).1, n);
    var y := ExchangesNext(x, s, 1, n - 1);
    var load2 := ExchangeIs(x, s(1).0, s(1).1, n - 1);
    Drains(y, s, 2, n - 2);
    Finished(Exchanges(y, s, 2, n - 2));
  }

  ghost predicate ShortScript(s: Script) {
    forall i: nat :: ShortTalk(s(i).0) && ShortTalk(s(i).1)
  }

  lemma ShortExchangeOk(w: World, t: Talk, u: Talk, n: nat)
    requires Open(w, n) && n > 0 && ShortTalk(t) && ShortTalk(u)
    ensures ExchangeOk(w, t, u) && Open(Exchange(w, t, u), n - 1)
  {
    hide Trip, Pending, Overfills, Follows, SendsInOrder;
    ShortTalkOk(w.a.chan, t);
    var load, d := TripIs(w, t);
    ShortTalkOk(Trip(w, t).a.chan, u);
    load := ExchangeIs(w, t, u, n);
  }

  lemma {:induction false} ShortScriptOk(w: World, s: Script, k: nat, n: nat)
    requires Open(w, n) && ShortScript(s)
    ensures ScriptOk(w, s, k, n)
    decreases n
  {
    hide Open, Exchange, ExchangeOk;
    if n > 0 {
      ShortExchangeOk(w, s(k).0, s(k).1, n);
      ShortScriptOk(Exchange(w, s(k).0, s(k).1), s, k + 1, n - 1);
    }
  }

  /** After any run, so many exchanges with short unreliable parts deliver everything. */
  lemma RunsRecover(es: seq<Event>, s: Script, n: nat)
    requires ShortScript(s) && n >= |Pending(Run(es).a.chan.queue)| + 2
    requires !Run(es).a.chan.queue.message.overflowed && !Run(es).b.chan.queue.message.overflowed
    requires Run(es).a.chan.outSeq + n <= SEQUENCES && Run(es).b.chan.outSeq + n <= SEQUENCES
    ensures Exchanges(Run(es), s, 0, n).b.delivered == Run(es).a.queued
  {
    hide Run, Inv, Exchanges, ScriptOk, ShortScript, Pending;
    RunKeeps(es);
    ShortScriptOk(Run(es), s, 0, n);
    EverythingArrives(Run(es), s, n);
  }
}
