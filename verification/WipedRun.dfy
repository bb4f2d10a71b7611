/** A run of the channel in which a transmission wipes its packet, and what the bytes sent in its place
    do to the promises. */
module WipedRun {
  import opened Basics
  import opened Netchan
  import opened Fragments
  import opened Stream
  import opened Drift
  import opened Delivery
  import opened Channel
  import opened Survival
  import opened Misreading

  /** A channel that sends part m for the first time, and has sent it n packets before the next. */
  function Sending(m: seq<Byte>, n: nat): Chan {
    NewChan().(outSeq := n, lastRel := 1, outRel := true, reliable := m)
  }

  /** A message written to a new endpoint goes out with the next packet. */
  lemma FirstSent(m: seq<Byte>)
    requires 1200 < |m| <= MAX_MESSAGE
    ensures Appended(NewChan().queue.message, m).Some?
    ensures var (f, x) := Transmits(Writes(NewEnd(), m), [], 100);
      f.chan == Sending(m, 2) && f.sent == [Payload(None, m)] && f.taken == [] && f.seen == 0
    ensures Transmitted(Writes(NewEnd(), m).chan, [], 100).1.Sent?
  {
    var c := Writes(NewEnd(), m).chan;
    assert c.queue.message.data == m;
    assert Prepared(c.queue, 100) == Some(c.queue);
    assert Loaded(c) == c.(outRel := true, reliable := m, queue := NewChan().queue);
  }

  /** The packet after it carries nothing. */
  lemma SecondSent(e: End, m: seq<Byte>)
    requires e.chan == Sending(m, 2) && m != [] && e.taken == []
    ensures var (f, x) := Transmits(e, [], 100);
      && f == e.(chan := Sending(m, 3))
      && x == Some(Wire(Packet(2, false, 0, false, None, [], []), 0))
    ensures Transmitted(e.chan, [], 100).1.Sent?
  {
  }

  /** A new endpoint that takes a packet without a part answers it. */
  lemma Answered(p: Packet)
    requires p == Packet(2, false, 0, false, None, [], [])
    ensures var (f, x) := Transmits(Receives(NewEnd(), Wire(p, 0)), [], 100);
      f.chan == NewChan().(inSeq := 2, outSeq := 2) && f.taken == []
        && x == Some(Wire(Packet(1, false, 2, false, None, [], []), 0))
    ensures Receives(NewEnd(), Wire(p, 0)).chan == NewChan().(inSeq := 2)
    ensures Transmitted(Receives(NewEnd(), Wire(p, 0)).chan, [], 100).1.Sent?
  {
  }

  /** The answer makes the long part go again, and an unreliable part of 1100 bytes wipes it. */
  lemma ThenWiped(e: End, m: seq<Byte>, p: Packet, arg: seq<Byte>)
    requires e.chan == Sending(m, 3) && |m| == 3000 && p == Packet(1, false, 2, false, None, [], []) && |arg| == 1100
    ensures Wiped(Receives(e, Wire(p, 0)), arg, 100) == Some(arg)
    ensures Receives(e, Wire(p, 0)).chan.reliable == m
  {
    var f := Receives(e, Wire(p, 0));
    assert f.chan == Sending(m, 3).(inSeq := 1, inAck := 2);
    assert Resends(f.chan);
  }

  /** The message is written and sent, that packet is lost, the next arrives and is answered. */
  function Prelude(m: seq<Byte>): seq<Event> {
    [Event(true, Write(m)), Event(true, Transmit([], 100)), Event(true, Transmit([], 100)),
     Event(false, Receive(1)), Event(false, Transmit([], 100)), Event(true, Receive(0))]
  }

  lemma RunNext(es: seq<Event>, e: Event)
    ensures Run(es + [e]) == Happen(Run(es), e)
  {
    assert (es + [e])[..|es|] == es;
  }

  lemma RunTo(es: seq<Event>, k: nat)
    requires k < |es|
    ensures Run(es[..k + 1]) == Happen(Run(es[..k]), es[k])
  {
    assert es[..k + 1] == es[..k] + [es[k]];
    RunNext(es[..k], es[k]);
  }

  /** The first two events. */
  lemma PreludeStarts(m: seq<Byte>)
    requires 1200 < |m| <= MAX_MESSAGE
    ensures var w := Run(Prelude(m)[..2]);
      && w.a.chan == Sending(m, 2) && w.a.taken == [] && w.b == NewEnd() && w.ba == [] && |w.ab| == 1
  {
    hide Transmits, Run, Wiped, Loads;
    var es := Prelude(m);
    RunNone(es);
    RunTo(es, 0);
    RunTo(es, 1);
    FirstSent(m);
    SentNotWiped(Writes(NewEnd(), m));
  }

  /** The first three events. */
  lemma PreludeSends(m: seq<Byte>)
    requires 1200 < |m| <= MAX_MESSAGE
    ensures var w := Run(Prelude(m)[..3]);
      && w.a.chan == Sending(m, 3) && w.b == NewEnd() && w.ba == []
      && |w.ab| == 2 && w.ab[1] == Wire(Packet(2, false, 0, false, None, [], []), 0)
  {
    hide Transmits, Run, Wiped, Transmitted;
    PreludeStarts(m);
    RunTo(Prelude(m), 2);
    var e := Run(Prelude(m)[..2]).a;
    SecondSent(e, m);
    SentNotWiped(e);
  }

  lemma RunNone(es: seq<Event>)
    ensures Run(es[..0]) == NewWorld()
  {
  }

  lemma SentNotWiped(e: End)
    requires Transmitted(e.chan, [], 100).1.Sent?
    ensures Wiped(e, [], 100).None? && Transmits(e, [], 100).1.Some?
  {
  }

  /** All of them. */
  lemma PreludeEnds(m: seq<Byte>, arg: seq<Byte>)
    requires |m| == 3000 && |arg| == 1100
    ensures var w := Run(Prelude(m));
      && Wiped(w.a, arg, 100) == Some(arg) && w.a.chan.reliable == m
      && w.b.chan == NewChan().(inSeq := 2, outSeq := 2)
  {
    hide Transmits, Receives, Run, Wiped;
    var es := Prelude(m);
    PreludeSends(m);
    RunTo(es, 3);
    RunTo(es, 4);
    RunTo(es, 5);
    assert es[..6] == es;
    var p := Packet(2, false, 0, false, None, [], []);
    Answered(p);
    SentNotWiped(Receives(NewEnd(), Wire(p, 0)));
    var w := Run(es[..3]);
    ThenWiped(w.a, m, Packet(1, false, 2, false, None, [], []), arg);
  }

  /** A run that ends in a transmission of 1100 bytes that are sent in place of their packet: every
      reading of them breaks the promise at once, if they are marked reliable, without the fragment
      flag, and have a number above two. */
  lemma PromiseBreaks(m: seq<Byte>, arg: seq<Byte>, p: Packet)
    requires |m| == 3000 && |arg| == 1100 && Marked(arg) && !Flagged(arg) && Number(arg) > 2 && Reads(arg, p)
    ensures var w := Run(Prelude(m));
      TakenOnce(w) && Wiped(w.a, arg, 100).Some? && !TakenOnce(SendsOut(w, arg, 100).(b := Misreads(w.b, p)))
  {
    var w := Run(Prelude(m));
    RunKeeps(Prelude(m));
    TakesOnce(w);
    PreludeEnds(m, arg);
    PlainTaken(w.b.chan, p);
    MarkedIff(w, arg, 100, p);
    SendsOutKeepsB(w, arg, 100);
  }

  lemma PlainTaken(c: Chan, p: Packet)
    requires p.frag.None? && p.seqno > c.inSeq
    ensures Processed(c, p).1 == Taken
  {
  }

  lemma SendsOutKeepsB(w: World, arg: seq<Byte>, size: nat)
    requires size > 0
    ensures SendsOut(w, arg, size).b == w.b
  {
  }

  /** After the same run, bytes that are not marked reliable and do no harm at once break the promise
      later, on a network that loses nothing: b believes that a part was lost, and sends an empty
      one. */
  lemma PromiseBreaksLater(m: seq<Byte>, arg: seq<Byte>)
    requires |m| == 3000 && |arg| == 1100 && !Marked(arg) && !Flagged(arg) && !Secured(arg)
    requires Number(arg) > 2 && Echo(arg) && Word32(arg, 4) % SEQUENCES > 0
    ensures !Survives(InFlight(Run(Prelude(m)), arg, 100), arg)
  {
    var w := Run(Prelude(m));
    RunKeeps(Prelude(m));
    PreludeEnds(m, arg);
    InFlightKeeps(w, arg, 100);
    var v := InFlight(w, arg, 100);
    SendsOutKeepsB(w, arg, 100);
    NewMisled(v, arg);
    SurvivesIff(v, arg);
  }

  /** An endpoint that has sent nothing reliable is misled by any acknowledgement with the bit set. */
  lemma NewMisled(w: World, arg: seq<Byte>)
    requires w.b.chan == NewChan().(inSeq := 2, outSeq := 2) && |arg| >= 8
    requires Echo(arg) && Word32(arg, 4) % SEQUENCES > 0
    ensures Misled(w, arg)
  {
    assert SendsNothing(Out(w.b), Heard(arg, w.b.seen), Queued(w.b.chan.queue));
  }

  /** The datagram of a server at the time 1.0 is of the first kind: a message byte and a float, here
      followed by bytes without the security bit. */
  lemma DatagramOfTimeOne(arg: seq<Byte>)
    requires |arg| >= 8 && arg[0] == 7 && arg[1] == 0 && arg[2] == 0 && arg[3] == 0x80 && arg[4] == 0x3F
      && arg[7] < 0x40
    ensures Marked(arg) && !Flagged(arg) && !Secured(arg) && Number(arg) == 7
  {
  }

  /** The one of the time 2.0 is of the second kind for a quarter of the values of its eighth byte. */
  lemma DatagramOfTimeTwo(arg: seq<Byte>)
    requires |arg| >= 8 && arg[0] == 7 && arg[1] == 0 && arg[2] == 0 && arg[3] == 0 && arg[4] == 0x40
    requires 0x80 <= arg[7] < 0xC0
    ensures !Marked(arg) && !Flagged(arg) && !Secured(arg) && Number(arg) == 7
    ensures Echo(arg) && Word32(arg, 4) % SEQUENCES > 0
  {
  }
}
