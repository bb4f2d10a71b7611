/** The reliable stream where one side has taken other bytes for a packet.  A receiver may then be
    ahead of the numbers sent to it, and a sender may believe acknowledgements that nobody gave.
    What still ties the two together is weaker than the invariant of Stream and follows from it;
    every step keeps it. */
module Drift {
  import opened Basics
  import opened Stream

  /** What was taken is what was sent but for at most the last, and the bits tell how many. */
  ghost predicate Matched(s: Sender, r: Receiver) {
    && |r.taken| <= |s.sent| <= |r.taken| + 1 && r.taken == s.sent[..|r.taken|]
    && s.outRel == Odd(|s.sent|) && r.inRel == Odd(|r.taken|)
    && (s.pending.None? ==> |r.taken| == |s.sent|)
    && (s.pending.Some? ==> s.sent != [] && s.pending.value == s.sent[|s.sent| - 1])
    && s.lastRel < s.outSeq
  }

  /** A packet of the receiver that is new to the sender may be older than the last payload but one:
      then neither it nor what was heard last is recent enough to clear. */
  ghost predicate Recent(s: Sender, d: Datagram) {
    && (d.taken + 1 >= |s.sent|
        || (d.taken + 2 == |s.sent| && s.pending.Some? && d.ack + 1 < s.lastRel && s.inAck + 1 < s.lastRel))
  }

  ghost predicate Answer(s: Sender, r: Receiver, d: Datagram, live: bool) {
    && d.seqno < r.outSeq && d.ack <= r.inSeq
    && d.taken <= |r.taken| && d.ackRel == Odd(d.taken)
    && (d.ack >= s.lastRel && d.taken < |s.sent| ==> |r.taken| == d.taken)
    && (d.ack >= s.outSeq ==> |r.taken| == d.taken)
    && (d.seqno > s.heard ==> Recent(s, d))
    && (d.seqno > s.heard && s.pending.None? && d.taken < |s.sent| && live ==> s.inAck + 1 < s.outSeq)
  }

  ghost predicate AllAnswers(s: Sender, r: Receiver, ds: seq<Datagram>, live: bool) {
    forall i :: 0 <= i < |ds| ==> Answer(s, r, ds[i], live)
  }

  ghost predicate Stale(r: Receiver, d: Datagram) {
    d.payload.Some? ==> d.seqno <= r.inSeq
  }

  /** No packet with a payload is new to the receiver. */
  ghost predicate NoCopy(r: Receiver, ds: seq<Datagram>) {
    forall i :: 0 <= i < |ds| ==> Stale(r, ds[i])
  }

  /** What the sender believes does no harm: it sends again only what the receiver lacks and no
      packet still carries, and not twice unless in vain. */
  ghost predicate Sane(s: Sender, r: Receiver, out: seq<Datagram>) {
    && (Lost(s) && s.pending.Some? ==> |s.sent| == |r.taken| + 1 && NoCopy(r, out))
    && ((Lost(s) && s.pending.Some?) || (s.pending.None? && s.inRelAck == s.outRel) ==>
        s.inAck <= s.outSeq || s.inAck <= r.inSeq)
  }

  /** live says whether the sender can still send. */
  ghost predicate Tied(s: Sender, r: Receiver, out: seq<Datagram>, back: seq<Datagram>, live: bool) {
    && Matched(s, r) && AllOutbound(s, r, out) && AllAnswers(s, r, back, live) && Growing(back)
    && (live ==> Sane(s, r, out))
  }

  /** The invariant of Stream is stronger. */
  lemma LinkTies(s: Sender, r: Receiver, out: seq<Datagram>, back: seq<Datagram>, live: bool)
    requires Link(s, r, out, back)
    ensures Tied(s, r, out, back, live) && (Lost(s) ==> s.pending.Some?)
  {
    forall i | 0 <= i < |back| ensures Answer(s, r, back[i], live) {
      assert Inbound(s, r, back[i]);
    }
    if Lost(s) {
      LostIs(s, r);
      forall i | 0 <= i < |out| ensures Stale(r, out[i]) {
        assert Outbound(s, r, out[i]);
      }
    }
  }

  // ----- the steps

  lemma TiedDies(s: Sender, r: Receiver, out: seq<Datagram>, back: seq<Datagram>, live: bool, still: bool)
    requires Tied(s, r, out, back, live) && (still ==> live)
    ensures Tied(s, r, out, back, still)
  {
    forall i | 0 <= i < |back| ensures Answer(s, r, back[i], still) {
      assert Answer(s, r, back[i], live);
    }
  }

  lemma SendTied(s: Sender, r: Receiver, out: seq<Datagram>, back: seq<Datagram>, load: Option<Payload>,
                 d: Datagram, still: bool)
    requires Tied(s, r, out, back, true)
    requires (load.Some? ==> s.pending.None?) && (Lost(s) ==> s.pending.Some? || load.Some?)
    requires d.seqno == s.outSeq && d.payload == Carried(s, load)
    ensures Tied(Send(s, load), r, out, back, still) && Tied(Send(s, load), r, out + [d], back, still)
  {
    var t := Send(s, load);
    forall i | 0 <= i < |out| ensures Outbound(t, r, out[i]) {
      assert Outbound(s, r, out[i]);
      assert Lost(s) && load.None? ==> Stale(r, out[i]);
    }
    assert Outbound(t, r, d);
    forall i | 0 <= i < |back| ensures Answer(t, r, back[i], still) {
      assert Answer(s, r, back[i], true);
    }
    SendSane(s, r, out, load, d);
  }

  lemma SendSane(s: Sender, r: Receiver, out: seq<Datagram>, load: Option<Payload>, d: Datagram)
    requires Matched(s, r) && AllOutbound(s, r, out) && Sane(s, r, out)
    requires (load.Some? ==> s.pending.None?) && (Lost(s) ==> s.pending.Some? || load.Some?)
    requires d.seqno == s.outSeq && d.payload == Carried(s, load)
    ensures Sane(Send(s, load), r, out) && Sane(Send(s, load), r, out + [d])
  {
    var t := Send(s, load);
    if Lost(t) && t.pending.Some? {
      forall i | 0 <= i < |out| ensures Stale(r, out[i]) {
        assert Outbound(s, r, out[i]);
      }
      assert Stale(r, d);
    }
  }

  /** After a packet of the other side is heard nothing is believed lost that is not pending. */
  lemma HearTied(s: Sender, r: Receiver, out: seq<Datagram>, back: seq<Datagram>, k: nat, live: bool)
    requires Tied(s, r, out, back, live) && k < |back| && back[k].seqno > s.heard
    ensures Tied(Hear(s, back[k]), r, out, back, live)
    ensures Lost(Hear(s, back[k])) ==> Hear(s, back[k]).pending.Some?
  {
    var (d, t) := (back[k], Hear(s, back[k]));
    assert Answer(s, r, d, live);
    forall i | 0 <= i < |out| ensures Outbound(t, r, out[i]) && (Lost(t) ==> Stale(r, out[i])) {
      assert Outbound(s, r, out[i]);
    }
    forall i | 0 <= i < |back| ensures Answer(t, r, back[i], live) {
      assert Answer(s, r, back[i], live);
      if i < k { assert Before(back[i], back[k]); }
      if i > k { assert Before(back[k], back[i]); }
    }
  }

  lemma TakeTied(s: Sender, r: Receiver, out: seq<Datagram>, back: seq<Datagram>, k: nat, live: bool)
    requires Tied(s, r, out, back, live) && k < |out| && out[k].seqno > r.inSeq
    ensures Tied(s, Take(r, out[k]), out, back, live)
  {
    var (d, t) := (out[k], Take(r, out[k]));
    assert Outbound(s, r, d);
    if d.payload.Some? { assert t.taken == s.sent; }
    forall i | 0 <= i < |out| ensures Outbound(s, t, out[i]) {
      assert Outbound(s, r, out[i]);
    }
    forall i | 0 <= i < |back| ensures Answer(s, t, back[i], live) {
      assert Answer(s, r, back[i], live);
    }
    if live && Lost(s) && s.pending.Some? {
      assert Stale(r, d);
      forall i | 0 <= i < |out| ensures Stale(t, out[i]) {
        assert Stale(r, out[i]);
      }
    }
  }

  lemma AnswerTied(s: Sender, r: Receiver, out: seq<Datagram>, back: seq<Datagram>, d: Datagram, live: bool)
    requires Tied(s, r, out, back, live)
    requires d.seqno == r.outSeq && d.ack == r.inSeq && d.ackRel == r.inRel && d.taken == |r.taken|
    ensures var t := r.(outSeq := r.outSeq + 1); Tied(s, t, out, back, live) && Tied(s, t, out, back + [d], live)
  {
    var t := r.(outSeq := r.outSeq + 1);
    forall i | 0 <= i < |out| ensures Outbound(s, t, out[i]) && (Stale(r, out[i]) <==> Stale(t, out[i])) {
      assert Outbound(s, r, out[i]);
    }
    forall i | 0 <= i < |back| ensures Answer(s, t, back[i], live) && Before(back[i], d) {
      assert Answer(s, r, back[i], live);
    }
    assert Answer(s, t, d, live);
  }

  // ----- other bytes taken for a packet

  /** The receiver of a stream takes a packet without a payload that nobody sent. */
  lemma JumpTied(s: Sender, r: Receiver, out: seq<Datagram>, back: seq<Datagram>, live: bool, d: Datagram)
    requires Tied(s, r, out, back, live) && d.payload.None? && d.seqno >= r.inSeq
    ensures Tied(s, Take(r, d), out, back, live)
  {
    var t := Take(r, d);
    forall i | 0 <= i < |out| ensures Outbound(s, t, out[i]) && (Stale(r, out[i]) ==> Stale(t, out[i])) {
      assert Outbound(s, r, out[i]);
    }
    forall i | 0 <= i < |back| ensures Answer(s, t, back[i], live) {
      assert Answer(s, r, back[i], live);
    }
  }

  /** What is pending is cleared, and was not taken. */
  ghost predicate ClearsUntaken(s: Sender, r: Receiver, d: Datagram) {
    s.pending.Some? && Hear(s, d).pending.None? && |r.taken| < |s.sent|
  }

  /** Nothing is pending, but something is believed lost, and there is nothing to load instead: an
      empty part will go out. */
  ghost predicate SendsNothing(s: Sender, d: Datagram, loads: bool) {
    Lost(Hear(s, d)) && Hear(s, d).pending.None? && !loads
  }

  /** Nothing is pending, and the next payload will be believed lost as soon as it is sent. */
  ghost predicate RepeatsNext(s: Sender, d: Datagram) {
    var t := Hear(s, d);
    t.pending.None? && t.inRelAck == t.outRel && t.inAck > t.outSeq
  }

  ghost predicate OldAnswer(s: Sender, d: Datagram, e: Datagram) {
    e.seqno > d.seqno && e.taken < |s.sent|
  }

  /** What is pending is cleared, rightly, but an answer without it is still new, and would clear the
      next payload. */
  ghost predicate ClearsNext(s: Sender, back: seq<Datagram>, d: Datagram) {
    && s.pending.Some? && Hear(s, d).pending.None? && d.ack + 1 >= s.outSeq
    && exists k :: 0 <= k < |back| && OldAnswer(s, d, back[k])
  }

  /** What is pending will be sent again, and twice arrive. */
  ghost predicate RepeatsPending(s: Sender, r: Receiver, out: seq<Datagram>, d: Datagram) {
    var t := Hear(s, d);
    && Lost(t) && t.pending.Some?
    && (|r.taken| == |s.sent| || t.inAck > t.outSeq || !NoCopy(r, out))
  }

  /** Hearing d, which nobody sent, can be continued to a broken promise. */
  ghost predicate Misleads(s: Sender, r: Receiver, out: seq<Datagram>, back: seq<Datagram>, d: Datagram,
                           live: bool, loads: bool) {
    || ClearsUntaken(s, r, d)
    || (live && (SendsNothing(s, d, loads) || RepeatsNext(s, d) || ClearsNext(s, back, d)
      || RepeatsPending(s, r, out, d)))
  }

  /** Otherwise sender and receiver stay tied. */
  lemma MisledTied(s: Sender, r: Receiver, out: seq<Datagram>, back: seq<Datagram>, d: Datagram, live: bool,
                   loads: bool)
    requires Link(s, r, out, back) && d.seqno > s.heard && !Misleads(s, r, out, back, d, live, loads)
    ensures var t := Hear(s, d);
      Tied(t, r, out, back, live) && (live && Lost(t) ==> t.pending.Some? || loads)
  {
    var t := Hear(s, d);
    forall i | 0 <= i < |out| ensures Outbound(t, r, out[i]) {
      assert Outbound(s, r, out[i]);
    }
    forall i | 0 <= i < |back| ensures Answer(t, r, back[i], live) {
      assert Inbound(s, r, back[i]);
      assert s.pending.Some? && t.pending.None? && live ==> d.ack + 1 < s.outSeq || !OldAnswer(s, d, back[i]);
    }
  }
}
