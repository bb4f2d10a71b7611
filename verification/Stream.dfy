/** The reliable stream of NET.c in the abstract: a sender that lets one payload at a time be
    pending and marks it with an alternating bit, a receiver that echoes the bit, and a network
    that loses, repeats and reorders packets.  One invariant ties the two together. */
module Stream {
  import opened Basics

  /** A reliable part, with the word of its fragment header if it is a fragment. */
  datatype Payload = Payload(head: Option<nat>, data: seq<Byte>)

  /** A packet on the network; payload is its reliable part, if it has one.  taken remembers how
      many payloads its sender had taken when it was sent. */
  datatype Datagram = Datagram(seqno: nat, payload: Option<Payload>, ack: nat, ackRel: bool, taken: nat)

  /** The sending half of an endpoint.  sent is every payload so far, the pending one last, and
      seen how many of them the other side had taken by the last packet heard. */
  datatype Sender = Sender(outSeq: nat, lastRel: nat, outRel: bool, heard: nat, inAck: nat, inRelAck: bool,
                           pending: Option<Payload>, sent: seq<Payload>, seen: nat)

  /** The receiving half, with the number of the next packet it sends. */
  datatype Receiver = Receiver(inSeq: nat, inRel: bool, outSeq: nat, taken: seq<Payload>)

  predicate Odd(n: nat) {
    n % 2 == 1
  }

  // ----- the invariant

  /** A packet of the sender: if it is still new to the receiver and carries a payload, it is the
      last that did, and the payload is the one the receiver lacks. */
  ghost predicate Outbound(s: Sender, r: Receiver, d: Datagram) {
    && d.seqno < s.outSeq
    && (d.payload.Some? && d.seqno > r.inSeq ==>
        d.seqno == s.lastRel && |s.sent| == |r.taken| + 1 && d.payload.value == s.sent[|s.sent| - 1])
  }

  /** A packet of the receiver: it echoes what was taken then, and if it acknowledges the last
      packet with a payload without that payload, it is lost. */
  ghost predicate Inbound(s: Sender, r: Receiver, d: Datagram) {
    && d.seqno < r.outSeq && d.ack <= r.inSeq
    && d.taken <= |r.taken| && d.ackRel == Odd(d.taken)
    && (d.ack >= s.lastRel && d.taken < |s.sent| ==> |r.taken| == d.taken)
    && (d.seqno > s.heard ==> d.taken >= s.seen)
  }

  ghost predicate Before(d: Datagram, e: Datagram) {
    d.seqno < e.seqno && d.taken <= e.taken
  }

  ghost predicate Growing(ds: seq<Datagram>) {
    forall i, j :: 0 <= i < j < |ds| ==> Before(ds[i], ds[j])
  }

  ghost predicate AllOutbound(s: Sender, r: Receiver, ds: seq<Datagram>) {
    forall i :: 0 <= i < |ds| ==> Outbound(s, r, ds[i])
  }

  ghost predicate AllInbound(s: Sender, r: Receiver, ds: seq<Datagram>) {
    forall i :: 0 <= i < |ds| ==> Inbound(s, r, ds[i])
  }

  /** What was taken is what was sent, but for at most the last; the bits tell how many. */
  ghost predicate Paired(s: Sender, r: Receiver) {
    && |r.taken| <= |s.sent| <= |r.taken| + 1 && r.taken == s.sent[..|r.taken|]
    && s.seen <= |r.taken| && |s.sent| <= s.seen + 1
    && s.outRel == Odd(|s.sent|) && r.inRel == Odd(|r.taken|) && s.inRelAck == Odd(s.seen)
    && (s.pending.None? ==> s.seen == |s.sent|)
    && (s.pending.Some? ==> s.sent != [] && s.pending.value == s.sent[|s.sent| - 1])
    && s.lastRel < s.outSeq && r.inSeq < s.outSeq && s.inAck <= r.inSeq && s.heard < r.outSeq
    && (s.inAck >= s.lastRel && s.seen < |s.sent| ==> |r.taken| == s.seen)
  }

  ghost predicate Link(s: Sender, r: Receiver, out: seq<Datagram>, back: seq<Datagram>) {
    Paired(s, r) && AllOutbound(s, r, out) && AllInbound(s, r, back) && Growing(back)
  }

  // ----- the steps of the sender

  /** The pending payload was lost and goes again. */
  predicate Lost(s: Sender) {
    s.inAck > s.lastRel && s.inRelAck != s.outRel
  }

  /** What the sender becomes when it sends a packet; load is a new payload. */
  function Send(s: Sender, load: Option<Payload>): Sender {
    var t := s.(outSeq := s.outSeq + 1, lastRel := if load.Some? || Lost(s) then s.outSeq else s.lastRel);
    if load.Some? then t.(outRel := !s.outRel, pending := load, sent := s.sent + [load.value]) else t
  }

  /** The payload of the packet it sends. */
  function Carried(s: Sender, load: Option<Payload>): Option<Payload> {
    if load.Some? then load else if Lost(s) then s.pending else None
  }

  /** What the sender becomes when it hears packet d. */
  function Hear(s: Sender, d: Datagram): Sender {
    s.(heard := d.seqno, inAck := d.ack, inRelAck := d.ackRel, seen := d.taken,
       pending := if d.ackRel == s.outRel && s.inAck + 1 >= s.lastRel then None else s.pending)
  }

  /** Nothing is sent again unless something is pending, and then it was lost. */
  lemma LostIs(s: Sender, r: Receiver)
    requires Paired(s, r) && Lost(s)
    ensures s.pending.Some? && |s.sent| == |r.taken| + 1 && r.inSeq > s.lastRel
  {
  }

  lemma SendPaired(s: Sender, r: Receiver, load: Option<Payload>)
    requires Paired(s, r) && (load.Some? ==> s.pending.None?)
    ensures Paired(Send(s, load), r)
  {
    if Lost(s) { LostIs(s, r); }
  }

  /** Whatever the sender sends, and whether or not it arrives on the network. */
  lemma SendKeeps(s: Sender, r: Receiver, out: seq<Datagram>, back: seq<Datagram>, load: Option<Payload>, d: Datagram)
    requires Link(s, r, out, back) && (load.Some? ==> s.pending.None?)
    requires d.seqno == s.outSeq && d.payload == Carried(s, load)
    ensures Link(Send(s, load), r, out, back) && Link(Send(s, load), r, out + [d], back)
  {
    var t := Send(s, load);
    if Lost(s) { LostIs(s, r); }
    SendPaired(s, r, load);
    forall i | 0 <= i < |out| ensures Outbound(t, r, out[i]) {
      assert Outbound(s, r, out[i]);
    }
    assert Outbound(t, r, d);
    forall i | 0 <= i < |back| ensures Inbound(t, r, back[i]) {
      assert Inbound(s, r, back[i]);
    }
  }

  lemma HearPaired(s: Sender, r: Receiver, d: Datagram)
    requires Paired(s, r) && Inbound(s, r, d) && d.seqno > s.heard
    ensures Paired(Hear(s, d), r)
  {
  }

  lemma HearKeeps(s: Sender, r: Receiver, out: seq<Datagram>, back: seq<Datagram>, k: nat)
    requires Link(s, r, out, back) && k < |back| && back[k].seqno > s.heard
    ensures Link(Hear(s, back[k]), r, out, back)
  {
    var t := Hear(s, back[k]);
    assert Inbound(s, r, back[k]);
    HearPaired(s, r, back[k]);
    forall i | 0 <= i < |out| ensures Outbound(t, r, out[i]) {
      assert Outbound(s, r, out[i]);
    }
    forall i | 0 <= i < |back| ensures Inbound(t, r, back[i]) {
      assert Inbound(s, r, back[i]);
      if i < k { assert Before(back[i], back[k]); }
      if i > k { assert Before(back[k], back[i]); }
    }
  }

  /** The echoed bit of a new packet agrees with the sender's exactly if everything was taken. */
  lemma EchoIs(s: Sender, r: Receiver, out: seq<Datagram>, back: seq<Datagram>, k: nat)
    requires Link(s, r, out, back) && k < |back| && back[k].seqno > s.heard
    ensures back[k].ackRel == s.outRel <==> back[k].taken == |s.sent|
    ensures s.pending.Some? ==>
      (Hear(s, back[k]).pending.None? <==> back[k].taken == |s.sent| && s.inAck + 1 >= s.lastRel)
    ensures back[k].taken == |s.sent| ==> r.taken == s.sent
  {
    assert Inbound(s, r, back[k]);
  }

  // ----- the steps of the receiver

  /** What the receiver becomes when it takes packet d. */
  function Take(r: Receiver, d: Datagram): Receiver {
    r.(inSeq := d.seqno, inRel := r.inRel != d.payload.Some?,
       taken := if d.payload.Some? then r.taken + [d.payload.value] else r.taken)
  }

  /** A packet that is new to the receiver and carries a payload carries the next one. */
  lemma TakeKeeps(s: Sender, r: Receiver, out: seq<Datagram>, back: seq<Datagram>, k: nat)
    requires Link(s, r, out, back) && k < |out| && out[k].seqno > r.inSeq
    ensures Link(s, Take(r, out[k]), out, back)
  {
    var (d, t) := (out[k], Take(r, out[k]));
    assert Outbound(s, r, d);
    if d.payload.Some? {
      assert t.taken == s.sent;
    }
    forall i | 0 <= i < |out| ensures Outbound(s, t, out[i]) {
      assert Outbound(s, r, out[i]);
    }
    forall i | 0 <= i < |back| ensures Inbound(s, t, back[i]) {
      assert Inbound(s, r, back[i]);
    }
  }

  /** The receiver answers: its packet acknowledges and echoes. */
  lemma AnswerKeeps(s: Sender, r: Receiver, out: seq<Datagram>, back: seq<Datagram>, d: Datagram)
    requires Link(s, r, out, back)
    requires d.seqno == r.outSeq && d.ack == r.inSeq && d.ackRel == r.inRel && d.taken == |r.taken|
    ensures var t := r.(outSeq := r.outSeq + 1); Link(s, t, out, back) && Link(s, t, out, back + [d])
  {
    var t := r.(outSeq := r.outSeq + 1);
    forall i | 0 <= i < |out| ensures Outbound(s, t, out[i]) {
      assert Outbound(s, r, out[i]);
    }
    forall i | 0 <= i < |back| ensures Inbound(s, t, back[i]) && Before(back[i], d) {
      assert Inbound(s, r, back[i]);
    }
    assert Inbound(s, t, d);
  }
}
