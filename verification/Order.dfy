/** The order of the reliable bytes of a channel: they leave in the order in which they were
    queued, whether written to the message under construction or cut into fragments. */
module Order {
  import opened Basics
  import opened Netchan
  import opened Fragments

  /** The bytes of the messages that wait. */
  function Waiting(hs: seq<Holder>): seq<Byte> {
    if hs == [] then [] else Joined(hs[0].frags) + Waiting(hs[1..])
  }

  /** The bytes queued and not sent yet, in the order in which they go. */
  function Pending(q: Queue): seq<Byte> {
    Joined(q.sending) + Waiting(q.waiting) + q.message.data
  }

  /** No waiting message is without fragments. */
  ghost predicate Held(q: Queue) {
    forall i :: 0 <= i < |q.waiting| ==> HeldAt(q, i)
  }

  ghost predicate HeldAt(q: Queue, i: nat)
    requires i < |q.waiting|
  {
    q.waiting[i].frags != []
  }

  lemma AddedHeld(q: Queue, msg: seq<Byte>, size: nat)
    requires size > 0 && Held(q)
    ensures Added(q, msg, size).Some? ==> Held(Added(q, msg, size).value)
  {
    if msg != [] && Added(q, msg, size).Some? {
      var r := Added(q, msg, size).value;
      forall i | 0 <= i < |r.waiting| ensures HeldAt(r, i) {
        if i < |q.waiting| { assert HeldAt(q, i); }
      }
    }
  }

  lemma FlushedHeld(q: Queue, size: nat)
    requires size > 0 && Held(q)
    ensures Flushed(q, size).Some? ==> Held(Flushed(q, size).value)
  {
    AddedHeld(q, q.message.data, size);
    if Flushed(q, size).Some? {
      var (r, f) := (Added(q, q.message.data, size).value, Flushed(q, size).value);
      forall i | 0 <= i < |f.waiting| ensures HeldAt(f, i) {
        assert HeldAt(r, i);
      }
    }
  }

  lemma AdvancedHeld(q: Queue)
    requires Held(q)
    ensures Held(Advanced(q)) && Advanced(Advanced(q)) == Advanced(q)
  {
    var a := Advanced(q);
    assert q.waiting != [] ==> HeldAt(q, 0);
    forall i | 0 <= i < |a.waiting| ensures HeldAt(a, i) {
      assert a.waiting == q.waiting || HeldAt(q, i + 1);
      assert a.waiting == q.waiting ==> HeldAt(q, i);
    }
  }

  lemma AdvancesIff(q: Queue)
    requires Held(q)
    ensures Advanced(q).sending == [] <==> q.sending == [] && q.waiting == []
  {
    assert q.waiting == [] || HeldAt(q, 0);
  }

  lemma {:induction false} WaitingAppend(hs: seq<Holder>, h: Holder)
    ensures Waiting(hs + [h]) == Waiting(hs) + Joined(h.frags)
    decreases |hs|
  {
    if hs == [] {
      assert Waiting([h]) == Joined(h.frags) + Waiting([h][1..]);
    } else {
      WaitingAppend(hs[1..], h);
      assert (hs + [h])[1..] == hs[1..] + [h];
    }
  }

  lemma AdvancedBytes(q: Queue)
    ensures Pending(Advanced(q)) == Pending(q)
  {
  }

  lemma AddedBytes(q: Queue, msg: seq<Byte>, size: nat)
    requires size > 0 && Added(q, msg, size).Some?
    ensures var r := Added(q, msg, size).value;
      r.sending == q.sending && r.message == q.message && Waiting(r.waiting) == Waiting(q.waiting) + msg
  {
    if msg != [] {
      PiecesAre(msg, size, 1);
      WaitingAppend(q.waiting, HolderOf(msg, size));
    }
  }

  lemma FlushedBytes(q: Queue, size: nat)
    requires size > 0 && Flushed(q, size).Some?
    ensures Pending(Flushed(q, size).value) == Pending(q) && Flushed(q, size).value.message.data == []
  {
    AddedBytes(q, q.message.data, size);
  }

  /** Netchan_CreateFragments queues the message behind everything queued before. */
  lemma FragmentedBytes(q: Queue, msg: seq<Byte>, size: nat)
    requires size > 0 && Fragmented(q, msg, size).Some?
    ensures Pending(Fragmented(q, msg, size).value) == Pending(q) + msg
  {
    FlushedBytes(q, size);
    var r := Flushed(q, size).value;
    AddedBytes(r, msg, size);
  }

  /** So does a write that fits. */
  lemma WrittenBytes(q: Queue, bytes: seq<Byte>)
    requires |q.message.data| + |bytes| <= q.message.max
    ensures Appended(q.message, bytes).Some?
    ensures Pending(q.(message := Appended(q.message, bytes).value)) == Pending(q) + bytes
  {
  }

  lemma PreparedBytes(q: Queue, size: nat)
    requires size > 0 && Prepared(q, size).Some?
    ensures Pending(Prepared(q, size).value) == Pending(q)
  {
    AdvancedBytes(q);
    if Flushed(Advanced(q), size).Some? { FlushedBytes(Advanced(q), size); }
  }

  lemma NoneWaiting()
    ensures Waiting([]) == []
  {
  }

  lemma LoadedBytes(c: Chan)
    requires c.reliable == [] && Advanced(c.queue) == c.queue
    ensures Pending(c.queue) == Loaded(c).reliable + Pending(Loaded(c).queue)
  {
    hide Word, Waiting;
    var (q, l) := (c.queue, Loaded(c));
    if q.sending == [] {
      assert q.waiting == [];
      NoneWaiting();
    } else if l.reliable != [] {
      assert l.reliable + Joined(l.queue.sending) == Joined(q.sending);
    }
  }

  /** The reliable part that a transmission takes is the front of what was queued, and the rest
      stays queued in order: no direct message overtakes a fragment. */
  lemma TransmitTakesFront(c: Chan, arg: seq<Byte>, size: nat)
    requires size > 0 && Held(c.queue)
    ensures var (d, r) := Transmitted(c, arg, size);
      if c.reliable == [] then Pending(c.queue) == d.reliable + Pending(d.queue)
      else d.reliable == c.reliable && d.queue == c.queue
  {
    if c.reliable == [] && Prepared(c.queue, size).Some? {
      var q := Prepared(c.queue, size).value;
      PreparedBytes(c.queue, size);
      PreparedAdvanced(c.queue, size);
      LoadedBytes(c.(queue := q));
    }
  }

  lemma PreparedAdvanced(q: Queue, size: nat)
    requires size > 0 && Held(q) && Prepared(q, size).Some?
    ensures var p := Prepared(q, size).value;
      Held(p) && Advanced(p) == p && p.sending == Advanced(q).sending && p.count == Advanced(q).count
  {
    AdvancedHeld(q);
    FlushedHeld(Advanced(q), size);
  }

  // ----- what one transmission takes

  /** The fragments next in line: those left of the message in progress, or else those of the
      first that waits. */
  function InLine(q: Queue): Holder {
    if q.sending != [] then Holder(q.count, q.sending)
    else if q.waiting != [] then q.waiting[0]
    else Holder(q.count, [])
  }

  /** The messages that wait behind the fragments next in line. */
  function Behind(q: Queue): seq<Holder> {
    if q.sending == [] && q.waiting != [] then q.waiting[1..] else q.waiting
  }

  /** What cutting a message into fragments of this size has to yield. */
  ghost predicate CutFrom(h: Holder, msg: seq<Byte>, size: nat) {
    h.count == |h.frags| && Numbered(h.frags, 1) && Full(h.frags, size) && Joined(h.frags) == msg
  }

  /** Such a fragmented message, if there is one to cut up. */
  ghost predicate CutUp(hs: seq<Holder>, msg: seq<Byte>, size: nat) {
    if msg == [] then hs == [] else |hs| == 1 && CutFrom(hs[0], msg, size)
  }

  /** A message is cut up into one entry at the end of the queue; it is fatal exactly if it takes a
      fragment longer than 1400 bytes. */
  lemma AddedIs(q: Queue, msg: seq<Byte>, size: nat)
    requires size > 0
    ensures Added(q, msg, size).None? <==> size > 1400 && |msg| > 1400
    ensures Added(q, msg, size).Some? ==>
      var r := Added(q, msg, size).value;
      && r.message == q.message && r.sending == q.sending && r.count == q.count
      && |q.waiting| <= |r.waiting| && r.waiting[..|q.waiting|] == q.waiting
      && CutUp(r.waiting[|q.waiting|..], msg, size)
  {
    hide Numbered, Full;
    PiecesAre(msg, size, 1);
  }

  /** Netchan_CreateFragments cuts up the message under construction, which is empty afterwards, and
      behind it the new one. */
  lemma FragmentedIs(q: Queue, msg: seq<Byte>, size: nat)
    requires size > 0
    ensures Fragmented(q, msg, size).None? <==> size > 1400 && (|q.message.data| > 1400 || |msg| > 1400)
    ensures Fragmented(q, msg, size).Some? ==>
      var (r, n) := (Fragmented(q, msg, size).value, |q.waiting| + if q.message.data == [] then 0 else 1);
      && r.message == q.message.(data := []) && r.sending == q.sending && r.count == q.count
      && n <= |r.waiting| && r.waiting[..|q.waiting|] == q.waiting
      && CutUp(r.waiting[|q.waiting|..n], q.message.data, size) && CutUp(r.waiting[n..], msg, size)
  {
    hide CutUp, Added;
    AddedIs(q, q.message.data, size);
    if Flushed(q, size).Some? {
      var f := Flushed(q, size).value;
      AddedIs(f, msg, size);
      CutUpLength(f.waiting[|q.waiting|..], q.message.data, size);
      if Added(f, msg, size).Some? {
        var r := Added(f, msg, size).value;
        assert r.waiting[..|q.waiting|] == f.waiting[..|q.waiting|];
        assert r.waiting[|q.waiting|..|f.waiting|] == f.waiting[|q.waiting|..];
      }
    }
  }

  lemma CutUpLength(hs: seq<Holder>, msg: seq<Byte>, size: nat)
    requires CutUp(hs, msg, size)
    ensures |hs| == if msg == [] then 0 else 1
  {
  }

  /** Fragments go first.  A message of at most 1200 bytes stays under construction meanwhile; a
      longer one joins the queue as fragments. */
  ghost predicate MessageWaits(q: Queue, message: Buf, waiting: seq<Holder>, size: nat) {
    if |q.message.data| <= 1200 then message == q.message && waiting == Behind(q)
    else
      && message == q.message.(data := []) && |waiting| == |Behind(q)| + 1
      && waiting[..|Behind(q)|] == Behind(q) && CutFrom(waiting[|Behind(q)|], q.message.data, size)
  }

  /** A packet with the next number, the last number and bit taken, and the pending part if rel. */
  ghost predicate SentAs(c: Chan, d: Chan, r: Outcome, rel: bool) {
    && d.outSeq == c.outSeq + 1 && d.lastRel == (if rel then c.outSeq else c.lastRel)
    && d.inSeq == c.inSeq && d.inAck == c.inAck && d.inRelAck == c.inRelAck && d.inRel == c.inRel
    && d.inbox == c.inbox
    && (r.Sent? ==>
      var p := r.packet;
      && p.seqno == c.outSeq && p.ack == c.inSeq && p.ackRel == c.inRel && p.rel == rel
      && p.frag == (if rel then d.head else None) && p.reliable == (if rel then d.reliable else []))
  }

  /** A packet carries the numbers of its channel and, if it is reliable, the part that is due. */
  lemma PackedAs(c: Chan, rel: bool, resend: bool, arg: seq<Byte>)
    ensures var r := Packed(c, rel, resend, arg);
      r.Sent? ==>
        var p := r.packet;
        && p.seqno == c.outSeq && p.ack == c.inSeq && p.ackRel == c.inRel && p.rel == rel
        && p.frag == (if rel then c.head else None) && p.reliable == (if rel then c.reliable else [])
  {
  }

  /** With no fragment in line, the whole message goes, as it is, and nothing else. */
  lemma TakesMessage(c: Chan, arg: seq<Byte>, size: nat)
    requires size > 0 && c.reliable == [] && !c.queue.message.overflowed
    requires InLine(c.queue).frags == [] && c.queue.message.data != []
    ensures var (d, r) := Transmitted(c, arg, size);
      && SentAs(c, d, r, true) && d.outRel != c.outRel
      && d.reliable == c.queue.message.data && d.head == None
      && d.queue.message == c.queue.message.(data := []) && d.queue.sending == []
      && d.queue.waiting == Behind(c.queue)
  {
  }

  lemma LongMessageCut(q: Queue, size: nat)
    requires size > 0 && InLine(q).frags != []
    ensures Prepared(q, size).None? <==> size > 1400 && |q.message.data| > 1400
    ensures var p := Prepared(q, size); p.Some? ==>
      MessageWaits(q, p.value.message, p.value.waiting, size)
      && p.value.sending == InLine(q).frags && p.value.count == InLine(q).count
  {
    hide Numbered, Full;
    PiecesAre(q.message.data, size, 1);
  }

  /** The fragment first in line goes alone, under its number and the number of them all, if it is
      shorter than 1200 bytes; a longer one blocks the line. */
  lemma TakesFragment(c: Chan, arg: seq<Byte>, size: nat)
    requires size > 0 && c.reliable == [] && !c.queue.message.overflowed && InLine(c.queue).frags != []
    ensures var ((d, r), m, line) := (Transmitted(c, arg, size), c.queue.message.data, InLine(c.queue));
      var f := line.frags[0];
      if size > 1400 && |m| > 1400 then d == c && r == Fatal
      else
        && SentAs(c, d, r, true) && d.outRel != c.outRel
        && MessageWaits(c.queue, d.queue.message, d.queue.waiting, size) && d.queue.count == line.count
        && if |f.data| < 1200 then
             && d.reliable == f.data && d.head == Some(f.id % 0x1_0000 * 0x1_0000 + line.count % 0x1_0000)
             && d.queue.sending == line.frags[1..]
           else d.reliable == [] && d.head == None && d.queue.sending == line.frags
  {
    hide MessageWaits, Prepared, Packed, InLine, Resends, Advanced;
    LongMessageCut(c.queue, size);
    TransmittedIs(c, arg, size);
    if Prepared(c.queue, size).Some? {
      PackedAs(Loaded(c.(queue := Prepared(c.queue, size).value)), true, Resends(c), arg);
    }
  }

  /** With nothing queued there is nothing to take; a part that was lost is sent again empty. */
  lemma TakesNothing(c: Chan, arg: seq<Byte>, size: nat)
    requires size > 0 && c.reliable == [] && !c.queue.message.overflowed
    requires InLine(c.queue).frags == [] && c.queue.message.data == []
    ensures var (d, r) := Transmitted(c, arg, size);
      && SentAs(c, d, r, c.inAck > c.lastRel && c.inRelAck != c.outRel) && d.outRel == c.outRel
      && d.reliable == [] && d.head == None
      && d.queue.message == c.queue.message && d.queue.sending == [] && d.queue.waiting == Behind(c.queue)
  {
  }

  /** While a part is pending nothing is taken; it goes again where it was lost. */
  lemma TakesNone(c: Chan, arg: seq<Byte>, size: nat)
    requires size > 0 && c.reliable != [] && !c.queue.message.overflowed
    ensures var (d, r) := Transmitted(c, arg, size);
      && SentAs(c, d, r, c.inAck > c.lastRel && c.inRelAck != c.outRel) && d.outRel == c.outRel
      && d.reliable == c.reliable && d.head == c.head && d.queue == c.queue
  {
  }

  // ----- what becomes of a packet

  /** The packet is not for the channel: the header of its fragment makes no sense, or its number is
      not higher than the last one taken. */
  predicate Unwanted(c: Chan, p: Packet) {
    || p.seqno <= c.inSeq
    || (p.frag.Some? &&
      !(p.frag.value / 0x1_0000 <= 25000 && p.frag.value % 0x1_0000 <= 25000 && |p.reliable| <= 2048))
  }

  /** An unwanted packet changes nothing; another one counts as the last heard, and clears the
      pending part where it bears its bit and not more than one packet came after that part.  A
      fragment longer than its buffer is fatal. */
  lemma ReceiptIs(c: Chan, p: Packet)
    ensures var ((d, r), pieces) := (Processed(c, p), p.frag.Some? && p.frag.value != 0);
      && (r == Dropped <==> Unwanted(c, p)) && (r == Dropped ==> d == c)
      && (r == Death <==> !Unwanted(c, p) && pieces && |p.reliable| > 1400)
      && (r == Taken ==>
        && d.inSeq == p.seqno && d.inAck == p.ack && d.inRelAck == p.ackRel && (d.inRel == c.inRel <==> !p.rel)
        && d.reliable == (if p.ackRel == c.outRel && c.lastRel <= c.inAck + 1 then [] else c.reliable)
        && d.outSeq == c.outSeq && d.lastRel == c.lastRel && d.outRel == c.outRel && d.queue == c.queue
        && d.head == c.head
        && (!pieces ==> d.inbox == c.inbox)
        && (pieces ==> Frag(p.frag.value, p.reliable) in d.inbox.frags))
  {
    hide High, Slot;
    if p.frag.Some? { ArrivedIsThere(c.inbox, Frag(p.frag.value, p.reliable)); }
  }

  lemma ArrivedIsThere(box: Inbox, f: Frag)
    ensures f in Arrived(box, f).frags
  {
    var (k, l) := (Slot(box.frags, f.id), Linked(box.frags, f));
    assert l[k] == f;
    var i := Find(box.frags, f.id, 0);
    assert i < |box.frags| ==> box.frags[i := f][i] == f;
  }
}
