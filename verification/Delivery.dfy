/** What the receiver of NET.c makes of the reliable parts it takes, and what a sender must have
    queued so that this is every byte in order. */
module Delivery {
  import opened Basics
  import opened Netchan
  import opened Fragments
  import opened Order
  import opened Stream

  // ----- what the receiver makes of the payloads

  /** The fragments received of a message in progress, and every byte delivered. */
  datatype Flow = Flow(box: Inbox, out: seq<Byte>)

  function FlowStep(f: Flow, x: Payload): Flow {
    match x.head
    case None => f.(out := f.out + x.data)
    case Some(w) =>
      var (box, m) := Opened(Arrived(f.box, Frag(w, x.data)));
      Flow(box, if m.Some? then f.out + m.value else f.out)
  }

  function Flowed(ps: seq<Payload>): Flow {
    if ps == [] then Flow(Inbox([], false), []) else FlowStep(Flowed(ps[..|ps| - 1]), ps[|ps| - 1])
  }

  function Sum(ps: seq<Payload>): seq<Byte> {
    if ps == [] then [] else Sum(ps[..|ps| - 1]) + ps[|ps| - 1].data
  }

  /** The inbox holds nothing, or the first of the fragments of one message, but not the last. */
  ghost predicate Partial(frags: seq<Frag>) {
    && AllShort(frags) && |Joined(frags)| < MAX_ASSEMBLED
    && exists n :: |frags| < n <= MAX_FRAGMENTS && Begun(frags, n)
  }

  /** Nothing is lost or out of order: what was delivered and what waits in the inbox are all the
      bytes of the payloads. */
  ghost predicate Faithful(ps: seq<Payload>) {
    Flowed(ps).out + Joined(Flowed(ps).box.frags) == Sum(ps) && Partial(Flowed(ps).box.frags)
  }

  lemma NoneIsPartial()
    ensures Partial([])
  {
    assert Begun([], 1);
  }

  ghost predicate AlwaysFaithful(ps: seq<Payload>) {
    forall k :: 0 <= k <= |ps| ==> Faithful(ps[..k])
  }

  lemma FlowedNext(ps: seq<Payload>, x: Payload)
    ensures Flowed(ps + [x]) == FlowStep(Flowed(ps), x) && Sum(ps + [x]) == Sum(ps) + x.data
  {
    assert (ps + [x])[..|ps|] == ps;
  }

  lemma AlwaysNext(ps: seq<Payload>, x: Payload)
    requires AlwaysFaithful(ps) && Faithful(ps + [x])
    ensures AlwaysFaithful(ps + [x])
  {
    forall k | 0 <= k <= |ps| + 1 ensures Faithful((ps + [x])[..k]) {
      if k <= |ps| { assert (ps + [x])[..k] == ps[..k]; } else { assert (ps + [x])[..k] == ps + [x]; }
    }
  }

  lemma {:induction false} SumPrefix(ps: seq<Payload>, k: nat)
    requires k <= |ps|
    ensures Sum(ps[..k]) <= Sum(ps)
    decreases |ps|
  {
    if k < |ps| {
      SumPrefix(ps[..|ps| - 1], k);
      assert ps[..|ps| - 1][..k] == ps[..k];
    } else {
      assert ps[..k] == ps;
    }
  }

  // ----- what the sender has queued

  ghost predicate FragOk(f: Frag) {
    0 < |f.data| < FRAGMENT_LIMIT
  }

  ghost predicate FragsOk(fs: seq<Frag>) {
    forall i :: 0 <= i < |fs| ==> FragOk(fs[i])
  }

  /** A holder with the fragments of one message that travels. */
  ghost predicate HolderOk(h: Holder) {
    && h.count == |h.frags| && 0 < |h.frags| <= MAX_FRAGMENTS
    && Numbered(h.frags, 1) && FragsOk(h.frags) && |Joined(h.frags)| <= MAX_ASSEMBLED
  }

  ghost predicate WaitingOk(hs: seq<Holder>) {
    forall i :: 0 <= i < |hs| ==> HolderOk(hs[i])
  }

  ghost predicate AllShort(fs: seq<Frag>) {
    forall i :: 0 <= i < |fs| ==> Short(fs[i])
  }

  /** The fragments in the box and those to be sent are the message in progress. */
  ghost predicate InProgress(box: Inbox, q: Queue) {
    && !box.ready && Begun(box.frags, q.count) && AllShort(box.frags)
    && FragsOk(q.sending) && Numbered(q.sending, |box.frags| + 1)
    && (q.sending == [] ==> box.frags == [])
    && (q.sending != [] ==> |box.frags| + |q.sending| == q.count <= MAX_FRAGMENTS)
    && |Joined(box.frags)| + |Joined(q.sending)| <= MAX_ASSEMBLED
  }

  ghost predicate QueueOk(box: Inbox, q: Queue) {
    && WaitingOk(q.waiting) && InProgress(box, q)
    && q.message.max == MAX_MESSAGE && |q.message.data| <= MAX_MESSAGE
  }

  lemma QueuePartial(box: Inbox, q: Queue)
    requires QueueOk(box, q)
    ensures Partial(box.frags)
  {
    if q.sending == [] {
      NoneIsPartial();
    } else {
      assert FragOk(q.sending[0]) && Begun(box.frags, q.count);
    }
  }

  lemma QueueHeld(box: Inbox, q: Queue)
    requires QueueOk(box, q)
    ensures Held(q)
  {
    forall i | 0 <= i < |q.waiting| ensures HeldAt(q, i) {
      assert HolderOk(q.waiting[i]);
    }
  }

  lemma {:induction false} PiecesCount(msg: seq<Byte>, size: nat, id: nat)
    requires size > 0
    ensures |Pieces(msg, size, id)| <= |msg|
    decreases |msg|
  {
    if msg != [] { PiecesCount(msg[if size <= |msg| then size else |msg|..], size, id + 1); }
  }

  /** A fragment size and a message that go through. */
  ghost predicate Sendable(msg: seq<Byte>, size: nat) {
    0 < size < FRAGMENT_LIMIT && |msg| <= MAX_ASSEMBLED && |Pieces(msg, size, 1)| <= MAX_FRAGMENTS
  }

  lemma HolderIsOk(msg: seq<Byte>, size: nat)
    requires msg != [] && Sendable(msg, size)
    ensures HolderOk(HolderOf(msg, size))
  {
    var frags := Pieces(msg, size, 1);
    PiecesAre(msg, size, 1);
    forall i | 0 <= i < |frags| ensures FragOk(frags[i]) {
      assert FullAt(frags, size, i);
    }
  }

  lemma AddedOk(box: Inbox, q: Queue, msg: seq<Byte>, size: nat)
    requires QueueOk(box, q) && Sendable(msg, size)
    ensures Added(q, msg, size).Some? && QueueOk(box, Added(q, msg, size).value)
  {
    if msg != [] {
      HolderIsOk(msg, size);
      var hs := q.waiting + [HolderOf(msg, size)];
      forall i | 0 <= i < |hs| ensures HolderOk(hs[i]) {
        if i < |q.waiting| { assert HolderOk(q.waiting[i]); }
      }
    }
  }

  lemma FlushedOk(box: Inbox, q: Queue, size: nat)
    requires QueueOk(box, q) && 0 < size < FRAGMENT_LIMIT
    ensures Flushed(q, size).Some? && QueueOk(box, Flushed(q, size).value)
  {
    PiecesCount(q.message.data, size, 1);
    AddedOk(box, q, q.message.data, size);
  }

  lemma FragmentedOk(box: Inbox, q: Queue, msg: seq<Byte>, size: nat)
    requires QueueOk(box, q) && Sendable(msg, size)
    ensures Fragmented(q, msg, size).Some? && QueueOk(box, Fragmented(q, msg, size).value)
  {
    FlushedOk(box, q, size);
    AddedOk(box, Flushed(q, size).value, msg, size);
  }

  lemma AdvancedOk(box: Inbox, q: Queue)
    requires QueueOk(box, q)
    ensures QueueOk(box, Advanced(q))
  {
    if q.sending == [] && q.waiting != [] {
      assert HolderOk(q.waiting[0]);
      var a := Advanced(q);
      forall i | 0 <= i < |a.waiting| ensures HolderOk(a.waiting[i]) {
        assert HolderOk(q.waiting[i + 1]);
      }
    }
  }

  lemma PreparedOk(box: Inbox, q: Queue, size: nat)
    requires QueueOk(box, q) && 0 < size < FRAGMENT_LIMIT
    ensures Prepared(q, size).Some? && QueueOk(box, Prepared(q, size).value)
  {
    AdvancedOk(box, q);
    FlushedOk(box, Advanced(q), size);
  }

  // ----- loading a payload

  lemma {:induction false} JoinedAppend(fs: seq<Frag>, f: Frag)
    ensures Joined(fs + [f]) == Joined(fs) + f.data
    decreases |fs|
  {
    if fs == [] {
      assert [f][1..] == [] && f.data + [] == f.data;
    } else {
      JoinedAppend(fs[1..], f);
      assert (fs + [f])[1..] == fs[1..] + [f];
    }
  }

  /** The payload that a loaded channel has taken. */
  function Load(c: Chan): Payload {
    Payload(c.head, c.reliable)
  }

  /** A message that goes directly is delivered at once. */
  lemma DirectFlows(f: Flow, c: Chan)
    requires QueueOk(f.box, c.queue) && c.queue.sending == [] && c.queue.message.data != []
    ensures var (l, g) := (Loaded(c), FlowStep(f, Load(Loaded(c))));
      && l.reliable != [] && QueueOk(g.box, l.queue)
      && g.out + Joined(g.box.frags) == f.out + Joined(f.box.frags) + l.reliable
  {
  }

  /** The next fragment is filed, or completes the message, which is all its bytes. */
  lemma FilesNext(box: Inbox, n: nat, w: Frag)
    requires !box.ready && Begun(box.frags, n) && AllShort(box.frags) && Short(w)
    requires |box.frags| < n <= MAX_FRAGMENTS && w.id == Word(|box.frags| + 1, n)
    requires |Joined(box.frags)| + |w.data| <= MAX_ASSEMBLED
    ensures var (b, m) := Opened(Arrived(box, w));
      && !b.ready && Begun(b.frags, n) && AllShort(b.frags)
      && (|box.frags| + 1 == n ==> b.frags == [] && m == Some(Joined(box.frags) + w.data))
      && (|box.frags| + 1 < n ==>
        b.frags == box.frags + [w] && m == None && Joined(b.frags) == Joined(box.frags) + w.data)
  {
    var filed := box.frags + [w];
    NextArrives(box.frags, n, w);
    JoinedAppend(box.frags, w);
    hide Arrived, Word, Gathered;
    if |filed| == n {
      GatherIff(NetMessage(), filed);
      assert NetMessage().data + Joined(filed) == Joined(filed);
    }
  }

  /** A fragment joins those before it, or completes the message, which is delivered. */
  lemma FragmentFlows(f: Flow, c: Chan)
    requires QueueOk(f.box, c.queue) && c.queue.sending != []
    ensures var (l, g) := (Loaded(c), FlowStep(f, Load(Loaded(c))));
      && l.reliable != [] && QueueOk(g.box, l.queue)
      && g.out + Joined(g.box.frags) == f.out + Joined(f.box.frags) + l.reliable
  {
    hide Arrived, Opened, Begun, AllShort, Word, WaitingOk, Joined;
    var (q, s) := (c.queue, c.queue.sending[0]);
    assert FragOk(s) && NumberedAt(q.sending, |f.box.frags| + 1, 0);
    RestNumbered(q.sending, |f.box.frags| + 1);
    NothingJoined();
    FilesNext(f.box, q.count, Frag(Word(s.id, q.count), s.data));
  }

  lemma NothingJoined()
    ensures Joined([]) == []
  {
  }

  /** Either way the payload flows, and leaves the queue in order. */
  lemma LoadFlows(f: Flow, c: Chan)
    requires QueueOk(f.box, c.queue) && (c.queue.sending != [] || c.queue.message.data != [])
    ensures var (l, g) := (Loaded(c), FlowStep(f, Load(Loaded(c))));
      && l.reliable != [] && QueueOk(g.box, l.queue) && l.queue.message.overflowed == c.queue.message.overflowed
      && g.out + Joined(g.box.frags) == f.out + Joined(f.box.frags) + l.reliable
  {
    if c.queue.sending == [] { DirectFlows(f, c); } else { FragmentFlows(f, c); }
  }

  lemma RestNumbered(fs: seq<Frag>, id: nat)
    requires fs != [] && Numbered(fs, id) && FragsOk(fs)
    ensures Numbered(fs[1..], id + 1) && FragsOk(fs[1..]) && |Joined(fs[1..])| == |Joined(fs)| - |fs[0].data|
  {
    forall i | 0 <= i < |fs[1..]| ensures NumberedAt(fs[1..], id + 1, i) && FragOk(fs[1..][i]) {
      assert NumberedAt(fs, id, i + 1) && FragOk(fs[i + 1]);
    }
  }
}
