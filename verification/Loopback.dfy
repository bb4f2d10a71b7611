/** The loopback ring of NET.c: two rings of four message slots through which the client and the
    server of one process exchange packets.  The free-running get and send counters index the
    ring modulo four; a sender never waits, so a slow reader loses the oldest messages. */
module Loopback {
  import opened Basics

  const MAX_LOOPBACK := 4
  const MAX_UDP_PACKET_DATA_SIZE := 8346

  type Message = seq<Byte>

  // ----- the bounded queue the ring stands for

  function LastFour(q: seq<Message>): (r: seq<Message>)
    ensures |r| == (if |q| < MAX_LOOPBACK then |q| else MAX_LOOPBACK)
    ensures r == q[|q| - |r|..]
  {
    if |q| <= MAX_LOOPBACK then q else q[|q| - MAX_LOOPBACK..]
  }

  datatype Op = Send(msg: Message) | Get

  /** A run of the queue: everything sent, the send positions of what was got, and what waits. */
  datatype History = History(sent: seq<Message>, got: seq<nat>, queue: seq<Message>) {
    function Step(op: Op): History {
      match op
      case Send(m) => History(sent + [m], got, LastFour(queue + [m]))
      case Get =>
        if queue == [] then this
        else History(sent, got + [if |queue| <= |sent| then |sent| - |queue| else 0], queue[1..])
    }
  }

  function Run(ops: seq<Op>): History {
    if ops == [] then History([], [], []) else Run(ops[..|ops| - 1]).Step(ops[|ops| - 1])
  }

  ghost predicate Fifo(h: History) {
    && |h.queue| <= MAX_LOOPBACK && |h.queue| <= |h.sent|
    && h.queue == h.sent[|h.sent| - |h.queue|..]
    && (forall i :: 0 <= i < |h.got| ==> h.got[i] < |h.sent| - |h.queue|)
    && (forall i, j :: 0 <= i < j < |h.got| ==> h.got[i] < h.got[j])
    && (forall k :: 0 <= k < |h.sent| - |h.queue| ==> Got(h, k) || k + MAX_LOOPBACK < |h.sent|)
  }

  ghost predicate Got(h: History, k: nat) {
    k in h.got
  }

  lemma SendKeepsFifo(h: History, m: Message)
    requires Fifo(h)
    ensures Fifo(h.Step(Send(m)))
  {
    var h' := h.Step(Send(m));
    var q := h.queue + [m];
    assert q == h'.sent[|h'.sent| - |q|..];
    assert h'.queue == h'.sent[|h'.sent| - |q|..][|q| - |h'.queue|..];
    forall k | 0 <= k < |h'.sent| - |h'.queue| ensures Got(h', k) || k + MAX_LOOPBACK < |h'.sent| {
      assert k < |h.sent| - |h.queue| ==> Got(h, k) || k + MAX_LOOPBACK < |h.sent|;
    }
  }

  lemma GetKeepsFifo(h: History)
    requires Fifo(h)
    ensures Fifo(h.Step(Get))
  {
    var h' := h.Step(Get);
    if h.queue != [] {
      assert h'.got[|h.got|] == |h.sent| - |h.queue|;
      forall k | 0 <= k < |h'.sent| - |h'.queue| ensures Got(h', k) || k + MAX_LOOPBACK < |h'.sent| {
        assert k < |h.sent| - |h.queue| ==> Got(h, k) || k + MAX_LOOPBACK < |h.sent|;
      }
    }
  }

  /** Over every interleaving of sends and gets: messages are got in the order they were sent and
      at most once, what waits is a suffix of what was sent, and a message that is neither waiting
      nor got was overtaken by at least four later ones. */
  lemma {:induction false} RunIsFifo(ops: seq<Op>)
    ensures Fifo(Run(ops))
  {
    if ops != [] {
      RunIsFifo(ops[..|ops| - 1]);
      match ops[|ops| - 1]
      case Send(m) => SendKeepsFifo(Run(ops[..|ops| - 1]), m);
      case Get => GetKeepsFifo(Run(ops[..|ops| - 1]));
    }
  }

  lemma RunNext(ops: seq<Op>, op: Op)
    ensures Run(ops + [op]) == Run(ops).Step(op)
  {
    assert (ops + [op])[..|ops|] == ops;
  }

  lemma SlotsDiffer(k: nat, n: nat)
    requires k < n < k + MAX_LOOPBACK
    ensures k % MAX_LOOPBACK != n % MAX_LOOPBACK
  {
  }

  ghost predicate Holds(slots: seq<Message>, sent: seq<Message>, k: nat)
    requires |slots| == MAX_LOOPBACK && k < |sent|
  {
    slots[k % MAX_LOOPBACK] == sent[k]
  }

  /** The slots hold the latest four messages. */
  ghost predicate HoldsLatest(slots: seq<Message>, sent: seq<Message>)
    requires |slots| == MAX_LOOPBACK
  {
    forall k :: 0 <= k < |sent| && |sent| - MAX_LOOPBACK <= k ==> Holds(slots, sent, k)
  }

  lemma HoldsNext(slots: seq<Message>, sent: seq<Message>, m: Message)
    requires |slots| == MAX_LOOPBACK && HoldsLatest(slots, sent)
    ensures HoldsLatest(slots[|sent| % MAX_LOOPBACK := m], sent + [m])
  {
    var (t, s) := (slots[|sent| % MAX_LOOPBACK := m], sent + [m]);
    forall k | 0 <= k < |s| && |s| - MAX_LOOPBACK <= k ensures Holds(t, s, k) {
      if k < |sent| {
        assert Holds(slots, sent, k);
        SlotsDiffer(k, |sent|);
      }
    }
  }

  /** A send goes to the end of the queue that the messages from next on form. */
  lemma QueueNext(sent: seq<Message>, next: nat, m: Message)
    requires next <= |sent| <= next + MAX_LOOPBACK
    ensures var s := sent + [m];
      s[if |s| - next > MAX_LOOPBACK then |s| - MAX_LOOPBACK else next..] == LastFour(sent[next..] + [m])
  {
    assert (sent + [m])[next..] == sent[next..] + [m];
  }

  /** A get takes the message at next, where the queue begins. */
  lemma GetIs(ops: seq<Op>, sent: seq<Message>, next: nat)
    requires next <= |sent| && Run(ops).sent == sent && Run(ops).queue == sent[next..]
    ensures var (h, h') := (Run(ops), Run(ops).Step(Get));
      if next == |sent| then h' == h
      else h'.sent == sent && h'.queue == sent[next + 1..] && h'.got == h.got + [next]
  {
  }

  // ----- the ring

  class Ring {
    const msgs: array<Message>
    var get: nat
    var send: nat
    ghost var sent: seq<Message>  // every message ever sent
    ghost var ops: seq<Op>        // every send and get so far

    ghost predicate Formed()
      reads this, msgs
    {
      && msgs.Length == MAX_LOOPBACK
      && get <= send == |sent|
      && HoldsLatest(msgs[..], sent)
    }

    /** The ring holds what its run of sends and gets has left in the queue. */
    ghost predicate Valid()
      reads this, msgs
    {
      Formed() && Run(ops).sent == sent && Run(ops).queue == Waiting()
    }

    /** Where the next get reads. */
    ghost function Next(): nat
      reads this
    {
      if send - get > MAX_LOOPBACK then send - MAX_LOOPBACK else get
    }

    /** The messages a reader can still get. */
    ghost function Waiting(): seq<Message>
      reads this
    {
      if Next() <= |sent| then sent[Next()..] else []
    }

    /** So the ring delivers in order, and loses only what four later messages overtook. */
    lemma RingIsFifo()
      requires Valid()
      ensures Fifo(Run(ops)) && Run(ops).sent == sent && Run(ops).queue == Waiting()
    {
      RunIsFifo(ops);
    }

    constructor ()
      ensures Valid() && sent == [] && ops == [] && fresh(msgs)
    {
      msgs := new Message[MAX_LOOPBACK](_ => []);
      get, send, sent, ops := 0, 0, [], [];
    }

    /** Returns false where the original stops with "Loopback buffer is too small". */
    method Put(data: Message) returns (ok: bool)
      requires Valid()
      modifies this`send, this`sent, this`ops, msgs
      ensures ok <==> |data| <= MAX_UDP_PACKET_DATA_SIZE
      ensures ok ==> Valid() && sent == old(sent) + [data] && ops == old(ops) + [Send(data)]
      ensures ok ==> Waiting() == LastFour(old(Waiting()) + [data])
    {
      hide Run, LastFour;
      var i := send % MAX_LOOPBACK;
      send := send + 1;
      if |data| > MAX_UDP_PACKET_DATA_SIZE { return false; }
      HoldsNext(msgs[..], sent, data);
      QueueNext(sent, old(Next()), data);
      RunNext(ops, Send(data));
      ghost var slots := msgs[..];
      msgs[i] := data;
      assert msgs[..] == slots[i := data];
      sent := sent + [data];
      ops := ops + [Send(data)];
      return true;
    }

    /** Fails only where the original stops because the receiving buffer is too small. */
    method Take(maxsize: nat) returns (ok: bool, m: Option<Message>)
      requires Valid()
      modifies this`get, this`ops
      ensures ok ==> Valid() && ops == old(ops) + [Get]
      ensures ok && m.Some? ==> Run(ops).got == old(Run(ops).got) + [old(Next())]
      ensures old(Waiting()) == [] ==> ok && m == None && Waiting() == []
      ensures old(Waiting()) != [] ==> (ok <==> |old(Waiting())[0]| <= maxsize)
      ensures ok && old(Waiting()) != [] ==> m == Some(old(Waiting())[0]) && Waiting() == old(Waiting())[1..]
      ensures ok && m.Some? ==> get == old(Next()) + 1 && m.value == sent[old(Next())]
    {
      hide Run, Fifo;
      RunNext(ops, Get);
      GetIs(ops, sent, Next());
      ops := ops + [Get];
      if send - get > MAX_LOOPBACK {
        get := send - MAX_LOOPBACK;
      }
      if get >= send { return true, None; }
      assert Holds(msgs[..], sent, get) && msgs[..][get % MAX_LOOPBACK] == msgs[get % MAX_LOOPBACK];
      var i := get % MAX_LOOPBACK;
      get := get + 1;
      if maxsize < |msgs[i]| { return false, None; }
      return true, Some(msgs[i]);
    }
  }

  /** The two rings; ring s holds what socket s is to receive. */
  class Loopbacks {
    const client: Ring
    const server: Ring

    constructor ()
      ensures client != server && client.msgs != server.msgs
      ensures client.Valid() && server.Valid() && client.sent == [] && server.sent == []
      ensures fresh(client) && fresh(server) && fresh(client.msgs) && fresh(server.msgs)
    {
      client := new Ring();
      server := new Ring();
    }

    function Of(sock: nat): Ring
      requires sock < 2
    {
      if sock == 0 then client else server
    }

    ghost predicate Valid()
      reads this, client, server, client.msgs, server.msgs
    {
      client != server && client.msgs != server.msgs && client.Valid() && server.Valid()
    }

    /** A packet sent on one socket waits for the other socket, and only there. */
    method SendLoopPacket(sock: nat, data: Message) returns (ok: bool)
      requires Valid() && sock < 2
      modifies Of(1 - sock)`send, Of(1 - sock)`sent, Of(1 - sock)`ops, Of(1 - sock).msgs
      ensures ok <==> |data| <= MAX_UDP_PACKET_DATA_SIZE
      ensures ok ==> Valid()
      ensures ok ==> Of(1 - sock).ops == old(Of(1 - sock).ops) + [Send(data)]
      ensures ok ==> Of(1 - sock).Waiting() == LastFour(old(Of(1 - sock).Waiting()) + [data])
      ensures ok ==> Of(sock).Waiting() == old(Of(sock).Waiting())
    {
      hide Run, HoldsLatest, LastFour;
      var loop := Of(1 - sock);
      ghost var other := Of(sock);
      ghost var slots := other.msgs[..];
      assert loop != other && loop.msgs != other.msgs;
      ok := loop.Put(data);
      assert other.msgs[..] == slots;
    }

    method GetLoopPacket(sock: nat, maxsize: nat) returns (ok: bool, m: Option<Message>)
      requires Valid() && sock < 2
      modifies Of(sock)`get, Of(sock)`ops
      ensures ok ==> Valid() && Of(sock).ops == old(Of(sock).ops) + [Get]
      ensures old(Of(sock).Waiting()) == [] ==> ok && m == None && Of(sock).Waiting() == []
      ensures old(Of(sock).Waiting()) != [] ==> (ok <==> |old(Of(sock).Waiting())[0]| <= maxsize)
      ensures ok && old(Of(sock).Waiting()) != [] ==>
                m == Some(old(Of(sock).Waiting())[0]) && Of(sock).Waiting() == old(Of(sock).Waiting())[1..]
      ensures ok ==> Of(1 - sock).Waiting() == old(Of(1 - sock).Waiting())
    {
      hide Run, HoldsLatest;
      var loop := Of(sock);
      ok, m := loop.Take(maxsize);
    }
  }
}
