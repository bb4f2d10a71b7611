/** The master server's list of game servers (SrvrNtwk.cc): a doubly linked list sorted by hash,
    and a singly linked pool of spare nodes. */
module MasterServer {
  import opened Basics
  import opened Paging

  const POOL_MAX := 750
  const POOL_MIN := 50
  const POOL_CHUNK := 400

  class Server {
    var left: Server?       // the next server, also the next spare node
    var previous: Server?
    var booleans: bv8
    var address: Word
    var port: Short
    var lastHeartbeat: Word
    var hash: nat
    var players: Short
    var maxplayers: Short
    var gameDir: string

    /** A node just allocated; the original leaves its contents undefined. */
    constructor ()
    {
      left, previous := null, null;
      booleans, address, port, lastHeartbeat, hash, players, maxplayers := 0, 0, 0, 0, 0, 0, 0;
      gameDir := "";
    }
  }

  /** port ^ (IP << 16) | (IP >> 16) */
  function Mix(ip: bv32, port: bv32): bv32 {
    (port ^ (ip << 16)) | (ip >> 16)
  }

  /** The low half of the address stands above the port, in which the bits of the high half are set. */
  lemma MixIs(ip: bv32, port: bv32)
    requires port < 0x1_0000
    ensures Mix(ip, port) >> 16 == ip & 0xFFFF && Mix(ip, port) & 0xFFFF == port | (ip >> 16)
  {
  }

  /** The two halves of the mixed bits, without the topmost. */
  predicate Halves(mixed: bv32, ip: bv32, port: bv32) {
    (mixed >> 16) & 0x7FFF == ip & 0x7FFF && mixed & 0xFFFF == port | (ip >> 16)
  }

  /** The low fifteen bits of the addresses agree, and so do the bits that are set in the port or in
      the high half of the address. */
  predicate Alike(ip: bv32, port: bv32, ip': bv32, port': bv32) {
    ip & 0x7FFF == ip' & 0x7FFF && port | (ip >> 16) == port' | (ip' >> 16)
  }

  lemma MixHalves(ip: bv32, port: bv32, mixed: bv32)
    requires mixed == Mix(ip, port) && port < 0x1_0000
    ensures Halves(mixed, ip, port)
  {
  }

  lemma SameHalves(x: bv32, y: bv32)
    ensures x & 0x7FFF_FFFF == y & 0x7FFF_FFFF <==> (x >> 16) & 0x7FFF == (y >> 16) & 0x7FFF && x & 0xFFFF == y & 0xFFFF
  {
  }

  lemma SameSum(x: bv32, y: bv32, offset: bv32)
    ensures (x + offset) & 0x7FFF_FFFF == (y + offset) & 0x7FFF_FFFF <==> x & 0x7FFF_FFFF == y & 0x7FFF_FFFF
  {
  }

  /** The mixed bits displaced by the offset give the same hash. */
  predicate SameHash(x: bv32, y: bv32, offset: bv32) {
    (x + offset) & 0x7FFF_FFFF == (y + offset) & 0x7FFF_FFFF
  }

  lemma HalvesCollide(x: bv32, y: bv32, ip: bv32, port: bv32, ip': bv32, port': bv32, offset: bv32)
    requires Halves(x, ip, port) && Halves(y, ip', port')
    ensures SameHash(x, y, offset) <==> Alike(ip, port, ip', port')
  {
    SameHalves(x, y);
    SameSum(x, y, offset);
  }

  lemma MixesCollide(ip: bv32, port: bv32, ip': bv32, port': bv32, offset: bv32)
    requires port < 0x1_0000 && port' < 0x1_0000
    ensures SameHash(Mix(ip, port), Mix(ip', port'), offset) <==> Alike(ip, port, ip', port')
  {
    hide Mix, Alike, Halves, SameHash;
    MixHalves(ip, port, Mix(ip, port));
    MixHalves(ip', port', Mix(ip', port'));
    HalvesCollide(Mix(ip, port), Mix(ip', port'), ip, port, ip', port', offset);
  }

  lemma ThereAndBack(x: bv32)
    ensures x as int as bv32 == x
  {
  }

  lemma SameInt(x: bv32, y: bv32)
    ensures x as int == y as int <==> x == y
  {
    ThereAndBack(x);
    ThereAndBack(y);
  }

  /** The mixed bits and the offset, without the topmost bit. */
  function HashOf(mixed: bv32, offset: bv32): nat {
    ((mixed + offset) & 0x7FFF_FFFF) as int
  }

  predicate HasBits(x: bv32, offset: bv32, h: bv32) {
    h == (x + offset) & 0x7FFF_FFFF
  }

  lemma HashOfBits(x: bv32, offset: bv32, h: bv32)
    requires HasBits(x, offset, h)
    ensures HashOf(x, offset) == h as int
  {
  }

  lemma SameBits(x: bv32, y: bv32, offset: bv32, h: bv32)
    requires HasBits(x, offset, h)
    ensures HasBits(y, offset, h) <==> SameHash(x, y, offset)
  {
  }

  lemma SomeBits(x: bv32, offset: bv32) returns (h: bv32)
    ensures HasBits(x, offset, h)
  {
    h := (x + offset) & 0x7FFF_FFFF;
  }

  lemma SameNumber(x: bv32, y: bv32, offset: bv32)
    ensures HashOf(x, offset) == HashOf(y, offset) <==> SameHash(x, y, offset)
  {
    hide HashOf, HasBits, SameHash;
    var h := SomeBits(x, offset);
    var h' := SomeBits(y, offset);
    SameBits(x, y, offset, h);
    HashOfBits(x, offset, h);
    HashOfBits(y, offset, h');
    SameInt(h, h');
    if SameHash(x, y, offset) { HashOfBits(y, offset, h); }
  }

  lemma ShortBits(n: Short)
    ensures n as bv32 < 0x1_0000
  {
  }

  // ----- the filter of a listing request

  datatype Request = Request(flags: bv32, moddir: string)

  /** The C operator ! applied to a byte. */
  function Not(b: bv8): bv8 {
    if b == 0 then 1 else 0
  }

  /** ServerTypeCheck as it is written: the four checks on the flag byte expand to
      !booleans & mask, where ! binds tighter than &. */
  predicate TypeCheck(q: Request, booleans: bv8, players: Short, maxplayers: Short, gameDir: string) {
    && !(q.flags & 1 == 1 && q.moddir != gameDir)
    && !((q.flags >> 1) & 1 == 1 && Not(booleans) & 0x10 != 0)
    && !((q.flags >> 2) & 1 == 1 && players == maxplayers)
    && !((q.flags >> 3) & 1 == 1 && players == 0)
    && !((q.flags >> 4) & 1 == 1 && Not(booleans) & 0x80 != 0)
    && !((q.flags >> 5) & 1 == 1 && Not(booleans) & 0x04 != 0)
    && !((q.flags >> 6) & 1 == 1 && Not(booleans) & 0x20 != 0)
  }

  /** The dedicated, linux, proxy and secure filters never reject a server: only the mod name and
      the player counts decide. */
  lemma OnlyModAndPlayersFilter(q: Request, booleans: bv8, players: Short, maxplayers: Short, gameDir: string)
    ensures TypeCheck(q, booleans, players, maxplayers, gameDir) <==>
      && (q.flags & 1 == 1 ==> q.moddir == gameDir)
      && ((q.flags >> 2) & 1 == 1 ==> players != maxplayers)
      && ((q.flags >> 3) & 1 == 1 ==> players != 0)
  {
    assert Not(booleans) & 0x10 == 0 && Not(booleans) & 0x80 == 0 && Not(booleans) & 0x04 == 0
      && Not(booleans) & 0x20 == 0;
  }

  // ----- chains of nodes

  ghost predicate Distinct(s: seq<Server>) {
    forall i, j :: 0 <= i < |s| && 0 <= j < |s| ==> Differ(s, i, j)
  }

  ghost predicate Differ(s: seq<Server>, i: nat, j: nat)
    requires i < |s| && j < |s|
  {
    i != j ==> s[i] != s[j]
  }

  ghost predicate Within(s: seq<Server>, t: seq<Server>) {
    forall i :: 0 <= i < |s| ==> s[i] in t
  }

  ghost predicate Disjoint(s: seq<Server>, t: seq<Server>) {
    forall i :: 0 <= i < |s| ==> s[i] !in t
  }

  function At(s: seq<Server>, i: int): Server? {
    if 0 <= i < |s| then s[i] else null
  }

  ghost predicate LinkAt(s: seq<Server>, i: nat)
    requires i < |s|
    reads s`left
  {
    s[i].left == At(s, i + 1)
  }

  ghost predicate BackLinkAt(s: seq<Server>, i: nat)
    requires i < |s|
    reads s`previous
  {
    s[i].previous == At(s, i - 1)
  }

  /** The left links lead through s and end in NULL. */
  ghost predicate Linked(s: seq<Server>)
    reads s`left
  {
    forall i :: 0 <= i < |s| ==> LinkAt(s, i)
  }

  /** The previous links lead back through s. */
  ghost predicate BackLinked(s: seq<Server>)
    reads s`previous
  {
    forall i :: 0 <= i < |s| ==> BackLinkAt(s, i)
  }

  ghost predicate KeyAt(s: seq<Server>, hs: seq<nat>, i: nat)
    requires i < |s| == |hs|
    reads s`hash
  {
    hs[i] == s[i].hash
  }

  /** The hashes of the servers of s are hs. */
  ghost predicate Keyed(s: seq<Server>, hs: seq<nat>)
    reads s`hash
  {
    |s| == |hs| && forall i :: 0 <= i < |s| ==> KeyAt(s, hs, i)
  }

  ghost predicate Ascending(h: seq<nat>) {
    forall i, j :: 0 <= i < |h| && 0 <= j < |h| ==> InOrder(h, i, j)
  }

  ghost predicate InOrder(h: seq<nat>, i: nat, j: nat)
    requires i < |h| && j < |h|
  {
    i < j ==> h[i] <= h[j]
  }

  lemma ChainFrom(s: seq<Server>, k: nat)
    requires k <= |s| && Linked(s) && Distinct(s)
    ensures Linked(s[k..]) && Distinct(s[k..])
    ensures forall i :: 0 <= i < k ==> s[i] !in s[k..]
  {
    var t := s[k..];
    forall i | 0 <= i < |t| ensures LinkAt(t, i) {
      assert LinkAt(s, k + i);
    }
    forall i, j | 0 <= i < |t| && 0 <= j < |t| ensures Differ(t, i, j) {
      assert Differ(s, k + i, k + j);
    }
    forall i, j | 0 <= i < k && 0 <= j < |t| ensures s[i] != t[j] {
      assert Differ(s, i, k + j);
    }
  }

  lemma ChainInFront(n: Server, s: seq<Server>)
    requires Linked(s) && Distinct(s) && n.left == At(s, 0) && n !in s
    ensures Linked([n] + s) && Distinct([n] + s)
  {
    var t := [n] + s;
    forall i | 0 <= i < |t| ensures LinkAt(t, i) {
      assert i > 0 ==> LinkAt(s, i - 1);
    }
    forall i, j | 0 <= i < |t| && 0 <= j < |t| ensures Differ(t, i, j) {
      if i > 0 && j > 0 { assert Differ(s, i - 1, j - 1); }
    }
  }

  twostate lemma LinksKept(s: seq<Server>)
    requires old(Linked(s)) && forall i {:trigger s[i]} :: 0 <= i < |s| ==> s[i].left == old(s[i].left)
    ensures Linked(s)
  {
    forall i | 0 <= i < |s| ensures LinkAt(s, i) {
      assert old(LinkAt(s, i));
    }
  }

  twostate lemma BackLinksKept(s: seq<Server>)
    requires old(BackLinked(s)) && forall i {:trigger s[i]} :: 0 <= i < |s| ==> s[i].previous == old(s[i].previous)
    ensures BackLinked(s)
  {
    forall i | 0 <= i < |s| ensures BackLinkAt(s, i) {
      assert old(BackLinkAt(s, i));
    }
  }

  /** Server n is linked in before position k. */
  lemma LinkedWith(s: seq<Server>, k: nat, n: Server)
    requires k <= |s| && n.left == At(s, k) && n.previous == At(s, k - 1)
    requires forall i :: 0 <= i < |s| ==> if i == k - 1 then s[i].left == n else LinkAt(s, i)
    requires forall i :: 0 <= i < |s| ==> if i == k then s[i].previous == n else BackLinkAt(s, i)
    ensures Linked(With(s, k, n)) && BackLinked(With(s, k, n))
  {
    var t := With(s, k, n);
    forall i | 0 <= i < |t| ensures LinkAt(t, i) && BackLinkAt(t, i) {
      if i < k {
        assert t[i] == s[i] && (i != k - 1 ==> LinkAt(s, i)) && BackLinkAt(s, i);
      } else if i > k {
        assert t[i] == s[i - 1] && LinkAt(s, i - 1) && (i - 1 != k ==> BackLinkAt(s, i - 1));
      }
    }
  }

  /** Server s[k] is linked out. */
  lemma LinkedWithout(s: seq<Server>, k: nat)
    requires k < |s|
    requires forall i :: 0 <= i < |s| && i != k ==> if i == k - 1 then s[i].left == At(s, k + 1) else LinkAt(s, i)
    requires forall i :: 0 <= i < |s| && i != k ==>
      if i == k + 1 then s[i].previous == At(s, k - 1) else BackLinkAt(s, i)
    ensures Linked(Without(s, k)) && BackLinked(Without(s, k))
  {
    var t := Without(s, k);
    forall i | 0 <= i < |t| ensures LinkAt(t, i) && BackLinkAt(t, i) {
      if i < k {
        assert t[i] == s[i] && (i != k - 1 ==> LinkAt(s, i)) && BackLinkAt(s, i);
      } else {
        assert t[i] == s[i + 1] && LinkAt(s, i + 1) && (i != k ==> BackLinkAt(s, i + 1));
      }
    }
  }

  lemma WithDisjoint(s: seq<Server>, hs: seq<nat>, k: nat, n: Server, t: seq<Server>)
    requires k <= |s| && Distinct(s) && Disjoint(s, t) && n !in s && n !in t && Keyed(s, hs)
    ensures Distinct(With(s, k, n)) && Disjoint(With(s, k, n), t)
    ensures Keyed(With(s, k, n), With(hs, k, n.hash))
  {
    var w, ws := With(s, k, n), With(hs, k, n.hash);
    forall i, j | 0 <= i < |w| && 0 <= j < |w| ensures Differ(w, i, j) {
      if i != k && j != k {
        assert Differ(s, if i < k then i else i - 1, if j < k then j else j - 1);
      }
    }
    forall i | 0 <= i < |w| ensures KeyAt(w, ws, i) {
      if i != k { assert KeyAt(s, hs, if i < k then i else i - 1); }
    }
  }

  lemma WithoutDisjoint(s: seq<Server>, hs: seq<nat>, k: nat, t: seq<Server>)
    requires k < |s| && Distinct(s) && Disjoint(s, t) && Keyed(s, hs) && Ascending(hs)
    ensures Distinct(Without(s, k)) && Disjoint(Without(s, k), t) && s[k] !in Without(s, k)
    ensures Keyed(Without(s, k), Without(hs, k)) && Ascending(Without(hs, k))
  {
    var w, ws := Without(s, k), Without(hs, k);
    forall i, j | 0 <= i < |w| && 0 <= j < |w|
      ensures Differ(w, i, j) && InOrder(ws, i, j)
    {
      var i', j' := if i < k then i else i + 1, if j < k then j else j + 1;
      assert Differ(s, i', j') && InOrder(hs, i', j');
    }
    forall i | 0 <= i < |w| ensures w[i] != s[k] && KeyAt(w, ws, i) {
      var i' := if i < k then i else i + 1;
      assert Differ(s, i', k) && KeyAt(s, hs, i');
    }
  }

  /** The pool after one more node was freed. */
  function Pooled(pool: seq<Server>, n: Server): (p: seq<Server>)
    ensures |pool| <= POOL_MAX ==> |p| <= POOL_MAX
    ensures forall x :: x in p ==> x in pool || x == n
  {
    var p := [n] + pool;
    if |p| > POOL_MAX then p[POOL_CHUNK..] else p
  }

  /** The pool after the nodes of s were freed in order. */
  function PooledAll(pool: seq<Server>, s: seq<Server>): seq<Server> {
    if s == [] then pool else Pooled(PooledAll(pool, s[..|s| - 1]), s[|s| - 1])
  }

  /** A node joins the pool in front; beyond 750 nodes the 400 in front are freed. */
  lemma PooledIs(pool: seq<Server>, n: Server)
    requires |pool| <= 750
    ensures |pool| < 750 ==> Pooled(pool, n) == [n] + pool
    ensures |pool| == 750 ==> Pooled(pool, n) == pool[399..]
  {
    if |pool| == 750 { assert ([n] + pool)[400..] == pool[399..]; }
  }

  /** The nodes of s, last freed first. */
  function Reversed(s: seq<Server>): (r: seq<Server>)
    ensures |r| == |s| && forall i :: 0 <= i < |s| ==> r[i] == s[|s| - 1 - i]
  {
    seq(|s|, i requires 0 <= i < |s| => s[|s| - 1 - i])
  }

  /** Freed nodes are lost only by four hundreds, and none while the pool has room for all. */
  lemma {:induction false} PooledAllCounts(pool: seq<Server>, s: seq<Server>) returns (m: nat)
    requires |pool| <= 750
    ensures |PooledAll(pool, s)| + 400 * m == |pool| + |s| && |PooledAll(pool, s)| <= 750
    ensures |pool| + |s| <= 750 ==> m == 0 && PooledAll(pool, s) == Reversed(s) + pool
    decreases |s|
  {
    m := 0;
    if s == [] {
      assert Reversed(s) + pool == pool;
    } else {
      var before := s[..|s| - 1];
      m := PooledAllCounts(pool, before);
      PooledIs(PooledAll(pool, before), s[|s| - 1]);
      if |PooledAll(pool, before)| == 750 { m := m + 1; }
      assert Reversed(s) == [s[|s| - 1]] + Reversed(before);
      assert [s[|s| - 1]] + (Reversed(before) + pool) == ([s[|s| - 1]] + Reversed(before)) + pool;
    }
  }

  /** No node is lost, or four hundred at a time; all are pooled while there is room. */
  ghost predicate Conserved(listed: seq<Server>, spare: seq<Server>, listed': seq<Server>, spare': seq<Server>,
                            m: nat) {
    && |listed'| + |spare'| + 400 * m == |listed| + |spare| && |spare'| <= 750
    && (|listed| - |listed'| + |spare| <= 750 ==>
        && m == 0 && |listed'| <= |listed| && spare' == spare'[..|listed| - |listed'|] + spare
        && forall x :: x in listed ==> x in listed' || x in spare')
  }

  /** The marks say which servers of s were last heard of before the cutoff. */
  ghost predicate Marked(s: seq<Server>, stale: seq<bool>, cutoff: nat)
    reads s`lastHeartbeat
  {
    |stale| == |s| && forall i {:trigger stale[i]} :: 0 <= i < |s| ==> (stale[i] <==> s[i].lastHeartbeat < cutoff)
  }

  /** Of the first n servers of s, those that are marked as wanted, in order. */
  function Pick(s: seq<Server>, marks: seq<bool>, wanted: bool, n: nat): seq<Server>
    requires n <= |s| == |marks|
  {
    if n == 0 then []
    else Pick(s, marks, wanted, n - 1) + (if marks[n - 1] == wanted then [s[n - 1]] else [])
  }

  lemma PooledNext(pool: seq<Server>, s: seq<Server>, x: Server)
    ensures PooledAll(pool, s + [x]) == Pooled(PooledAll(pool, s), x)
  {
    assert (s + [x])[..|s|] == s;
  }

  /** The servers of a and b together are those of s, each as often as in s. */
  ghost predicate Splits(a: seq<Server>, b: seq<Server>, s: seq<Server>) {
    multiset(a) + multiset(b) == multiset(s)
  }

  /** The two picks together hold the servers of s. */
  lemma {:induction false} PicksPartition(s: seq<Server>, marks: seq<bool>, n: nat)
    requires n <= |s| == |marks|
    ensures Splits(Pick(s, marks, true, n), Pick(s, marks, false, n), s[..n])
    decreases n
  {
    if n == 0 {
      assert s[..n] == [];
    } else {
      hide Pick, Splits;
      PicksPartition(s, marks, n - 1);
      PickNext(s, marks, true, n);
      PickNext(s, marks, false, n);
      assert s[..n] == s[..n - 1] + [s[n - 1]];
      PickGrows(s[..n - 1], Pick(s, marks, true, n - 1), Pick(s, marks, false, n - 1), s[n - 1]);
    }
  }

  /** The marked servers among the first n, in their old order: f tells where they were. */
  lemma {:induction false} PickIs(s: seq<Server>, marks: seq<bool>, wanted: bool, n: nat) returns (f: seq<nat>)
    requires n <= |s| == |marks|
    ensures Embeds(f, Pick(s, marks, wanted, n), s[..n])
    ensures forall i :: 0 <= i < n && marks[i] == wanted ==> s[i] in Pick(s, marks, wanted, n)
    ensures forall k :: 0 <= k < |f| ==> marks[f[k]] == wanted
    decreases n
  {
    f := [];
    if n > 0 {
      f := PickIs(s, marks, wanted, n - 1);
      if marks[n - 1] == wanted { f := f + [n - 1]; }
    }
  }

  /** s is part of t, in the same order: element k of s is element f[k] of t. */
  ghost predicate Embeds(f: seq<nat>, s: seq<Server>, t: seq<Server>) {
    && |f| == |s| && (forall k :: 0 <= k < |f| ==> f[k] < |t| && s[k] == t[f[k]])
    && forall j, k :: 0 <= j < k < |f| ==> f[j] < f[k]
  }

  ghost predicate PartOf(s: seq<Server>, t: seq<Server>) {
    exists f :: Embeds(f, s, t)
  }

  lemma PicksCount(s: seq<Server>, marks: seq<bool>)
    requires |s| == |marks|
    ensures |Pick(s, marks, true, |s|)| + |Pick(s, marks, false, |s|)| == |s|
  {
    PicksPartition(s, marks, |s|);
    var (a, b) := (Pick(s, marks, true, |s|), Pick(s, marks, false, |s|));
    assert s[..|s|] == s && |multiset(a)| == |a| && |multiset(b)| == |b|;
    assert |multiset(a) + multiset(b)| == |multiset(s)| == |s|;
  }

  /** What is left and what is pooled when the marked servers of all are removed. */
  lemma RemovalConserves(all: seq<Server>, stale: seq<bool>, pool: seq<Server>) returns (m: nat)
    requires |stale| == |all| && |pool| <= 750 && Distinct(all)
    ensures var kept := Pick(all, stale, false, |all|);
      && PartOf(kept, all) && (forall i :: 0 <= i < |all| ==> (all[i] in kept <==> !stale[i]))
      && Conserved(all, pool, kept, PooledAll(pool, Pick(all, stale, true, |all|)), m)
  {
    hide Pick, PooledAll, Pooled;
    var kept, gone := Pick(all, stale, false, |all|), Pick(all, stale, true, |all|);
    assert all[..|all|] == all;
    var f := PickIs(all, stale, false, |all|);
    var g := PickIs(all, stale, true, |all|);
    PicksCount(all, stale);
    m := PooledAllCounts(pool, gone);
    forall i | 0 <= i < |all| ensures all[i] in kept <==> !stale[i] {
      if all[i] in kept {
        var k :| 0 <= k < |kept| && kept[k] == all[i];
        assert Differ(all, f[k], i);
      }
    }
    if |all| - |kept| + |pool| <= 750 {
      var spare := PooledAll(pool, gone);
      assert spare == spare[..|gone|] + pool;
      forall x | x in all ensures x in kept || x in spare {
        var i :| 0 <= i < |all| && all[i] == x;
        if stale[i] {
          var k :| 0 <= k < |gone| && gone[k] == x;
          assert spare[|gone| - 1 - k] == x;
        }
      }
    }
  }

  lemma PickNext(s: seq<Server>, marks: seq<bool>, wanted: bool, n: nat)
    requires 0 < n <= |s| == |marks|
    ensures Pick(s, marks, wanted, n) ==
      Pick(s, marks, wanted, n - 1) + (if marks[n - 1] == wanted then [s[n - 1]] else [])
  {
  }

  lemma PickGrows(s: seq<Server>, a: seq<Server>, b: seq<Server>, x: Server)
    requires Splits(a, b, s)
    ensures Splits(a + [x], b + [], s + [x]) && Splits(a + [], b + [x], s + [x])
  {
    assert a + [] == a && b + [] == b;
  }

  /** The list and the pool after the first i servers of all were dealt with. */
  ghost predicate TimingOut(all: seq<Server>, stale: seq<bool>, i: nat, pool0: seq<Server>,
                            servers: seq<Server>, pool: seq<Server>)
    requires i <= |all| == |stale|
  {
    && servers == Pick(all, stale, false, i) + all[i..]
    && pool == PooledAll(pool0, Pick(all, stale, true, i))
  }

  lemma TimingStarts(all: seq<Server>, stale: seq<bool>, pool: seq<Server>)
    requires |all| == |stale|
    ensures TimingOut(all, stale, 0, pool, all, pool)
  {
  }

  lemma RoundStart(all: seq<Server>, stale: seq<bool>, i: nat, pool0: seq<Server>, servers: seq<Server>,
                   pool: seq<Server>)
    requires i < |all| == |stale| && TimingOut(all, stale, i, pool0, servers, pool)
    ensures var k := |Pick(all, stale, false, i)|;
      k < |servers| && servers[k] == all[i] && At(servers, k + 1) == At(all, i + 1)
  {
  }

  lemma RoundEnd(all: seq<Server>, stale: seq<bool>, i: nat, pool0: seq<Server>,
                 before: seq<Server>, poolBefore: seq<Server>, servers: seq<Server>, pool: seq<Server>)
    requires i < |all| == |stale| && TimingOut(all, stale, i, pool0, before, poolBefore)
    requires var k := |Pick(all, stale, false, i)|;
      if stale[i] then k < |before| && servers == Without(before, k) && pool == Pooled(poolBefore, all[i])
      else servers == before && pool == poolBefore
    ensures TimingOut(all, stale, i + 1, pool0, servers, pool)
  {
    var kept := Pick(all, stale, false, i);
    var gone := Pick(all, stale, true, i);
    PooledNext(pool0, gone, all[i]);
    assert gone + [] == gone && kept + [] == kept;
    assert Without(kept + all[i..], |kept|) == kept + all[i + 1..];
    assert kept + [all[i]] + all[i + 1..] == kept + all[i..];
  }

  /** Where AddNode links a server of hash h: before the head if that is larger, else behind the
      head and every following server of smaller hash. */
  function InsertIndex(hs: seq<nat>, h: nat): (k: nat)
    ensures k <= |hs|
  {
    if hs == [] || hs[0] > h then 0 else Behind(hs, h, 0) + 1
  }

  function Behind(hs: seq<nat>, h: nat, i: nat): (k: nat)
    requires i < |hs|
    ensures i <= k < |hs|
    decreases |hs| - i
  {
    if i + 1 < |hs| && hs[i + 1] < h then Behind(hs, h, i + 1) else i
  }

  lemma {:induction false} BehindIs(hs: seq<nat>, h: nat, i: nat)
    requires i < |hs| && hs[i] <= h && Ascending(hs)
    ensures var k := Behind(hs, h, i);
      && (forall j :: 0 <= j <= k ==> hs[j] <= h)
      && (forall j :: k < j < |hs| ==> hs[j] >= h)
    decreases |hs| - i
  {
    if i + 1 < |hs| && hs[i + 1] < h {
      BehindIs(hs, h, i + 1);
    } else {
      forall j | 0 <= j < |hs| ensures if j <= i then hs[j] <= h else hs[j] >= h {
        assert InOrder(hs, j, i);
        if j > i { assert InOrder(hs, i + 1, j); }
      }
    }
  }

  /** A new hash goes in front of a higher first one, and otherwise behind the first and all lower
      ones, in front of the rest. */
  lemma InsertIs(hs: seq<nat>, h: nat)
    requires Ascending(hs)
    ensures var k := InsertIndex(hs, h);
      && (k == 0 <==> hs == [] || hs[0] > h)
      && (forall j :: 0 < j < k ==> hs[j] < h)
      && (forall j :: 0 < k <= j < |hs| ==> hs[j] >= h)
  {
    if hs != [] && hs[0] <= h {
      BehindIs(hs, h, 0);
      BehindLower(hs, h, 0);
    }
  }

  lemma {:induction false} BehindLower(hs: seq<nat>, h: nat, i: nat)
    requires i < |hs|
    ensures forall j :: i < j <= Behind(hs, h, i) ==> hs[j] < h
    decreases |hs| - i
  {
    if i + 1 < |hs| && hs[i + 1] < h { BehindLower(hs, h, i + 1); }
  }

  /** Inserting where AddNode does keeps the hashes sorted. */
  lemma InsertKeepsAscending(hs: seq<nat>, h: nat)
    requires Ascending(hs)
    ensures Ascending(With(hs, InsertIndex(hs, h), h))
  {
    var k := InsertIndex(hs, h);
    if hs != [] && hs[0] <= h { BehindIs(hs, h, 0); }
    var w := With(hs, k, h);
    forall i, j | 0 <= i < |w| && 0 <= j < |w| ensures InOrder(w, i, j) {
      if i != k && j != k {
        assert InOrder(hs, if i < k then i else i - 1, if j < k then j else j - 1);
      } else if k == 0 && 1 < j {
        assert InOrder(hs, 0, j - 1);
      }
    }
  }

  class ServerList {
    var first: Server?        // BeginningOfServerlist
    var firstFree: Server?
    var reserve: nat          // ReserveNodes
    const hashOffset: bv32    // drawn at random once
    ghost var servers: seq<Server>
    ghost var hashes: seq<nat>  // those of the servers
    ghost var pool: seq<Server>

    /** Everything but the head pointer. */
    ghost predicate Chained()
      reads this, servers, pool
    {
      && Linked(servers) && BackLinked(servers) && Distinct(servers) && Keyed(servers, hashes) && Ascending(hashes)
      && Linked(pool) && Distinct(pool) && firstFree == At(pool, 0)
      && Disjoint(servers, pool)
      && reserve == |pool| <= POOL_MAX
    }

    ghost predicate Valid()
      reads this, servers, pool
    {
      Chained() && first == At(servers, 0)
    }

    constructor (offset: bv32)
      ensures Valid() && servers == [] && pool == [] && hashOffset == offset
    {
      first, firstFree, reserve, hashOffset := null, null, 0, offset;
      servers, hashes, pool := [], [], [];
    }

    // ----- nodes

    /** Hands out a node, first asking for 400 more when fewer than 50 are spare, of which
        `granted` are obtained before memory runs out. */
    method NewNode(granted: nat) returns (r: Server?)
      requires Valid() && granted <= POOL_CHUNK
      modifies this`firstFree, this`reserve, this`pool, pool
      ensures Valid() && servers == old(servers)
      ensures r == null <==> old(pool) == [] && granted == 0
      ensures forall x :: x in pool ==> x in old(pool) || fresh(x)
      ensures r != null ==> r !in pool && r !in servers && (r in old(pool) || fresh(r))
      ensures r != null ==> r.left == null && r.previous == null && r.hash == 0 && r.lastHeartbeat == 0
      ensures r != null ==> |pool| + 1 == |old(pool)| + (if |old(pool)| < POOL_MIN then granted else 0)
      ensures r != null && |old(pool)| >= POOL_MIN ==> r == old(pool)[0] && pool == old(pool)[1..]
    {
      if reserve < POOL_MIN {
        GrowPool(granted);
      }
      r := firstFree;
      if r == null { return; }
      TakeFirst();
      label taken:
      r.left, r.previous := null, null;
      r.booleans, r.address, r.port, r.lastHeartbeat, r.hash, r.players, r.maxplayers := 0, 0, 0, 0, 0, 0, 0;
      r.gameDir := "";
      ServersKept@taken();
      LinksKept@taken(pool);
    }

    /** Pools new nodes until 400 or no memory is left. */
    method GrowPool(granted: nat)
      requires Valid() && granted <= POOL_CHUNK && reserve < POOL_MIN
      modifies this`firstFree, this`reserve, this`pool
      ensures Valid() && servers == old(servers)
      ensures |pool| == |old(pool)| + granted && pool[granted..] == old(pool)
      ensures forall j :: 0 <= j < granted ==> fresh(pool[j])
    {
      var i := 0;
      while i < POOL_CHUNK
        invariant 0 <= i <= granted && Valid()
        invariant |pool| == |old(pool)| + i && pool[i..] == old(pool)
        invariant forall j :: 0 <= j < i ==> fresh(pool[j])
        invariant servers == old(servers)
      {
        if i == granted { break; }
        PoolOne();
        i := i + 1;
      }
    }

    /** Allocates one node for the pool. */
    method PoolOne()
      requires Valid() && reserve < POOL_MAX
      modifies this`firstFree, this`reserve, this`pool
      ensures Valid() && servers == old(servers) && reserve == old(reserve) + 1
      ensures |pool| == |old(pool)| + 1 && pool[1..] == old(pool) && fresh(pool[0])
    {
      var ptr := new Server();
      ptr.left := firstFree;
      ServersKept();
      LinksKept(pool);
      ChainInFront(ptr, pool);
      firstFree := ptr;
      reserve := reserve + 1;
      pool := [ptr] + pool;
    }

    method TakeFirst()
      requires Valid() && pool != []
      modifies this`firstFree, this`reserve, this`pool
      ensures Valid() && servers == old(servers)
      ensures pool == old(pool)[1..] && old(pool)[0] !in pool
    {
      assert LinkAt(pool, 0);
      firstFree := firstFree.left;
      reserve := reserve - 1;
      ChainFrom(pool, 1);
      pool := pool[1..];
    }

    twostate lemma ServersKept()
      requires servers == old(servers) && hashes == old(hashes)
      requires old(Linked(servers) && BackLinked(servers) && Keyed(servers, hashes))
      requires forall i {:trigger servers[i]} :: 0 <= i < |servers| ==>
                 var x := servers[i]; x.left == old(x.left) && x.previous == old(x.previous) && x.hash == old(x.hash)
      ensures Linked(servers) && BackLinked(servers) && Keyed(servers, hashes)
    {
      LinksKept(servers);
      BackLinksKept(servers);
      forall i | 0 <= i < |servers| ensures KeyAt(servers, hashes, i) {
        assert old(KeyAt(servers, hashes, i));
      }
    }

    method FreeUnlinkedNode(n: Server)
      requires Valid() && n !in servers && n !in pool
      modifies this`firstFree, this`reserve, this`pool, n`left
      ensures Valid() && servers == old(servers)
      ensures |old(pool)| < 750 ==> pool == [n] + old(pool) && reserve == old(reserve) + 1
      ensures |old(pool)| == 750 ==> pool == old(pool)[399..] && reserve == 351
      ensures pool == Pooled(old(pool), n)
    {
      PooledIs(pool, n);
      hide Ascending, BackLinked, Keyed;
      n.left := firstFree;
      ServersKept();
      LinksKept(pool);
      ChainInFront(n, pool);
      firstFree := n;
      reserve := reserve + 1;
      pool := [n] + pool;
      if reserve > POOL_MAX { Trim(); }
    }

    /** Frees the first nodes of the pool. */
    method Trim()
      requires reserve == |pool| > POOL_MAX && firstFree == At(pool, 0) && Linked(pool) && Distinct(pool)
      modifies this`firstFree, this`reserve, this`pool
      ensures reserve == |pool| && firstFree == At(pool, 0) && Linked(pool) && Distinct(pool)
      ensures pool == old(pool)[POOL_CHUNK..]
    {
      ghost var all := pool;
      var i := 0;
      while i < POOL_CHUNK
        invariant 0 <= i <= POOL_CHUNK && pool == all[i..]
        invariant reserve == |pool| && firstFree == At(pool, 0) && Linked(pool) && Distinct(pool)
        modifies this`firstFree, this`reserve, this`pool
      {
        assert LinkAt(pool, 0);
        firstFree := firstFree.left;
        reserve := reserve - 1;
        ChainFrom(pool, 1);
        pool := pool[1..];
        i := i + 1;
      }
    }

    // ----- linking and unlinking

    method AddNode(n: Server)
      requires Valid() && n !in servers && n !in pool
      modifies this`first, this`servers, this`hashes, n`left, n`previous, servers`left, servers`previous
      ensures Valid()
      ensures servers == With(old(servers), InsertIndex(old(hashes), n.hash), n)
    {
      hide Ascending, BackLinked, Distinct, Disjoint;
      InsertKeepsAscending(hashes, n.hash);
      var ptr := first;
      assert servers != [] ==> KeyAt(servers, hashes, 0);
      if ptr == null {
        Link(n, null, null, 0);
        first := n;
      } else if ptr.hash > n.hash {
        Link(n, null, ptr, 0);
        first := n;
      } else {
        ghost var i := 0;
        assert LinkAt(servers, 0) && KeyAt(servers, hashes, 0);
        while ptr.left != null && ptr.left.hash < n.hash
          invariant 0 <= i < |servers| && ptr == servers[i] && ptr.left == At(servers, i + 1)
          invariant Behind(hashes, n.hash, 0) == Behind(hashes, n.hash, i)
          decreases |servers| - i
        {
          assert KeyAt(servers, hashes, i + 1);
          ptr := ptr.left;
          i := i + 1;
          assert LinkAt(servers, i);
        }
        assert i + 1 < |servers| ==> KeyAt(servers, hashes, i + 1);
        Link(n, ptr, ptr.left, i + 1);
      }
    }

    /** Links n in between two neighbours. */
    method Link(n: Server, previous: Server?, left: Server?, ghost k: nat)
      requires Chained() && n !in servers && n !in pool
      requires k <= |servers| && previous == At(servers, k - 1) && left == At(servers, k)
      requires Ascending(With(hashes, k, n.hash))
      modifies this`servers, this`hashes, n`left, n`previous, servers`left, servers`previous
      ensures Chained() && servers == With(old(servers), k, n)
    {
      Splice(n, previous, left, servers, k);
      LinkedWith(servers, k, n);
      LinksKept(pool);
      WithDisjoint(servers, hashes, k, n, pool);
      servers, hashes := With(servers, k, n), With(hashes, k, n.hash);
    }

    /** Unlinks a listed server and pools its node; NULL is reported and ignored.  The head
        pointer may already have moved on when the head is deleted. */
    method DeleteNode(n: Server?, ghost k: nat)
      requires Chained() && (n != null ==> k < |servers| && servers[k] == n)
      requires first == At(servers, 0) || (n != null && k == 0)
      modifies this, servers`left, servers`previous
      ensures Valid()
      ensures n == null ==> servers == old(servers) && pool == old(pool)
      ensures n != null ==> servers == Without(old(servers), k) && pool == Pooled(old(pool), n)
      ensures n != null ==> if |old(pool)| < 750 then pool == [n] + old(pool) else pool == old(pool)[399..]
    {
      if n != null {
        PooledIs(pool, n);
        Unlink(n, k);
        FreeUnlinkedNode(n);
      }
    }

    // ----- timeouts and flushing

    /** Deletes the servers not heard of since the cutoff.  The others stay in their old order, and the
        nodes of those deleted are pooled. */
    method ServerTimeouts(cutoff: nat) returns (ghost m: nat)
      requires Valid()
      modifies this, servers`left, servers`previous
      ensures Valid()
      ensures forall x :: x in servers <==> x in old(servers) && x.lastHeartbeat >= cutoff
      ensures PartOf(servers, old(servers)) && Conserved(old(servers), old(pool), servers, pool, m)
    {
      hide Pick, PooledAll, PartOf, Conserved;
      ghost var all := servers;
      ghost var stale := ExpireAll(cutoff);
      m := RemovalConserves(all, stale, old(pool));
      forall x ensures x in servers <==> x in all && x.lastHeartbeat >= cutoff {
        if x in all {
          var i :| 0 <= i < |all| && all[i] == x;
          assert stale[i] <==> x.lastHeartbeat < cutoff;
        }
      }
    }

    /** The loop over the list. */
    method ExpireAll(cutoff: nat) returns (ghost stale: seq<bool>)
      requires Valid()
      modifies this, servers`left, servers`previous
      ensures Valid() && Distinct(old(servers)) && Within(servers, old(servers))
      ensures Marked(old(servers), stale, cutoff)
      ensures servers == Pick(old(servers), stale, false, |stale|)
      ensures pool == PooledAll(old(pool), Pick(old(servers), stale, true, |stale|))
    {
      hide Pick, PooledAll;
      stale := MarkStale(cutoff);
      ghost var all, i := servers, 0;
      TimingStarts(all, stale, pool);
      var ptr := first;
      while ptr != null
        invariant Valid() && 0 <= i <= |all| && ptr == At(all, i)
        invariant |stale| == |all| && TimingOut(all, stale, i, old(pool), servers, pool)
        invariant Within(servers, all)
        invariant Marked(all, stale, cutoff)
        decreases |all| - i
      {
        ptr := ExpireOne(ptr, cutoff, all, stale, i, old(pool));
        i := i + 1;
      }
      assert all[i..] == [];
    }

    ghost method MarkStale(cutoff: nat) returns (stale: seq<bool>)
      ensures Marked(servers, stale, cutoff)
    {
      var all := servers;
      stale := seq(|all|, i requires 0 <= i < |all| reads all => all[i].lastHeartbeat < cutoff);
    }

    /** One round of the timeout loop: remembers the following server, then deletes this one if it
        timed out. */
    method ExpireOne(ptr: Server, cutoff: nat, ghost all: seq<Server>, ghost stale: seq<bool>, ghost i: nat,
                     ghost pool0: seq<Server>)
      returns (ptr2: Server?)
      requires Valid() && i < |all| == |stale| && ptr == all[i] && Within(servers, all)
      requires TimingOut(all, stale, i, pool0, servers, pool) && Marked(all, stale, cutoff)
      modifies this, all`left, all`previous
      ensures Valid() && ptr2 == At(all, i + 1) && Within(servers, all) && Marked(all, stale, cutoff)
      ensures TimingOut(all, stale, i + 1, pool0, servers, pool)
    {
      hide Pick, PooledAll;
      ghost var k := |Pick(all, stale, false, i)|;
      RoundStart(all, stale, i, pool0, servers, pool);
      assert LinkAt(servers, k);
      ptr2 := ptr.left;
      ghost var before, poolBefore := servers, pool;
      if ptr.lastHeartbeat < cutoff {
        DeleteNode(ptr, k);
      }
      RoundEnd(all, stale, i, pool0, before, poolBefore, servers, pool);
    }

    /** Deletes every server; the head pointer moves on before each node is deleted. */
    method FlushServers() returns (ghost m: nat)
      requires Valid()
      modifies this, servers`left, servers`previous
      ensures Valid() && servers == [] && first == null
      ensures Conserved(old(servers), old(pool), [], pool, m)
    {
      hide PooledAll;
      ghost var all, spare := servers, pool;
      FlushAll();
      m := PooledAllCounts(spare, all);
      if |all| + |spare| <= 750 {
        assert pool == pool[..|all|] + spare;
        forall x | x in all ensures x in pool {
          var i :| 0 <= i < |all| && all[i] == x;
          assert pool[|all| - 1 - i] == x;
        }
      }
    }

    /** The loop over the list. */
    method FlushAll()
      requires Valid()
      modifies this, servers`left, servers`previous
      ensures Valid() && servers == [] && first == null
      ensures pool == PooledAll(old(pool), old(servers))
    {
      ghost var all, i := servers, 0;
      while first != null
        invariant Valid() && 0 <= i <= |all| && servers == all[i..]
        invariant pool == PooledAll(old(pool), all[..i])
        decreases |all| - i
      {
        var ptr := first;
        first := first.left;
        DeleteNode(ptr, 0);
        assert all[..i + 1][..i] == all[..i];
        i := i + 1;
      }
      assert all[..i] == all;
    }

    // ----- searching

    /** The first server of a hash. */
    method FindNodeByHash(hash: nat) returns (r: Server?, ghost k: nat)
      requires Valid()
      ensures r == null ==> forall x :: x in servers ==> x.hash != hash
      ensures r != null ==> k < |servers| && r == servers[k] && r.hash == hash
      ensures r != null ==> forall j :: 0 <= j < k ==> servers[j].hash < hash
    {
      r := first;
      k := 0;
      while r != null
        invariant 0 <= k <= |servers| && r == At(servers, k)
        invariant forall j :: 0 <= j < k ==> servers[j].hash < hash
        decreases |servers| - k
      {
        if r.hash >= hash { break; }
        assert LinkAt(servers, k);
        r := r.left;
        k := k + 1;
      }
      if r != null && r.hash != hash {
        forall j | k <= j < |servers| ensures servers[j].hash != hash {
          assert InOrder(hashes, k, j) && KeyAt(servers, hashes, j) && KeyAt(servers, hashes, k);
        }
        r := null;
      }
    }

    /** HashServerIP */
    function HashServerIP(ip: Word, port: Short): nat {
      HashOf(Mix(ip as bv32, port as bv32), hashOffset)
    }

    /** Whatever the offset, two addresses collide exactly if they are alike. */
    lemma CollideIff(ip: Word, port: Short, ip': Word, port': Short)
      ensures HashServerIP(ip, port) == HashServerIP(ip', port') <==>
        Alike(ip as bv32, port as bv32, ip' as bv32, port' as bv32)
    {
      hide Mix, Alike, SameHash, HashOf;
      ShortBits(port);
      ShortBits(port');
      MixesCollide(ip as bv32, port as bv32, ip' as bv32, port' as bv32, hashOffset);
      SameNumber(Mix(ip as bv32, port as bv32), Mix(ip' as bv32, port' as bv32), hashOffset);
    }

    /** Every listed server is filed under the hash of its own address. */
    ghost predicate FiledByAddress()
      reads this, servers
    {
      forall x :: x in servers ==> x.hash == HashServerIP(x.address, x.port)
    }

    /** Finds a server exactly when one is listed under the hash of its address and port. */
    method FindNodeByIP(ip: Word, port: Short) returns (r: Server?)
      requires Valid()
      ensures r != null ==> r in servers && r.address == ip && r.port == port && r.hash == HashServerIP(ip, port)
      ensures r == null ==> forall x :: x in servers && x.hash == HashServerIP(ip, port) ==>
        !(x.address == ip && x.port == port)
      ensures FiledByAddress() ==> (r == null <==> forall x :: x in servers ==> !(x.address == ip && x.port == port))
    {
      var i := HashServerIP(ip, port);
      var ptr;
      ghost var k;
      ptr, k := FindNodeByHash(i);
      if ptr == null { return null; }
      ghost var m := k;
      while ptr != null && ptr.hash == i
        invariant k <= m <= |servers| && ptr == At(servers, m)
        invariant forall j :: k <= j < m ==> !(servers[j].address == ip && servers[j].port == port)
        decreases |servers| - m
      {
        if ptr.address == ip && ptr.port == port { return ptr; }
        assert LinkAt(servers, m);
        ptr := ptr.left;
        m := m + 1;
      }
      forall j | m <= j < |servers| ensures servers[j].hash != i {
        assert InOrder(hashes, m, j) && InOrder(hashes, k, m);
        assert KeyAt(servers, hashes, j) && KeyAt(servers, hashes, k) && KeyAt(servers, hashes, m);
      }
      return null;
    }

    // ----- listings

    predicate Passes(x: Server, q: Request)
      reads x
    {
      q.flags == 0 || TypeCheck(q, x.booleans, x.players, x.maxplayers, x.gameDir)
    }

    /** A server is listed unless the request asks for another mod, or for one that is not full or not
        empty and it is; the other wishes are without effect. */
    lemma PassesIff(x: Server, q: Request)
      ensures Passes(x, q) <==>
        && (q.flags & 1 == 1 ==> q.moddir == x.gameDir)
        && ((q.flags >> 2) & 1 == 1 ==> x.players != x.maxplayers)
        && ((q.flags >> 3) & 1 == 1 ==> x.players != 0)
    {
      OnlyModAndPlayersFilter(q, x.booleans, x.players, x.maxplayers, x.gameDir);
    }

    ghost predicate Seen(v: seq<Entry>, s: seq<Server>, i: nat, q: Request)
      requires i < |s| == |v|
      reads s
    {
      v[i] == Entry(s[i].hash, Passes(s[i], q), s[i].address, s[i].port)
    }

    /** The list as one request sees it. */
    function View(s: seq<Server>, q: Request): (v: seq<Entry>)
      reads s
      ensures |v| == |s| && forall i :: 0 <= i < |s| ==> Seen(v, s, i, q)
    {
      seq(|s|, i requires 0 <= i < |s| reads s => Entry(s[i].hash, Passes(s[i], q), s[i].address, s[i].port))
    }

    lemma ViewSorted(q: Request)
      requires Valid()
      ensures Sorted(View(servers, q))
    {
      var v := View(servers, q);
      forall i, j | 0 <= i < j < |servers| ensures v[i].hash <= v[j].hash {
        assert Seen(v, servers, i, q) && Seen(v, servers, j, q);
        assert InOrder(hashes, i, j) && KeyAt(servers, hashes, i) && KeyAt(servers, hashes, j);
      }
    }

    method FindNodeofEqualorLesserHash(hash: nat, ghost q: Request) returns (r: Server?, ghost k: nat)
      requires Valid()
      ensures servers == [] ==> r == null
      ensures servers != [] ==> k == Start(View(servers, q), hash) && r == servers[k]
    {
      r := first;
      k := 0;
      if r != null {
        ghost var v := View(servers, q);
        while r.hash < hash && r.left != null
          invariant 0 <= k < |servers| && r == servers[k]
          invariant WalkTo(v, hash, 0) == WalkTo(v, hash, k)
          decreases |servers| - k
        {
          assert LinkAt(servers, k) && Seen(v, servers, k, q);
          r := r.left;
          k := k + 1;
        }
        assert LinkAt(servers, k) && BackLinkAt(servers, k) && Seen(v, servers, k, q);
        if r.hash > hash {
          if r.previous != null {
            r := r.previous;
            k := k - 1;
          }
        }
      }
    }

    /** A client that asks for the servers from hash 0 and resumes until told to stop learns of a
        listed server exactly if it passes the filter and its class leaves room for it. */
    lemma ListsCovered(q: Request, cap: nat)
      requires Valid() && cap >= 1
      ensures Sorted(View(servers, q))
      ensures forall i :: 0 <= i < |servers| ==>
        (i in Reported(View(servers, q), 0, cap) <==> Passes(servers[i], q) && Covered(View(servers, q), cap, i))
    {
      ViewSorted(q);
      var v := View(servers, q);
      ListingReports(v, cap);
      forall i | 0 <= i < |servers|
        ensures i in Reported(v, 0, cap) <==> Passes(servers[i], q) && Covered(v, cap, i)
      {
        assert Seen(v, servers, i, q);
      }
    }

    /** Writes one page of the listing into the first bytes of the buffer, never filling it, and
        returns how many bytes were written and the hash to resume from. */
    method FillPacketBufferWithIPs(startingHash: nat, buffer: array<Byte>, size: nat, q: Request)
      returns (packetlen: nat, resume: nat)
      requires Valid() && 6 <= size <= buffer.Length
      modifies buffer
      ensures packetlen < size
      ensures buffer[..packetlen] == EncodePage(Page(View(servers, q), startingHash, Capacity(size)))
      ensures buffer[packetlen..] == old(buffer[..])[packetlen..]
      ensures resume == Resume(View(servers, q), startingHash, Capacity(size))
      ensures resume != 0 ==> size - packetlen <= 6
    {
      ghost var s;
      var ptr;
      ptr, s := FindNodeofEqualorLesserHash(startingHash, q);
      packetlen := 0;
      if ptr == null { return 0, 0; }
      packetlen, ptr := WriteServers(ptr, s, buffer, size, q);
      ghost var e := PageStop(View(servers, q), startingHash, Capacity(size));
      assert e < |servers| ==> Seen(View(servers, q), servers, e, q);
      ViewSorted(q);
      UnfinishedIsFull(View(servers, q), startingHash, size);
      assert packetlen == |EncodePage(Page(View(servers, q), startingHash, Capacity(size)))|;
      if ptr == null {
        resume := 0;
      } else if startingHash == ptr.hash {
        resume := ptr.hash + 1;
      } else {
        resume := ptr.hash;
      }
    }

    /** The loop of FillPacketBufferWithIPs: writes servers until the room or the list ends. */
    method WriteServers(start: Server, ghost s: nat, buffer: array<Byte>, size: nat, q: Request)
      returns (packetlen: nat, ptr: Server?)
      requires Valid() && s < |servers| && start == servers[s] && 6 <= size <= buffer.Length
      modifies buffer
      ensures packetlen < size
      ensures ptr == At(servers, Stop(View(servers, q), s, Capacity(size)))
      ensures var v := View(servers, q);
        Written(v, s, Stop(v, s, Capacity(size)), Capacity(size), old(buffer[..]), buffer[..], packetlen)
    {
      hide EncodePage, Encode;
      ghost var v, cap, i, was := View(servers, q), Capacity(size), s, buffer[..];
      ptr := start;
      packetlen := 0;
      while ptr != null
        invariant s <= i <= |servers| && ptr == At(servers, i)
        invariant packetlen < size && Written(v, s, i, cap, was, buffer[..], packetlen)
        decreases |servers| - i
      {
        assert LinkAt(servers, i) && Seen(v, servers, i, q);
        if q.flags != 0 {
          if !TypeCheck(q, ptr.booleans, ptr.players, ptr.maxplayers, ptr.gameDir) {
            WrittenSkip(v, s, i, cap, was, buffer[..], packetlen);
            ptr := ptr.left;
            i := i + 1;
            continue;
          }
        }
        if packetlen >= size - 6 { break; }
        ghost var before := buffer[..];
        WriteEntry(buffer, packetlen, Entry(ptr.hash, true, ptr.address, ptr.port));
        WrittenNext(v, s, i, cap, was, before, packetlen, buffer[..]);
        packetlen := packetlen + 6;
        ptr := ptr.left;
        i := i + 1;
      }
    }

    method Unlink(n: Server, ghost k: nat)
      requires Chained() && k < |servers| && servers[k] == n
      requires first == At(servers, 0) || k == 0
      modifies this`first, this`servers, this`hashes, servers`left, servers`previous
      ensures Valid() && servers == Without(old(servers), k) && n !in servers && n !in pool
    {
      assert LinkAt(servers, k) && BackLinkAt(servers, k);
      if n.previous == null {
        first := n.left;
      }
      Bypass(n, servers, k);
      LinkedWithout(servers, k);
      LinksKept(pool);
      WithoutDisjoint(servers, hashes, k, pool);
      servers, hashes := Without(servers, k), Without(hashes, k);
    }
  }

  /** Makes n and its neighbours-to-be point at each other. */
  method Splice(n: Server, previous: Server?, left: Server?, ghost s: seq<Server>, ghost k: nat)
    requires Linked(s) && BackLinked(s) && Distinct(s) && n !in s
    requires k <= |s| && previous == At(s, k - 1) && left == At(s, k)
    modifies n`left, n`previous, s`left, s`previous
    ensures n.left == left && n.previous == previous
    ensures forall i :: 0 <= i < |s| ==> if i == k - 1 then s[i].left == n else LinkAt(s, i)
    ensures forall i :: 0 <= i < |s| ==> if i == k then s[i].previous == n else BackLinkAt(s, i)
  {
    n.previous := previous;
    n.left := left;
    if left != null {
      left.previous := n;
    }
    if previous != null {
      previous.left := n;
    }
    forall i | 0 <= i < |s|
      ensures if i == k - 1 then s[i].left == n else LinkAt(s, i)
      ensures if i == k then s[i].previous == n else BackLinkAt(s, i)
    {
      assert old(LinkAt(s, i) && BackLinkAt(s, i));
      assert (k > 0 ==> Differ(s, i, k - 1)) && (k < |s| ==> Differ(s, i, k));
    }
  }

  /** Makes the neighbours of n point past it. */
  method Bypass(n: Server, ghost s: seq<Server>, ghost k: nat)
    requires Linked(s) && BackLinked(s) && Distinct(s) && k < |s| && s[k] == n
    modifies s`left, s`previous
    ensures forall i :: 0 <= i < |s| && i != k ==> if i == k - 1 then s[i].left == At(s, k + 1) else LinkAt(s, i)
    ensures forall i :: 0 <= i < |s| && i != k ==>
      if i == k + 1 then s[i].previous == At(s, k - 1) else BackLinkAt(s, i)
    ensures n.left == At(s, k + 1)
  {
    assert LinkAt(s, k) && BackLinkAt(s, k);
    if n.previous != null {
      n.previous.left := n.left;
    }
    if n.left != null {
      n.left.previous := n.previous;
    }
    forall i | 0 <= i < |s| && i != k
      ensures if i == k - 1 then s[i].left == At(s, k + 1) else LinkAt(s, i)
      ensures if i == k + 1 then s[i].previous == At(s, k - 1) else BackLinkAt(s, i)
    {
      assert old(LinkAt(s, i) && BackLinkAt(s, i));
      assert (k > 0 ==> Differ(s, i, k - 1)) && (k + 1 < |s| ==> Differ(s, i, k + 1));
    }
    assert Differ(s, k, if k > 0 then k - 1 else k);
  }

  /** The first n bytes hold the matching servers from position s up to i, the rest is as it was,
      and a page that goes on from i with the room left stops where the whole page does. */
  ghost predicate Written(v: seq<Entry>, s: nat, i: nat, cap: nat, was: seq<Byte>, bytes: seq<Byte>, n: nat)
    requires s <= i <= |v|
  {
    var m := Matching(v, s, i);
    && |m| <= cap && n == 6 * |m| && n <= |bytes| == |was|
    && bytes == EncodePage(m) + was[n..]
    && Stop(v, s, cap) == Stop(v, i, cap - |m|)
  }

  lemma WrittenNext(v: seq<Entry>, s: nat, i: nat, cap: nat, was: seq<Byte>, before: seq<Byte>, n: nat,
                    after: seq<Byte>)
    requires s <= i < |v| && n + 6 <= |before| && Written(v, s, i, cap, was, before, n)
    requires v[i].matches && |Matching(v, s, i)| < cap
    requires after == before[..n] + Encode(v[i]) + before[n + 6..]
    ensures Written(v, s, i + 1, cap, was, after, n + 6)
  {
    var m := Matching(v, s, i);
    assert (m + [v[i]])[..|m|] == m;
    assert before[..n] == EncodePage(m) && before[n + 6..] == was[n + 6..];
  }

  lemma WrittenSkip(v: seq<Entry>, s: nat, i: nat, cap: nat, was: seq<Byte>, bytes: seq<Byte>, n: nat)
    requires s <= i < |v| && Written(v, s, i, cap, was, bytes, n) && !v[i].matches
    ensures Written(v, s, i + 1, cap, was, bytes, n)
  {
    assert Matching(v, s, i) + [] == Matching(v, s, i);
  }

  method WriteEntry(buffer: array<Byte>, at: nat, e: Entry)
    requires at + 6 <= buffer.Length
    modifies buffer
    ensures buffer[..] == old(buffer[..at]) + Encode(e) + old(buffer[at + 6..])
  {
    buffer[at], buffer[at + 1] := e.address % 0x100, e.address / 0x100 % 0x100;
    buffer[at + 2], buffer[at + 3] := e.address / 0x1_0000 % 0x100, e.address / 0x100_0000;
    buffer[at + 4], buffer[at + 5] := e.port % 0x100, e.port / 0x100;
  }
}
