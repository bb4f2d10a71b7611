/** The lists of the relocating cache of HUNK.c, as values.

    Every cached block is on two lists: one in address order and one in order of last use.  Room
    for a new block is searched from the bottom up and made by evicting the least recently used
    blocks. */
module BlockLists {
  import opened Basics

  const HEADER := 92        // sizeof(cache_system_t) on the 32-bit target

  /** The identity of a cache_user_t; 0 is the NULL pointer. */
  type User = nat

  /** A cached block: its offset in the hunk, its size including the header, and its user. */
  datatype Block = Block(addr: nat, size: nat, user: User)

  /** The address list, the addresses in order of last use, latest first, and what the data
      pointer of each user that has a block points at. */
  datatype State = State(blocks: seq<Block>, lru: seq<nat>, data: map<User, nat>)

  lemma MultisetWith<T>(s: seq<T>, k: nat, x: T)
    requires k <= |s|
    ensures multiset(With(s, k, x)) == multiset(s) + multiset{x}
  {
    assert s == s[..k] + s[k..];
  }

  lemma MultisetWithout<T>(s: seq<T>, k: nat)
    requires k < |s|
    ensures multiset(Without(s, k)) == multiset(s) - multiset{s[k]}
  {
    assert s == s[..k] + [s[k]] + s[k + 1..];
  }

  // ----- well-formed states

  function Addrs(blocks: seq<Block>): (a: seq<nat>)
    ensures |a| == |blocks| && forall i :: 0 <= i < |a| ==> a[i] == blocks[i].addr
  {
    seq(|blocks|, i requires 0 <= i < |blocks| => blocks[i].addr)
  }

  function Top(blocks: seq<Block>, top: nat, i: nat): nat {
    if i < |blocks| then blocks[i].addr else top
  }

  ghost predicate SpacedAt(blocks: seq<Block>, top: nat, i: nat)
    requires i < |blocks|
  {
    blocks[i].size >= HEADER && blocks[i].addr + blocks[i].size <= Top(blocks, top, i + 1)
  }

  /** The blocks ascend without overlap and end below the high mark. */
  ghost predicate Spaced(blocks: seq<Block>, top: nat) {
    forall i :: 0 <= i < |blocks| ==> SpacedAt(blocks, top, i)
  }

  ghost predicate Above(blocks: seq<Block>, low: nat) {
    blocks != [] ==> low <= blocks[0].addr
  }

  /** The user of block i points back at its payload. */
  ghost predicate PointedAt(s: State, i: nat)
    requires i < |s.blocks|
  {
    var b := s.blocks[i];
    b.user != 0 && b.user in s.data && s.data[b.user] == b.addr + HEADER
  }

  ghost predicate HasBlock(blocks: seq<Block>, u: User, p: nat) {
    exists i :: 0 <= i < |blocks| && blocks[i].user == u && blocks[i].addr + HEADER == p
  }

  ghost predicate PairedAt(lru: seq<nat>, blocks: seq<Block>, a: nat) {
    multiset(lru)[a] == multiset(Addrs(blocks))[a]
  }

  /** Every address is on the two lists equally often: they are permutations of one another. */
  ghost predicate Paired(lru: seq<nat>, blocks: seq<Block>) {
    forall a: nat :: PairedAt(lru, blocks, a)
  }

  lemma PairedIsPermutation(lru: seq<nat>, blocks: seq<Block>)
    ensures Paired(lru, blocks) <==> multiset(lru) == multiset(Addrs(blocks))
  {
    if Paired(lru, blocks) {
      forall a: nat ensures multiset(lru)[a] == multiset(Addrs(blocks))[a] {
        assert PairedAt(lru, blocks, a);
      }
    }
  }

  lemma PairedMember(lru: seq<nat>, blocks: seq<Block>, a: nat)
    requires Paired(lru, blocks)
    ensures a in lru <==> a in Addrs(blocks)
  {
    assert PairedAt(lru, blocks, a);
    assert (a in lru <==> a in multiset(lru)) && (a in Addrs(blocks) <==> a in multiset(Addrs(blocks)));
  }

  /** The two lists hold the same blocks, and blocks and users point at each other. */
  ghost predicate Agrees(s: State) {
    && Paired(s.lru, s.blocks)
    && (forall i :: 0 <= i < |s.blocks| ==> PointedAt(s, i))
    && (forall u :: u in s.data ==> HasBlock(s.blocks, u, s.data[u]))
  }

  ghost predicate Good(s: State, top: nat) {
    Spaced(s.blocks, top) && Agrees(s)
  }

  lemma {:induction false} SpacedOrder(blocks: seq<Block>, top: nat, i: nat, j: nat)
    requires Spaced(blocks, top) && i < j <= |blocks|
    ensures blocks[i].addr + blocks[i].size <= Top(blocks, top, j)
    decreases j
  {
    assert SpacedAt(blocks, top, i);
    if i + 1 < j {
      SpacedOrder(blocks, top, i, j - 1);
      assert SpacedAt(blocks, top, j - 1);
    }
  }

  lemma {:induction false} SpacedAbove(blocks: seq<Block>, low: nat, top: nat, i: nat)
    requires Spaced(blocks, top) && Above(blocks, low) && i < |blocks|
    ensures low <= blocks[i].addr
  {
    if i > 0 { SpacedOrder(blocks, top, 0, i); }
  }

  lemma SpacedDistinct(blocks: seq<Block>, top: nat, i: nat, j: nat)
    requires Spaced(blocks, top) && i < |blocks| && j < |blocks| && blocks[i].addr == blocks[j].addr
    ensures i == j
  {
    assert SpacedAt(blocks, top, i) && SpacedAt(blocks, top, j);
    if i < j { SpacedOrder(blocks, top, i, j); }
    if j < i { SpacedOrder(blocks, top, j, i); }
  }

  // ----- looking for room

  datatype Gap = Gap(index: nat, addr: nat)

  /** Where the gap below block i begins: at the end of the block before, or at the low mark. */
  function Floor(blocks: seq<Block>, low: nat, i: nat): nat
    requires i <= |blocks|
  {
    if i == 0 then low else blocks[i - 1].addr + blocks[i - 1].size
  }

  predicate Roomy(blocks: seq<Block>, low: nat, top: nat, size: nat, i: nat)
    requires i <= |blocks|
  {
    Floor(blocks, low, i) + size <= Top(blocks, top, i)
  }

  /** First fit from gap i on. */
  function FindGap(blocks: seq<Block>, low: nat, top: nat, size: nat, i: nat): (g: Option<Gap>)
    requires i <= |blocks|
    ensures g.Some? ==> i <= g.value.index <= |blocks| && g.value.addr == Floor(blocks, low, g.value.index)
    ensures g.Some? ==> Roomy(blocks, low, top, size, g.value.index)
    ensures g.Some? ==> forall k :: i <= k < g.value.index ==> !Roomy(blocks, low, top, size, k)
    ensures g.None? ==> forall k :: i <= k <= |blocks| ==> !Roomy(blocks, low, top, size, k)
    decreases |blocks| - i
  {
    if Roomy(blocks, low, top, size, i) then Some(Gap(i, Floor(blocks, low, i)))
    else if i == |blocks| then None
    else FindGap(blocks, low, top, size, i + 1)
  }

  // ----- the operations on values

  /** A block for user u goes into gap g and to the head of the use order. */
  function Place(s: State, g: Gap, size: nat, u: User): State
    requires g.index <= |s.blocks|
  {
    State(With(s.blocks, g.index, Block(g.addr, size, u)), [g.addr] + s.lru, s.data[u := g.addr + HEADER])
  }

  function IndexFrom(s: seq<nat>, x: nat, i: nat): (k: nat)
    requires i <= |s|
    ensures i <= k <= |s| && (k < |s| ==> s[k] == x) && forall j :: i <= j < k ==> s[j] != x
    decreases |s| - i
  {
    if i == |s| || s[i] == x then i else IndexFrom(s, x, i + 1)
  }

  /** The place of x in s, or |s|. */
  function IndexOf(s: seq<nat>, x: nat): (k: nat)
    ensures k <= |s| && (k < |s| ==> s[k] == x) && (k == |s| ==> x !in s)
  {
    IndexFrom(s, x, 0)
  }

  function Unlinked(lru: seq<nat>, a: nat): seq<nat> {
    var k := IndexOf(lru, a);
    if k < |lru| then Without(lru, k) else lru
  }

  /** Block k leaves both lists and its user. */
  function Remove(s: State, k: nat): State
    requires k < |s.blocks|
  {
    var b := s.blocks[k];
    State(Without(s.blocks, k), Unlinked(s.lru, b.addr), s.data - {b.user})
  }

  /** The block of user u becomes the latest used. */
  function Touch(s: State, u: User): State
    requires u in s.data && s.data[u] >= HEADER
  {
    var a := s.data[u] - HEADER;
    s.(lru := [a] + Unlinked(s.lru, a))
  }

  lemma UnlinkedMultiset(lru: seq<nat>, a: nat)
    ensures multiset(Unlinked(lru, a)) == multiset(lru) - multiset{a}
  {
    var k := IndexOf(lru, a);
    if k < |lru| { MultisetWithout(lru, k); }
  }

  lemma PlaceSpaced(blocks: seq<Block>, low: nat, top: nat, i: nat, size: nat, u: User)
    requires Spaced(blocks, top) && i <= |blocks| && size >= HEADER && Roomy(blocks, low, top, size, i)
    ensures Spaced(With(blocks, i, Block(Floor(blocks, low, i), size, u)), top)
  {
    var w := With(blocks, i, Block(Floor(blocks, low, i), size, u));
    forall j | 0 <= j < |w| ensures SpacedAt(w, top, j) {
      if j < i { assert SpacedAt(blocks, top, j); }
      if j > i { assert SpacedAt(blocks, top, j - 1); }
    }
  }

  lemma WithoutSpaced(blocks: seq<Block>, top: nat, k: nat)
    requires Spaced(blocks, top) && k < |blocks|
    ensures Spaced(Without(blocks, k), top)
  {
    var w := Without(blocks, k);
    forall j | 0 <= j < |w| ensures SpacedAt(w, top, j) {
      if j < k {
        assert SpacedAt(blocks, top, j);
        if j == k - 1 { SpacedOrder(blocks, top, j, k + 1); }
      } else {
        assert SpacedAt(blocks, top, j + 1);
      }
    }
  }

  /** A block placed in a gap keeps the state well formed. */
  lemma PlaceKeeps(s: State, low: nat, top: nat, g: Gap, size: nat, u: User)
    requires Good(s, top) && g.index <= |s.blocks| && g.addr == Floor(s.blocks, low, g.index)
    requires size >= HEADER && Roomy(s.blocks, low, top, size, g.index)
    requires u != 0 && u !in s.data
    ensures Good(Place(s, g, size, u), top)
  {
    PlaceSpaced(s.blocks, low, top, g.index, size, u);
    PlaceLists(s, g, size, u);
    PlacePointers(s, g, size, u);
  }

  lemma PlaceLists(s: State, g: Gap, size: nat, u: User)
    requires g.index <= |s.blocks| && Paired(s.lru, s.blocks)
    ensures var t := Place(s, g, size, u); Paired(t.lru, t.blocks)
  {
    PairedIsPermutation(s.lru, s.blocks);
    PairedIsPermutation(Place(s, g, size, u).lru, Place(s, g, size, u).blocks);
    assert Addrs(Place(s, g, size, u).blocks) == With(Addrs(s.blocks), g.index, g.addr);
    MultisetWith(Addrs(s.blocks), g.index, g.addr);
  }

  lemma PlacePointers(s: State, g: Gap, size: nat, u: User)
    requires g.index <= |s.blocks| && u != 0 && u !in s.data
    requires forall i :: 0 <= i < |s.blocks| ==> PointedAt(s, i)
    requires forall v :: v in s.data ==> HasBlock(s.blocks, v, s.data[v])
    ensures var t := Place(s, g, size, u);
      && (forall i :: 0 <= i < |t.blocks| ==> PointedAt(t, i))
      && (forall v :: v in t.data ==> HasBlock(t.blocks, v, t.data[v]))
  {
    var t, i := Place(s, g, size, u), g.index;
    forall j | 0 <= j < |t.blocks| ensures PointedAt(t, j) {
      if j < i { assert PointedAt(s, j); }
      if j > i { assert PointedAt(s, j - 1); }
    }
    forall v | v in t.data ensures HasBlock(t.blocks, v, t.data[v]) {
      if v == u {
        assert t.blocks[i].user == u;
      } else {
        HasBlockWith(s.blocks, i, Block(g.addr, size, u), v, s.data[v]);
      }
    }
  }

  lemma HasBlockWith(blocks: seq<Block>, k: nat, b: Block, u: User, p: nat)
    requires k <= |blocks| && HasBlock(blocks, u, p)
    ensures HasBlock(With(blocks, k, b), u, p)
  {
    var i :| 0 <= i < |blocks| && blocks[i].user == u && blocks[i].addr + HEADER == p;
    var j := if i < k then i else i + 1;
    assert With(blocks, k, b)[j] == blocks[i];
  }

  lemma HasBlockWithout(blocks: seq<Block>, k: nat, u: User, p: nat)
    requires k < |blocks| && HasBlock(blocks, u, p) && blocks[k].user != u
    ensures HasBlock(Without(blocks, k), u, p)
  {
    var i :| 0 <= i < |blocks| && blocks[i].user == u && blocks[i].addr + HEADER == p;
    var j := if i < k then i else i - 1;
    assert Without(blocks, k)[j] == blocks[i];
  }

  /** Removing a block keeps the state well formed. */
  lemma RemoveKeeps(s: State, top: nat, k: nat)
    requires Good(s, top) && k < |s.blocks|
    ensures Good(Remove(s, k), top)
  {
    WithoutSpaced(s.blocks, top, k);
    RemoveLists(s, k);
    RemovePointers(s, top, k);
  }

  lemma RemoveLists(s: State, k: nat)
    requires k < |s.blocks| && Paired(s.lru, s.blocks)
    ensures var t := Remove(s, k); Paired(t.lru, t.blocks)
  {
    PairedIsPermutation(s.lru, s.blocks);
    PairedIsPermutation(Remove(s, k).lru, Remove(s, k).blocks);
    assert Addrs(Remove(s, k).blocks) == Without(Addrs(s.blocks), k);
    MultisetWithout(Addrs(s.blocks), k);
    UnlinkedMultiset(s.lru, s.blocks[k].addr);
  }

  lemma RemovePointers(s: State, top: nat, k: nat)
    requires Good(s, top) && k < |s.blocks|
    ensures var t := Remove(s, k);
      && (forall i :: 0 <= i < |t.blocks| ==> PointedAt(t, i))
      && (forall v :: v in t.data ==> HasBlock(t.blocks, v, t.data[v]))
  {
    var t := Remove(s, k);
    forall j | 0 <= j < |t.blocks| ensures PointedAt(t, j) {
      var i := if j < k then j else j + 1;
      assert PointedAt(s, i) && PointedAt(s, k);
      if s.blocks[i].user == s.blocks[k].user { SpacedDistinct(s.blocks, top, i, k); }
    }
    forall v | v in t.data ensures HasBlock(t.blocks, v, t.data[v]) {
      HasBlockWithout(s.blocks, k, v, s.data[v]);
    }
  }

  lemma TouchLists(lru: seq<nat>, blocks: seq<Block>, a: nat)
    requires Paired(lru, blocks) && a in lru
    ensures Paired([a] + Unlinked(lru, a), blocks)
  {
    PairedIsPermutation(lru, blocks);
    PairedIsPermutation([a] + Unlinked(lru, a), blocks);
    UnlinkedMultiset(lru, a);
    assert a in multiset(lru);
  }

  lemma TouchKeeps(s: State, top: nat, u: User)
    requires Good(s, top) && u in s.data
    ensures s.data[u] >= HEADER && Good(Touch(s, u), top)
    ensures s.data[u] - HEADER in s.lru
  {
    assert HasBlock(s.blocks, u, s.data[u]);
    var i :| 0 <= i < |s.blocks| && s.blocks[i].user == u && s.blocks[i].addr + HEADER == s.data[u];
    var a := s.data[u] - HEADER;
    assert Addrs(s.blocks)[i] in Addrs(s.blocks);
    PairedMember(s.lru, s.blocks, a);
    var t := Touch(s, u);
    TouchLists(s.lru, s.blocks, a);
    forall j | 0 <= j < |t.blocks| ensures PointedAt(t, j) {
      assert PointedAt(s, j);
    }
  }

  // ----- eviction

  lemma AddrsOnce(blocks: seq<Block>, top: nat, k: nat)
    requires Spaced(blocks, top) && k < |blocks|
    ensures IndexOf(Addrs(blocks), blocks[k].addr) == k
    ensures multiset(Addrs(blocks))[blocks[k].addr] == 1
  {
    var a := Addrs(blocks);
    SpacedDistinct(blocks, top, IndexOf(a, a[k]), k);
    MultisetWithout(a, k);
    forall j | 0 <= j < |Without(a, k)| ensures Without(a, k)[j] != a[k] {
      var i := if j < k then j else j + 1;
      if blocks[i].addr == blocks[k].addr { SpacedDistinct(blocks, top, i, k); }
    }
    assert a[k] !in multiset(Without(a, k));
  }

  lemma TwiceInMultiset(s: seq<nat>, i: nat, j: nat)
    requires i < j < |s| && s[i] == s[j]
    ensures multiset(s)[s[i]] >= 2
  {
    MultisetWithout(s, j);
    assert Without(s, j)[i] == s[i];
  }

  /** Every entry of the use order belongs to a block, and to no other entry. */
  lemma LruEntry(s: State, top: nat, j: nat)
    requires Good(s, top) && j < |s.lru|
    ensures IndexOf(Addrs(s.blocks), s.lru[j]) < |s.blocks|
    ensures IndexOf(s.lru, s.lru[j]) == j
  {
    var a, i := s.lru[j], IndexOf(s.lru, s.lru[j]);
    PairedMember(s.lru, s.blocks, a);
    assert PairedAt(s.lru, s.blocks, a);
    AddrsOnce(s.blocks, top, IndexOf(Addrs(s.blocks), a));
    if i < j { TwiceInMultiset(s.lru, i, j); }
  }

  ghost predicate Among(later: seq<Block>, blocks: seq<Block>) {
    forall i :: 0 <= i < |later| ==> later[i] in blocks
  }

  lemma AmongTransitive(a: seq<Block>, b: seq<Block>, c: seq<Block>)
    requires Among(a, b) && Among(b, c)
    ensures Among(a, c)
  {
    forall i | 0 <= i < |a| ensures a[i] in c {
      var j :| 0 <= j < |b| && b[j] == a[i];
    }
  }

  lemma WithoutAmong(blocks: seq<Block>, k: nat)
    requires k < |blocks|
    ensures Among(Without(blocks, k), blocks)
  {
  }

  /** The least recently used block is freed. */
  function EvictLast(s: State): State {
    if s.lru == [] then s
    else
      var k := IndexOf(Addrs(s.blocks), s.lru[|s.lru| - 1]);
      if k < |s.blocks| then Remove(s, k) else s
  }

  function Evicted(s: State, n: nat): State
    decreases n
  {
    if n == 0 then s else EvictLast(Evicted(s, n - 1))
  }

  lemma EvictLastKeeps(s: State, low: nat, top: nat, t: State)
    requires Good(s, top) && Above(s.blocks, low) && s.lru != [] && t == EvictLast(s)
    ensures Good(t, top) && Above(t.blocks, low) && t.lru == s.lru[..|s.lru| - 1] && Among(t.blocks, s.blocks)
  {
    var j := |s.lru| - 1;
    LruEntry(s, top, j);
    var k := IndexOf(Addrs(s.blocks), s.lru[j]);
    RemoveKeeps(s, top, k);
    if |s.blocks| > 1 { SpacedAbove(s.blocks, low, top, if k == 0 then 1 else 0); }
    assert Without(s.lru, j) == s.lru[..j];
  }

  /** Evictions take blocks from the end of the use order, one by one, and keep the rest of the
      order. */
  lemma {:induction false} EvictedKeeps(s: State, low: nat, top: nat, n: nat) returns (t: State)
    requires Good(s, top) && Above(s.blocks, low) && n <= |s.lru|
    ensures t == Evicted(s, n) && Good(t, top) && Above(t.blocks, low)
    ensures t.lru == s.lru[..|s.lru| - n] && Among(t.blocks, s.blocks)
    decreases n
  {
    hide Agrees, Spaced, Above, EvictLast;
    t := s;
    if n > 0 {
      var t' := EvictedKeeps(s, low, top, n - 1);
      t := EvictLast(t');
      EvictLastKeeps(t', low, top, t);
      AmongTransitive(t.blocks, t'.blocks, s.blocks);
    }
  }

  lemma AddressIn(blocks: seq<Block>, a: nat) returns (k: nat)
    requires a in Addrs(blocks)
    ensures k < |blocks| && blocks[k].addr == a
  {
    k :| 0 <= k < |Addrs(blocks)| && Addrs(blocks)[k] == a;
  }

  /** Evictions take a user its block exactly if that is among the blocks used least recently, and
      leave it in place otherwise. */
  lemma EvictedUsers(s: State, low: nat, top: nat, n: nat, v: User)
    requires Good(s, top) && Above(s.blocks, low) && n <= |s.lru| && v in s.data
    ensures s.data[v] >= HEADER
    ensures v in Evicted(s, n).data <==> s.data[v] - HEADER in s.lru[..|s.lru| - n]
    ensures v in Evicted(s, n).data ==> Evicted(s, n).data[v] == s.data[v]
  {
    hide Evicted, Spaced, Above, Paired;
    var t := EvictedKeeps(s, low, top, n);
    HomeIs(s, top, v);
    if v in t.data {
      HomeIs(t, top, v);
      var i :| 0 <= i < |s.blocks| && s.blocks[i] == t.blocks[Home(t, v)];
      assert PointedAt(s, i);
    }
    var a := s.data[v] - HEADER;
    if a in t.lru {
      PairedMember(t.lru, t.blocks, a);
      var k := AddressIn(t.blocks, a);
      var i :| 0 <= i < |s.blocks| && s.blocks[i] == t.blocks[k];
      SpacedDistinct(s.blocks, top, i, Home(s, v));
      assert PointedAt(t, k);
    }
  }

  /** The user whose block is the latest used keeps it as long as another block is left to evict. */
  lemma LatestStays(s: State, low: nat, top: nat, n: nat, v: User)
    requires Good(s, top) && Above(s.blocks, low) && n < |s.lru| && v in s.data
    requires s.lru[0] + HEADER == s.data[v]
    ensures v in Evicted(s, n).data && Evicted(s, n).data[v] == s.data[v]
  {
    EvictedUsers(s, low, top, n, v);
    assert s.lru[..|s.lru| - n][0] == s.lru[0];
  }

  lemma SameLength(s: State, top: nat)
    requires Good(s, top)
    ensures |s.lru| == |s.blocks|
  {
    PairedIsPermutation(s.lru, s.blocks);
    assert |multiset(s.lru)| == |s.lru| && |multiset(Addrs(s.blocks))| == |s.blocks|;
  }

  /** After enough evictions there is room exactly if the request fits between the two marks. */
  lemma RoomIff(s: State, low: nat, top: nat, size: nat)
    requires Good(s, top) && Above(s.blocks, low) && size >= HEADER
    ensures (exists n: nat :: n <= |s.lru| && FindGap(Evicted(s, n).blocks, low, top, size, 0).Some?) <==>
      low + size <= top
  {
    var t := EvictedKeeps(s, low, top, |s.lru|);
    SameLength(t, top);
    if low + size <= top {
      assert Roomy(t.blocks, low, top, size, 0);
    }
    if n: nat :| n <= |s.lru| && FindGap(Evicted(s, n).blocks, low, top, size, 0).Some? {
      t := EvictedKeeps(s, low, top, n);
      GapInside(t.blocks, low, top, size);
    }
  }

  /** Fewer than k evictions leave no gap of the given size. */
  ghost predicate Cramped(s: State, low: nat, top: nat, size: nat, k: nat) {
    forall j: nat :: j < k ==> CrampedAt(s, low, top, size, j)
  }

  ghost predicate CrampedAt(s: State, low: nat, top: nat, size: nat, j: nat) {
    FindGap(Evicted(s, j).blocks, low, top, size, 0).None?
  }

  lemma StartEviction(s: State)
    ensures Evicted(s, 0) == s
  {
  }

  lemma StepEviction(s: State, low: nat, top: nat, size: nat, k: nat)
    requires Cramped(s, low, top, size, k) && FindGap(Evicted(s, k).blocks, low, top, size, 0).None?
    ensures Cramped(s, low, top, size, k + 1) && Evicted(s, k + 1) == EvictLast(Evicted(s, k))
  {
    assert CrampedAt(s, low, top, size, k);
  }

  /** A gap is found only if the request fits at all, and always if it fits an empty cache. */
  lemma FitsIffRoom(s: State, low: nat, top: nat, size: nat)
    requires Good(s, top) && Above(s.blocks, low)
    ensures FindGap(s.blocks, low, top, size, 0).Some? ==> low + size <= top
    ensures s.lru == [] && low + size <= top ==> FindGap(s.blocks, low, top, size, 0).Some?
    ensures s.blocks == [] <==> s.lru == []
  {
    SameLength(s, top);
    if FindGap(s.blocks, low, top, size, 0).Some? { GapInside(s.blocks, low, top, size); }
    if s.lru == [] && low + size <= top { assert Roomy(s.blocks, low, top, size, 0); }
  }

  /** A gap lies between the two marks. */
  lemma GapInside(blocks: seq<Block>, low: nat, top: nat, size: nat)
    requires Spaced(blocks, top) && Above(blocks, low)
    requires FindGap(blocks, low, top, size, 0).Some?
    ensures var g := FindGap(blocks, low, top, size, 0).value; low <= g.addr && g.addr + size <= top
  {
    var g := FindGap(blocks, low, top, size, 0).value;
    if g.index > 0 { SpacedAbove(blocks, low, top, g.index - 1); }
    if g.index < |blocks| {
      SpacedOrder(blocks, top, g.index, |blocks|);
    }
  }

  // ----- the block of a user

  /** The place of a user's block in the address list. */
  function Home(s: State, u: User): (k: nat)
    requires u in s.data
    ensures k <= |s.blocks|
  {
    if s.data[u] < HEADER then |s.blocks| else IndexOf(Addrs(s.blocks), s.data[u] - HEADER)
  }

  /** In a well-formed state every user with data owns exactly one block, linked in both lists. */
  lemma HomeIs(s: State, top: nat, u: User)
    requires Good(s, top) && u in s.data
    ensures var k := Home(s, u);
      && k < |s.blocks| && s.blocks[k].user == u && s.blocks[k].addr + HEADER == s.data[u]
      && s.blocks[k].addr in s.lru
    ensures forall i :: 0 <= i < |s.blocks| && s.blocks[i].user == u ==> i == Home(s, u)
  {
    assert HasBlock(s.blocks, u, s.data[u]);
    var i :| 0 <= i < |s.blocks| && s.blocks[i].user == u && s.blocks[i].addr + HEADER == s.data[u];
    AddrsOnce(s.blocks, top, i);
    assert Addrs(s.blocks)[i] in Addrs(s.blocks);
    PairedMember(s.lru, s.blocks, Addrs(s.blocks)[i]);
    forall j | 0 <= j < |s.blocks| && s.blocks[j].user == u ensures j == i {
      assert PointedAt(s, j);
      SpacedDistinct(s.blocks, top, i, j);
    }
  }
}
