/** How the cache of HUNK.c makes way for the low hunk: the lowest blocks move up, or are dropped.
    What is kept, and who is lost. */
module MakingWay {
  import opened Basics
  import opened BlockLists

  // ----- moving up

  /** The lowest block moves to the first gap above it that holds it, or is dropped. */
  function Move(s: State, low: nat, top: nat): State
    requires s.blocks != []
  {
    var c := s.blocks[0];
    match FindGap(s.blocks, low, top, c.size, 1)
    case None => Remove(s, 0)
    case Some(g) => Place(Remove(s, 0), Gap(g.index - 1, g.addr), c.size, c.user)
  }

  function Height(blocks: seq<Block>, top: nat): nat {
    if blocks == [] then 0
    else (if blocks[0].addr < top then top - blocks[0].addr else 0) + Height(blocks[1..], top)
  }

  lemma {:induction false} HeightWith(blocks: seq<Block>, top: nat, k: nat, b: Block)
    requires k <= |blocks|
    ensures Height(With(blocks, k, b), top) == Height(blocks, top) + (if b.addr < top then top - b.addr else 0)
  {
    if k == 0 {
      assert With(blocks, 0, b)[1..] == blocks;
    } else {
      HeightWith(blocks[1..], top, k - 1, b);
      assert With(blocks, k, b)[1..] == With(blocks[1..], k - 1, b);
    }
  }

  /** Block b is one of the blocks, possibly moved up. */
  ghost predicate CameFrom(b: Block, blocks: seq<Block>) {
    exists i :: 0 <= i < |blocks| && Raises(b, blocks[i])
  }

  ghost predicate Raises(b: Block, c: Block) {
    b.user == c.user && b.size == c.size && c.addr <= b.addr
  }

  ghost predicate AllFrom(later: seq<Block>, blocks: seq<Block>) {
    forall i :: 0 <= i < |later| ==> CameFrom(later[i], blocks)
  }

  /** The blocks from the mark on are still there. */
  ghost predicate Stay(blocks: seq<Block>, later: seq<Block>, low: nat) {
    forall i :: 0 <= i < |blocks| && blocks[i].addr >= low ==> blocks[i] in later
  }

  lemma AllFromTransitive(a: seq<Block>, b: seq<Block>, c: seq<Block>)
    requires AllFrom(a, b) && AllFrom(b, c)
    ensures AllFrom(a, c)
  {
    forall i | 0 <= i < |a| ensures CameFrom(a[i], c) {
      assert CameFrom(a[i], b);
      var j :| 0 <= j < |b| && Raises(a[i], b[j]);
      assert CameFrom(b[j], c);
      var k :| 0 <= k < |c| && Raises(b[j], c[k]);
      assert Raises(a[i], c[k]);
    }
  }

  lemma AllFromSelf(blocks: seq<Block>)
    ensures AllFrom(blocks, blocks)
  {
    forall i | 0 <= i < |blocks| ensures CameFrom(blocks[i], blocks) {
      assert Raises(blocks[i], blocks[i]);
    }
  }

  /** The address list after a move. */
  function MovedBlocks(blocks: seq<Block>, low: nat, top: nat): seq<Block>
    requires blocks != []
  {
    var c := blocks[0];
    match FindGap(blocks, low, top, c.size, 1)
    case None => Without(blocks, 0)
    case Some(g) => With(Without(blocks, 0), g.index - 1, Block(g.addr, c.size, c.user))
  }

  lemma MoveBlocks(s: State, low: nat, top: nat)
    requires s.blocks != []
    ensures Move(s, low, top).blocks == MovedBlocks(s.blocks, low, top)
  {
  }

  /** A move keeps the state well formed. */
  lemma MoveKeeps(s: State, low: nat, top: nat)
    requires Good(s, top) && s.blocks != []
    ensures Good(Move(s, low, top), top)
    ensures Height(Move(s, low, top).blocks, top) < Height(s.blocks, top)
  {
    MoveBlocks(s, low, top);
    MoveLowers(s.blocks, low, top);
    RemoveKeeps(s, top, 0);
    var found := FindGap(s.blocks, low, top, s.blocks[0].size, 1);
    if found.Some? {
      MovePlaces(s, low, top, Remove(s, 0), found.value);
    }
  }

  lemma MovePlaces(s: State, low: nat, top: nat, t: State, g: Gap)
    requires Good(s, top) && s.blocks != [] && Good(t, top) && t == Remove(s, 0)
    requires FindGap(s.blocks, low, top, s.blocks[0].size, 1) == Some(g)
    ensures Good(Place(t, Gap(g.index - 1, g.addr), s.blocks[0].size, s.blocks[0].user), top)
  {
    var c := s.blocks[0];
    assert PointedAt(s, 0);
    MoveHigher(s.blocks, low, top);
    PlaceKeeps(t, c.addr + c.size, top, Gap(g.index - 1, g.addr), c.size, c.user);
  }

  lemma MoveLowers(blocks: seq<Block>, low: nat, top: nat)
    requires Spaced(blocks, top) && blocks != []
    ensures Height(MovedBlocks(blocks, low, top), top) < Height(blocks, top)
  {
    MoveHigher(blocks, low, top);
    assert Without(blocks, 0) == blocks[1..];
    var found := FindGap(blocks, low, top, blocks[0].size, 1);
    if found.Some? {
      HeightWith(blocks[1..], top, found.value.index - 1, Block(found.value.addr, blocks[0].size, blocks[0].user));
    }
  }

  /** The gap a block moves to is the same without that block, and above it. */
  lemma MoveHigher(blocks: seq<Block>, low: nat, top: nat)
    requires Spaced(blocks, top) && blocks != []
    ensures var c := blocks[0]; c.size >= HEADER && c.addr + c.size <= top
    ensures var (c, found) := (blocks[0], FindGap(blocks, low, top, blocks[0].size, 1)); found.Some? ==>
      var g := found.value;
      && c.addr + c.size <= g.addr && g.addr + c.size <= top
      && Floor(Without(blocks, 0), c.addr + c.size, g.index - 1) == g.addr
      && Roomy(Without(blocks, 0), c.addr + c.size, top, c.size, g.index - 1)
  {
    assert SpacedAt(blocks, top, 0);
    SpacedOrder(blocks, top, 0, |blocks|);
    var found := FindGap(blocks, low, top, blocks[0].size, 1);
    if found.Some? {
      var g := found.value;
      if g.index > 1 {
        SpacedOrder(blocks, top, 0, g.index - 1);
        assert SpacedAt(blocks, top, g.index - 1);
      }
      if g.index < |blocks| { SpacedOrder(blocks, top, g.index, |blocks|); }
    }
  }

  /** A move takes the lowest block strictly up or drops it, and leaves the others alone. */
  lemma MoveKeepsOthers(blocks: seq<Block>, low: nat, top: nat, mark: nat)
    requires Spaced(blocks, top) && blocks != [] && blocks[0].addr < mark
    ensures Stay(blocks, MovedBlocks(blocks, low, top), mark) && AllFrom(MovedBlocks(blocks, low, top), blocks)
  {
    hide Stay, AllFrom, Spaced;
    var c := blocks[0];
    MoveHigher(blocks, low, top);
    match FindGap(blocks, low, top, c.size, 1)
    case None =>
      OthersStay(blocks, Without(blocks, 0), mark, |blocks| - 1);
    case Some(g) =>
      forall j | 0 <= j < |blocks| ensures j != g.index - 1 ==>
        MovedBlocks(blocks, low, top)[j] == blocks[if j < g.index - 1 then j + 1 else j] {
        InsertedElement(blocks, g.index - 1, Block(g.addr, c.size, c.user), j);
      }
      assert Raises(Block(g.addr, c.size, c.user), c);
      OthersStay(blocks, MovedBlocks(blocks, low, top), mark, g.index - 1);
  }

  lemma InsertedElement<T>(s: seq<T>, k: nat, x: T, j: nat)
    requires k < |s| && j < |s|
    ensures With(Without(s, 0), k, x)[j] == if j < k then s[j + 1] else if j == k then x else s[j]
  {
  }

  /** All but the first block are in a list that differs from theirs only in place k. */
  lemma OthersStay(blocks: seq<Block>, m: seq<Block>, mark: nat, k: nat)
    requires blocks != [] && blocks[0].addr < mark && |blocks| - 1 <= |m| <= |blocks| && k <= |blocks| - 1
    requires forall j :: 0 <= j < |m| && j != k ==> m[j] == blocks[if j < k then j + 1 else j]
    requires k < |m| ==> CameFrom(m[k], blocks)
    requires |m| < |blocks| ==> k == |m|
    ensures Stay(blocks, m, mark) && AllFrom(m, blocks)
  {
    forall i | 0 <= i < |blocks| && blocks[i].addr >= mark ensures blocks[i] in m {
      assert m[if i <= k then i - 1 else i] == blocks[i];
    }
    forall j | 0 <= j < |m| ensures CameFrom(m[j], blocks) {
      if j != k { assert Raises(m[j], blocks[if j < k then j + 1 else j]); }
    }
  }

  /** Moving until no block is left below the mark. */
  function FreeLow(s: State, low: nat, top: nat): State
    requires Good(s, top)
    decreases Height(s.blocks, top)
  {
    if s.blocks == [] || s.blocks[0].addr >= low then s
    else
      MoveKeeps(s, low, top);
      FreeLow(Move(s, low, top), low, top)
  }

  lemma LowFreed(s: State, low: nat, top: nat)
    requires Good(s, top) && Above(s.blocks, low)
    ensures FreeLow(s, low, top) == s
  {
  }

  /** Making way for the low hunk ends with every block at or above the mark; blocks that were
      there already stay in place, and the others are moved up or dropped. */
  lemma {:induction false} FreeLowKeeps(s: State, low: nat, top: nat)
    requires Good(s, top)
    ensures var t := FreeLow(s, low, top);
      Good(t, top) && Above(t.blocks, low) && Stay(s.blocks, t.blocks, low) && AllFrom(t.blocks, s.blocks)
    decreases Height(s.blocks, top)
  {
    var t := FreeLow(s, low, top);
    if s.blocks != [] && s.blocks[0].addr < low {
      var m := Move(s, low, top);
      MoveKeeps(s, low, top);
      MoveBlocks(s, low, top);
      MoveKeepsOthers(s.blocks, low, top, low);
      FreeLowKeeps(m, low, top);
      AllFromTransitive(t.blocks, m.blocks, s.blocks);
      StayTransitive(s.blocks, m.blocks, t.blocks, low);
    } else {
      AllFromSelf(s.blocks);
    }
  }

  lemma StayTransitive(a: seq<Block>, b: seq<Block>, c: seq<Block>, low: nat)
    requires Stay(a, b, low) && Stay(b, c, low)
    ensures Stay(a, c, low)
  {
    forall i | 0 <= i < |a| && a[i].addr >= low ensures a[i] in c {
      var j :| 0 <= j < |b| && b[j] == a[i];
    }
  }

  lemma RemoveFirst(s: State, c: Block)
    requires s.blocks != [] && s.blocks[0] == c
    ensures Remove(s, 0) == State(Without(s.blocks, 0), Unlinked(s.lru, c.addr), s.data - {c.user})
  {
  }

  lemma MoveIs(s: State, low: nat, top: nat, g: Gap)
    requires s.blocks != [] && FindGap(s.blocks, low, top, s.blocks[0].size, 1) == Some(g)
    ensures var c := s.blocks[0];
      Move(s, low, top) == State(With(Without(s.blocks, 0), g.index - 1, Block(g.addr, c.size, c.user)),
                                 [g.addr] + Unlinked(s.lru, c.addr),
                                 (s.data - {c.user})[c.user := g.addr + HEADER])
  {
  }

  // ----- who is lost

  /** No gap above the lowest block holds it. */
  ghost predicate NoRoomAbove(blocks: seq<Block>, low: nat, top: nat) {
    blocks != [] && forall i :: 1 <= i <= |blocks| ==> !Roomy(blocks, low, top, blocks[0].size, i)
  }

  /** An address leaves the order of use, and the rest of it stays. */
  ghost predicate Leaves(was: seq<nat>, now: seq<nat>, a: nat) {
    exists k :: 0 <= k < |was| && was[k] == a && now == was[..k] + was[k + 1..]
  }

  /** The lowest block goes to the first gap above that holds it, gap i, and is the latest used. */
  ghost predicate Relocated(s: State, t: State, low: nat, top: nat, i: nat) {
    && 1 <= i <= |s.blocks| && Roomy(s.blocks, low, top, s.blocks[0].size, i)
    && (forall k :: 1 <= k < i ==> !Roomy(s.blocks, low, top, s.blocks[0].size, k))
    && var (c, a) := (s.blocks[0], Floor(s.blocks, low, i));
    && t.blocks == s.blocks[1..i] + [Block(a, c.size, c.user)] + s.blocks[i..]
    && t.data == s.data[c.user := a + HEADER]
    && t.lru != [] && t.lru[0] == a && Leaves(s.lru, t.lru[1..], c.addr)
  }

  /** The lowest block is dropped, and its user has none. */
  ghost predicate Dropped(s: State, t: State) {
    && s.blocks != [] && t.blocks == s.blocks[1..]
    && t.data == s.data - {s.blocks[0].user} && Leaves(s.lru, t.lru, s.blocks[0].addr)
  }

  /** One step of making way for the low mark: the lowest block, which starts below it, goes to the
      first gap above that holds it; it is dropped if there is none. */
  ghost predicate MakesWay(s: State, t: State, low: nat, top: nat) {
    && Good(s, top) && s.blocks != [] && s.blocks[0].addr < low
    && ((exists i: nat :: Relocated(s, t, low, top, i)) || (NoRoomAbove(s.blocks, low, top) && Dropped(s, t)))
  }

  ghost predicate WayMade(ss: seq<State>, low: nat, top: nat) {
    forall i :: 0 <= i < |ss| - 1 ==> MakesWay(ss[i], ss[i + 1], low, top)
  }

  /** Steps of making way lead to a state in which the block of u is next and has nowhere to go. */
  ghost predicate Displaced(s: State, low: nat, top: nat, u: User) {
    exists ss :: DisplacedBy(ss, s, low, top, u)
  }

  ghost predicate DisplacedBy(ss: seq<State>, s: State, low: nat, top: nat, u: User) {
    && ss != [] && ss[0] == s && WayMade(ss, low, top)
    && var b := ss[|ss| - 1].blocks;
    b != [] && b[0].addr < low && b[0].user == u && NoRoomAbove(b, low, top)
  }

  lemma UnlinkedLeaves(lru: seq<nat>, a: nat)
    requires a in lru
    ensures Leaves(lru, Unlinked(lru, a), a)
  {
    var k := IndexOf(lru, a);
    assert lru[k] == a && Unlinked(lru, a) == lru[..k] + lru[k + 1..];
  }

  lemma RoomAboveIff(blocks: seq<Block>, low: nat, top: nat)
    requires blocks != []
    ensures FindGap(blocks, low, top, blocks[0].size, 1).None? <==> NoRoomAbove(blocks, low, top)
  {
  }

  lemma FirstLeaves(s: State, top: nat)
    requires Good(s, top) && s.blocks != []
    ensures Leaves(s.lru, Unlinked(s.lru, s.blocks[0].addr), s.blocks[0].addr)
  {
    assert PointedAt(s, 0);
    HomeIs(s, top, s.blocks[0].user);
    UnlinkedLeaves(s.lru, s.blocks[0].addr);
  }

  lemma MoveDrops(s: State, top: nat, low: nat)
    requires Good(s, top) && NoRoomAbove(s.blocks, low, top)
    ensures Dropped(s, Move(s, low, top))
  {
    hide Good, Unlinked, Leaves;
    FirstLeaves(s, top);
    RoomAboveIff(s.blocks, low, top);
    RemoveFirst(s, s.blocks[0]);
  }

  lemma MoveDrop(s: State, low: nat, top: nat)
    requires s.blocks != []
    ensures FindGap(s.blocks, low, top, s.blocks[0].size, 1).None? ==> Move(s, low, top) == Remove(s, 0)
  {
  }

  lemma MoveRelocates(s: State, low: nat, top: nat, g: Gap)
    requires Good(s, top) && s.blocks != [] && FindGap(s.blocks, low, top, s.blocks[0].size, 1) == Some(g)
    ensures Relocated(s, Move(s, low, top), low, top, g.index)
  {
    hide Good, Unlinked, Leaves, Move, FindGap, Roomy;
    FirstLeaves(s, top);
    MoveIs(s, low, top, g);
    MovedAround(s.blocks, g.index, Block(g.addr, s.blocks[0].size, s.blocks[0].user));
  }

  /** A move makes way. */
  lemma MoveMakesWay(s: State, low: nat, top: nat)
    requires Good(s, top) && s.blocks != [] && s.blocks[0].addr < low
    ensures MakesWay(s, Move(s, low, top), low, top)
    ensures NoRoomAbove(s.blocks, low, top) ==> Dropped(s, Move(s, low, top))
  {
    hide Good, Move, FindGap, NoRoomAbove, Dropped, Relocated;
    RoomAboveIff(s.blocks, low, top);
    match FindGap(s.blocks, low, top, s.blocks[0].size, 1)
    case None =>
      MoveDrops(s, top, low);
    case Some(g) =>
      MoveRelocates(s, low, top, g);
      assert Relocated(s, Move(s, low, top), low, top, g.index);
  }

  lemma MovedAround(blocks: seq<Block>, i: nat, b: Block)
    requires 1 <= i <= |blocks|
    ensures With(Without(blocks, 0), i - 1, b) == blocks[1..i] + [b] + blocks[i..]
  {
  }

  /** There is only one way to make way. */
  lemma MakesWayIs(s: State, t: State, low: nat, top: nat)
    requires MakesWay(s, t, low, top)
    ensures t == Move(s, low, top)
  {
    hide Good, Leaves, Move, NoRoomAbove;
    var (c, m) := (s.blocks[0], Move(s, low, top));
    RoomAboveIff(s.blocks, low, top);
    MoveMakesWay(s, low, top);
    if i: nat :| Relocated(s, t, low, top, i) {
      var j: nat :| Relocated(s, m, low, top, j);
      assert i == j;
      LeavesOne(s, top, t.lru[1..], m.lru[1..], c.addr);
      assert t.lru == [t.lru[0]] + t.lru[1..] && m.lru == [m.lru[0]] + m.lru[1..];
    } else {
      LeavesOne(s, top, t.lru, m.lru, c.addr);
    }
  }

  lemma LeavesOne(s: State, top: nat, a: seq<nat>, b: seq<nat>, x: nat)
    requires Good(s, top) && Leaves(s.lru, a, x) && Leaves(s.lru, b, x)
    ensures a == b
  {
    var j :| 0 <= j < |s.lru| && s.lru[j] == x && a == s.lru[..j] + s.lru[j + 1..];
    var k :| 0 <= k < |s.lru| && s.lru[k] == x && b == s.lru[..k] + s.lru[k + 1..];
    LruEntry(s, top, j);
    LruEntry(s, top, k);
  }

  /** Making way ends in t, where no block is below the mark. */
  ghost predicate MadeWay(s: State, t: State, low: nat, top: nat) {
    Above(t.blocks, low) && exists ss :: ss != [] && WayMade(ss, low, top) && ss[0] == s && ss[|ss| - 1] == t
  }

  lemma WayBehind(s: State, ss: seq<State>, low: nat, top: nat)
    requires ss != [] && WayMade(ss, low, top) && MakesWay(s, ss[0], low, top)
    ensures WayMade([s] + ss, low, top)
  {
    var l := [s] + ss;
    forall i | 0 <= i < |l| - 1 ensures MakesWay(l[i], l[i + 1], low, top) {
      if i > 0 { assert l[i] == ss[i - 1] && l[i + 1] == ss[i]; }
    }
  }

  /** Freeing the low end is making way until no block is below the mark. */
  lemma {:induction false} FreeLowMakesWay(s: State, low: nat, top: nat)
    requires Good(s, top)
    ensures MadeWay(s, FreeLow(s, low, top), low, top)
    decreases Height(s.blocks, top)
  {
    hide Good, MakesWay, Move, WayMade;
    var t := FreeLow(s, low, top);
    if s.blocks != [] && s.blocks[0].addr < low {
      var m := Move(s, low, top);
      MoveKeeps(s, low, top);
      MoveMakesWay(s, low, top);
      FreeLowMakesWay(m, low, top);
      var ss :| ss != [] && WayMade(ss, low, top) && ss[0] == m && ss[|ss| - 1] == t;
      WayBehind(s, ss, low, top);
      assert ([s] + ss)[0] == s && ([s] + ss)[|ss|] == t;
    } else {
      OneState(s, low, top);
      assert [s][0] == s;
    }
  }

  lemma OneState(s: State, low: nat, top: nat)
    ensures WayMade([s], low, top)
  {
  }

  /** No user comes back, and none but that of the lowest block goes. */
  lemma MoveUsers(s: State, low: nat, top: nat)
    requires Good(s, top) && s.blocks != []
    ensures NoRoomAbove(s.blocks, low, top) ==> Move(s, low, top).data.Keys == s.data.Keys - {s.blocks[0].user}
    ensures !NoRoomAbove(s.blocks, low, top) ==> Move(s, low, top).data.Keys == s.data.Keys
  {
    assert PointedAt(s, 0);
    hide Good, NoRoomAbove;
    RoomAboveIff(s.blocks, low, top);
    RemoveFirst(s, s.blocks[0]);
  }

  lemma {:induction false} FreeLowUsers(s: State, low: nat, top: nat)
    requires Good(s, top)
    ensures FreeLow(s, low, top).data.Keys <= s.data.Keys
    decreases Height(s.blocks, top)
  {
    hide Good, Move;
    if s.blocks != [] && s.blocks[0].addr < low {
      MoveKeeps(s, low, top);
      MoveUsers(s, low, top);
      FreeLowUsers(Move(s, low, top), low, top);
    }
  }

  /** A user is displaced if its block is the lowest and has nowhere to go, or else if it is
      displaced after a move. */
  lemma DisplacedStep(s: State, low: nat, top: nat, u: User)
    requires Good(s, top) && s.blocks != [] && s.blocks[0].addr < low
    ensures Displaced(s, low, top, u) <==>
      (s.blocks[0].user == u && NoRoomAbove(s.blocks, low, top)) || Displaced(Move(s, low, top), low, top, u)
  {
    hide Good, MakesWay, Move, NoRoomAbove;
    var m := Move(s, low, top);
    MoveMakesWay(s, low, top);
    OneState(s, low, top);
    if s.blocks[0].user == u && NoRoomAbove(s.blocks, low, top) {
      assert DisplacedBy([s], s, low, top, u);
    } else if Displaced(s, low, top, u) {
      var ss :| DisplacedBy(ss, s, low, top, u);
      assert MakesWay(ss[0], ss[1], low, top);
      MakesWayIs(s, ss[1], low, top);
      assert forall i :: 0 <= i < |ss| - 2 ==> MakesWay(ss[1..][i], ss[i + 2], low, top);
      assert DisplacedBy(ss[1..], m, low, top, u);
    }
    if Displaced(m, low, top, u) {
      var ss :| DisplacedBy(ss, m, low, top, u);
      WayBehind(s, ss, low, top);
      assert DisplacedBy([s] + ss, s, low, top, u);
    }
  }

  /** Making way costs a user its block exactly if, after some moves, that block is the lowest,
      starts below the mark, and no gap above it is large enough. */
  lemma {:induction false} LostIff(s: State, low: nat, top: nat, u: User)
    requires Good(s, top) && u in s.data
    ensures u in FreeLow(s, low, top).data <==> !Displaced(s, low, top, u)
    decreases Height(s.blocks, top)
  {
    hide Good, Move, NoRoomAbove, Displaced;
    if s.blocks != [] && s.blocks[0].addr < low {
      var m := Move(s, low, top);
      MoveKeeps(s, low, top);
      MoveUsers(s, low, top);
      DisplacedStep(s, low, top, u);
      if u in m.data {
        LostIff(m, low, top, u);
      } else {
        FreeLowUsers(m, low, top);
      }
    } else {
      NoneDisplaced(s, low, top, u);
    }
  }

  lemma DisplacedBelow(ss: seq<State>, s: State, low: nat, top: nat, u: User)
    requires DisplacedBy(ss, s, low, top, u)
    ensures s.blocks != [] && s.blocks[0].addr < low
  {
    if |ss| > 1 { assert MakesWay(ss[0], ss[1], low, top); }
  }

  lemma NoneDisplaced(s: State, low: nat, top: nat, u: User)
    requires Above(s.blocks, low)
    ensures !Displaced(s, low, top, u)
  {
    if Displaced(s, low, top, u) {
      var ss :| DisplacedBy(ss, s, low, top, u);
      DisplacedBelow(ss, s, low, top, u);
    }
  }

  // ----- where room is enough

  /** The bytes of the blocks that start below the mark. */
  function Unsettled(blocks: seq<Block>, low: nat): nat {
    if blocks == [] then 0 else (if blocks[0].addr < low then blocks[0].size else 0) + Unsettled(blocks[1..], low)
  }

  lemma {:induction false} UnsettledWith(blocks: seq<Block>, low: nat, k: nat, b: Block)
    requires k <= |blocks|
    ensures Unsettled(With(blocks, k, b), low) == Unsettled(blocks, low) + (if b.addr < low then b.size else 0)
  {
    if k == 0 {
      assert With(blocks, 0, b)[1..] == blocks;
    } else {
      UnsettledWith(blocks[1..], low, k - 1, b);
      assert With(blocks, k, b)[1..] == With(blocks[1..], k - 1, b);
    }
  }

  ghost predicate NoLarger(blocks: seq<Block>, low: nat, largest: nat) {
    forall i :: 0 <= i < |blocks| && blocks[i].addr < low ==> blocks[i].size <= largest
  }

  /** What starts below the mark fits behind the last block; where that ends below the mark, it
      fits behind the mark with the size of one block to spare. */
  ghost predicate Spacious(blocks: seq<Block>, low: nat, top: nat, largest: nat) {
    var end := Floor(blocks, low, |blocks|);
    && NoLarger(blocks, low, largest)
    && (if end < low then low + largest else end) + Unsettled(blocks, low) <= top
  }

  lemma SpaciousRoom(blocks: seq<Block>, low: nat, top: nat, largest: nat)
    requires blocks != [] && blocks[0].addr < low && Spacious(blocks, low, top, largest)
    ensures !NoRoomAbove(blocks, low, top) && blocks[0].size <= largest
    ensures Unsettled(blocks, low) == blocks[0].size + Unsettled(blocks[1..], low)
    ensures FindGap(blocks, low, top, blocks[0].size, 1).Some?
  {
    hide NoLarger, FindGap;
    LargestBounds(blocks, low, largest, 0);
    assert Roomy(blocks, low, top, blocks[0].size, |blocks|);
    RoomAboveIff(blocks, low, top);
  }

  /** The end of the last block once block b went to gap i. */
  lemma MovedEnd(blocks: seq<Block>, low: nat, i: nat, b: Block)
    requires 1 <= i <= |blocks| && b.size == blocks[0].size && b.addr == Floor(blocks, low, i)
    ensures Floor(With(blocks[1..], i - 1, b), low, |blocks|) ==
      Floor(blocks, low, |blocks|) + (if i == |blocks| then b.size else 0)
  {
  }

  lemma SpaciousMove(blocks: seq<Block>, low: nat, top: nat, largest: nat)
    requires blocks != [] && blocks[0].addr < low && Spacious(blocks, low, top, largest)
    ensures !NoRoomAbove(blocks, low, top) && Spacious(MovedBlocks(blocks, low, top), low, top, largest)
  {
    hide NoLarger, NoRoomAbove, FindGap, Unsettled;
    SpaciousRoom(blocks, low, top, largest);
    var g := FindGap(blocks, low, top, blocks[0].size, 1).value;
    var b := Block(g.addr, blocks[0].size, blocks[0].user);
    assert MovedBlocks(blocks, low, top) == With(blocks[1..], g.index - 1, b);
    SpaciousWith(blocks, low, top, largest, g.index, b);
  }

  lemma SpaciousWith(blocks: seq<Block>, low: nat, top: nat, largest: nat, i: nat, b: Block)
    requires 1 <= i <= |blocks| && b.size == blocks[0].size <= largest && b.addr == Floor(blocks, low, i)
    requires Unsettled(blocks, low) == b.size + Unsettled(blocks[1..], low) && Spacious(blocks, low, top, largest)
    ensures Spacious(With(blocks[1..], i - 1, b), low, top, largest)
  {
    hide NoLarger, Unsettled;
    MovedEnd(blocks, low, i, b);
    UnsettledWith(blocks[1..], low, i - 1, b);
    NoLargerWith(blocks, low, largest, i - 1, b);
  }

  lemma LargestBounds(blocks: seq<Block>, low: nat, largest: nat, i: nat)
    requires i < |blocks| && blocks[i].addr < low && NoLarger(blocks, low, largest)
    ensures blocks[i].size <= largest
  {
  }

  lemma NoLargerWith(blocks: seq<Block>, low: nat, largest: nat, k: nat, b: Block)
    requires k < |blocks| && NoLarger(blocks, low, largest) && b.size <= largest
    ensures NoLarger(With(blocks[1..], k, b), low, largest)
  {
  }

  /** Where room is enough, no user is lost. */
  lemma {:induction false} SpaciousKeepsAll(s: State, low: nat, top: nat, largest: nat)
    requires Good(s, top) && Spacious(s.blocks, low, top, largest)
    ensures FreeLow(s, low, top).data.Keys == s.data.Keys
    decreases Height(s.blocks, top)
  {
    hide Good, Move, NoRoomAbove, Spacious;
    if s.blocks != [] && s.blocks[0].addr < low {
      MoveKeeps(s, low, top);
      MoveUsers(s, low, top);
      MoveBlocks(s, low, top);
      SpaciousMove(s.blocks, low, top, largest);
      SpaciousKeepsAll(Move(s, low, top), low, top, largest);
    }
  }

  /** A block that fits between the marks can still be lost: it first goes to the gap right above
      itself, which is below the mark, and from there finds no room. */
  lemma BounceDrops()
    ensures var s := State([Block(0, 96, 1)], [0], map[1 := 92]);
      && Good(s, 272) && 152 + 96 <= 272
      && FreeLow(s, 152, 272) == State([], [], map[])
  {
    var s := State([Block(0, 96, 1)], [0], map[1 := 92]);
    var t := State([Block(96, 96, 1)], [96], map[1 := 188]);
    assert SpacedAt(s.blocks, 272, 0) && s.blocks[0].user == 1;
    assert Addrs(s.blocks) == [0];
    assert Move(s, 152, 272) == t;
    assert Move(t, 152, 272) == State([], [], map[]);
  }

  /** The whole of making way: the steps that lead there, who is lost, and where nobody is. */
  ghost predicate GaveWay(s: State, t: State, low: nat, top: nat) {
    && MadeWay(s, t, low, top)
    && t.data.Keys <= s.data.Keys
    && (forall u :: u in s.data ==> (u in t.data <==> !Displaced(s, low, top, u)))
    && (forall largest: nat :: Spacious(s.blocks, low, top, largest) ==> t.data.Keys == s.data.Keys)
  }

  lemma FreeLowGivesWay(s: State, low: nat, top: nat)
    requires Good(s, top)
    ensures GaveWay(s, FreeLow(s, low, top), low, top)
  {
    hide Good, FreeLow, Displaced, Spacious;
    var t := FreeLow(s, low, top);
    FreeLowMakesWay(s, low, top);
    FreeLowUsers(s, low, top);
    forall u | u in s.data ensures u in t.data <==> !Displaced(s, low, top, u) {
      LostIff(s, low, top, u);
    }
    forall largest: nat | Spacious(s.blocks, low, top, largest) ensures t.data.Keys == s.data.Keys {
      SpaciousKeepsAll(s, low, top, largest);
    }
  }
}
