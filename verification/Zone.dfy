/** The zone allocator of HUNK.c: a next-fit allocator over one contiguous range of addresses.

    The blocks tile the zone in address order and form a circular doubly linked list closed by a
    cap that is always marked in use.  Cells record what the blocks of the ring hold; the facts
    about allocation and release are proved on cells, and the class runs the pointer code. */
module Zone {
  import opened Basics

  // Sizes in bytes on the 32-bit target.
  const HEADER := 24        // sizeof(memblock_t)
  const ZONE_HEADER := 32   // sizeof(memzone_t)
  const TRASH := 4          // the trash tester behind each allocation
  const ZONEID := 0x1D4A11
  const MINFRAGMENT := 64

  // ----- cells

  /** A block's address, its size including the header, and its tag; 0 means free. */
  datatype Cell = Cell(addr: nat, size: nat, tag: int)

  predicate IsFree(c: Cell) {
    c.tag == 0
  }

  predicate Fits(c: Cell, need: nat) {
    IsFree(c) && c.size >= need
  }

  /** The space a request takes, rounded up to a multiple of eight. */
  function Need(size: nat): (n: nat)
    ensures n % 8 == 0 && size + HEADER + TRASH <= n < size + HEADER + TRASH + 8
  {
    (size + HEADER + TRASH + 7) / 8 * 8
  }

  /** The same as computed on 32 bits. */
  function Need32(size: nat): nat {
    ((size + HEADER + TRASH) % 0x1_0000_0000 + 7) % 0x1_0000_0000 / 8 * 8
  }

  /** The computed space holds the request exactly if the sum does not wrap around. */
  lemma NeedIff(size: nat)
    requires size < 0x1_0000_0000
    ensures Need32(size) >= size + HEADER + TRASH <==> size + HEADER + TRASH + 7 < 0x1_0000_0000
    ensures size + HEADER + TRASH + 7 < 0x1_0000_0000 ==> Need32(size) == Need(size)
  {
    var n := size + HEADER + TRASH;
    if n >= 0x1_0000_0000 {
      assert n % 0x1_0000_0000 == n - 0x1_0000_0000;
    }
  }

  /** Cell i ends where cell i + 1 begins, the last one at the end of the zone. */
  ghost predicate TouchesNext(cells: seq<Cell>, end: nat, i: nat)
    requires i < |cells|
  {
    cells[i].addr + cells[i].size == (if i + 1 < |cells| then cells[i + 1].addr else end)
  }

  ghost predicate KeepsApart(cells: seq<Cell>, i: nat)
    requires i + 1 < |cells|
  {
    !(IsFree(cells[i]) && IsFree(cells[i + 1]))
  }

  /** The cap comes first; the other cells are not empty and tile the zone from start to end. */
  ghost predicate Tiled(cells: seq<Cell>, start: nat, end: nat) {
    && |cells| >= 2 && !IsFree(cells[0]) && cells[1].addr == start
    && (forall i :: 1 <= i < |cells| ==> cells[i].size > 0)
    && (forall i :: 1 <= i < |cells| ==> TouchesNext(cells, end, i))
  }

  ghost predicate NoAdjacentFree(cells: seq<Cell>) {
    forall i :: 0 <= i < |cells| - 1 ==> KeepsApart(cells, i)
  }

  lemma {:induction false} TiledOrder(cells: seq<Cell>, start: nat, end: nat, i: nat, j: nat)
    requires Tiled(cells, start, end) && 1 <= i < j <= |cells|
    ensures start <= cells[i].addr && cells[i].addr + cells[i].size <= (if j < |cells| then cells[j].addr else end)
    decreases j
  {
    assert TouchesNext(cells, end, i);
    if i > 1 { TiledOrder(cells, start, end, i - 1, i); }
    if i + 1 < j {
      TiledOrder(cells, start, end, i, j - 1);
      assert TouchesNext(cells, end, j - 1);
    }
  }

  // ----- allocation on cells

  function Next(i: nat, n: nat): (k: nat)
    requires i < n
    ensures k < n
  {
    if i + 1 == n then 0 else i + 1
  }

  /** The cell d places behind cell r in the ring. */
  function Behind(r: nat, d: nat, n: nat): (k: nat)
    requires r < n && d < n
    ensures k < n
  {
    if r + d < n then r + d else r + d - n
  }

  /** Next fit: the first cell in ring order from r on, passing over d, that fits. */
  function NextFit(cells: seq<Cell>, r: nat, need: nat, d: nat): (j: int)
    requires r < |cells| && d <= |cells|
    ensures j == -1 || (0 <= j < |cells| && Fits(cells[j], need))
    decreases |cells| - d
  {
    if d == |cells| then -1
    else if Fits(cells[Behind(r, d, |cells|)], need) then Behind(r, d, |cells|)
    else NextFit(cells, r, need, d + 1)
  }

  /** The search misses no cell: it fails exactly when no cell of the ring fits. */
  lemma {:induction false} NextFitIsComplete(cells: seq<Cell>, r: nat, need: nat, d: nat)
    requires r < |cells| && d <= |cells|
    ensures NextFit(cells, r, need, d) == -1 <==>
      forall e :: d <= e < |cells| ==> !Fits(cells[Behind(r, e, |cells|)], need)
    decreases |cells| - d
  {
    if d < |cells| { NextFitIsComplete(cells, r, need, d + 1); }
  }

  lemma NextFitFails(cells: seq<Cell>, r: nat, need: nat)
    requires r < |cells|
    ensures NextFit(cells, r, need, 0) == -1 <==> forall i :: 0 <= i < |cells| ==> !Fits(cells[i], need)
  {
    NextFitIsComplete(cells, r, need, 0);
    var n := |cells|;
    if NextFit(cells, r, need, 0) == -1 {
      forall i | 0 <= i < n ensures !Fits(cells[i], need) {
        var e := if i >= r then i - r else i + n - r;
        assert Behind(r, e, n) == i;
      }
    }
  }

  /** Cell j is free and large enough, and no other is from cell r on, around the ring, up to it. */
  ghost predicate FirstFit(cells: seq<Cell>, r: nat, need: nat, j: int) {
    && 0 <= j < |cells| && cells[j].tag == 0 && cells[j].size >= need
    && forall i :: 0 <= i < |cells| && (if r <= j then r <= i < j else r <= i || i < j) ==>
      cells[i].tag != 0 || cells[i].size < need
  }

  lemma {:induction false} NextFitFrom(cells: seq<Cell>, r: nat, need: nat, d: nat) returns (e: nat)
    requires r < |cells| && d <= |cells|
    ensures NextFit(cells, r, need, d) != -1 ==>
      && d <= e < |cells| && NextFit(cells, r, need, d) == Behind(r, e, |cells|)
      && forall c :: d <= c < e ==> !Fits(cells[Behind(r, c, |cells|)], need)
    decreases |cells| - d
  {
    e := d;
    if d < |cells| && !Fits(cells[Behind(r, d, |cells|)], need) { e := NextFitFrom(cells, r, need, d + 1); }
  }

  /** The scan finds the first fit. */
  lemma NextFitIs(cells: seq<Cell>, r: nat, need: nat)
    requires r < |cells|
    ensures NextFit(cells, r, need, 0) != -1 ==> FirstFit(cells, r, need, NextFit(cells, r, need, 0))
  {
    var (n, j) := (|cells|, NextFit(cells, r, need, 0));
    var e := NextFitFrom(cells, r, need, 0);
    if j != -1 {
      forall i | 0 <= i < n && (if r <= j then r <= i < j else r <= i || i < j)
        ensures cells[i].tag != 0 || cells[i].size < need {
        var c := if i >= r then i - r else i + n - r;
        assert Behind(r, c, n) == i && c < e;
      }
    }
  }

  /** Cell j is given out with the size needed; a remainder over 64 bytes stays free behind it. */
  function Carve(cells: seq<Cell>, j: nat, need: nat, tag: int): seq<Cell>
    requires j < |cells| && need <= cells[j].size
  {
    var c := cells[j];
    var extra := c.size - need;
    if extra > MINFRAGMENT then
      cells[..j] + [Cell(c.addr, need, tag), Cell(c.addr + need, extra, 0)] + cells[j + 1..]
    else
      cells[j := c.(tag := tag)]
  }

  lemma CarveKeepsTiled(cells: seq<Cell>, start: nat, end: nat, j: nat, need: nat, tag: int)
    requires Tiled(cells, start, end) && NoAdjacentFree(cells)
    requires 1 <= j < |cells| && Fits(cells[j], need) && need > 0 && tag != 0
    ensures Tiled(Carve(cells, j, need, tag), start, end) && NoAdjacentFree(Carve(cells, j, need, tag))
  {
    var c, t := cells[j], Carve(cells, j, need, tag);
    var shift := |t| - |cells|;
    forall i | 1 <= i < |t| ensures TouchesNext(t, end, i) {
      assert TouchesNext(cells, end, if i <= j then i else i - shift);
    }
    forall i | 0 <= i < |t| - 1 ensures KeepsApart(t, i) {
      if i < j { assert KeepsApart(cells, i); }
      if i > j { assert KeepsApart(cells, i - shift); }
    }
  }

  // ----- what is used and what is free

  /** The cells in use, in order. */
  function Used(cells: seq<Cell>): seq<Cell> {
    if cells == [] then []
    else Used(cells[..|cells| - 1]) + (if IsFree(cells[|cells| - 1]) then [] else [cells[|cells| - 1]])
  }

  /** The bytes of the free cells, headers included. */
  function FreeBytes(cells: seq<Cell>): nat {
    if cells == [] then 0
    else FreeBytes(cells[..|cells| - 1]) + (if IsFree(cells[|cells| - 1]) then cells[|cells| - 1].size else 0)
  }

  lemma {:induction false} Together(a: seq<Cell>, b: seq<Cell>)
    ensures Used(a + b) == Used(a) + Used(b) && FreeBytes(a + b) == FreeBytes(a) + FreeBytes(b)
    decreases |b|
  {
    if b == [] {
      assert a + b == a;
    } else {
      Together(a, b[..|b| - 1]);
      assert (a + b)[..|a + b| - 1] == a + b[..|b| - 1];
    }
  }

  lemma OneCell(c: Cell)
    ensures Used([c]) == (if IsFree(c) then [] else [c]) && FreeBytes([c]) == if IsFree(c) then c.size else 0
  {
    assert [c][..0] == [];
  }

  lemma TwoCells(c: Cell, d: Cell)
    ensures Used([c, d]) == Used([c]) + Used([d]) && FreeBytes([c, d]) == FreeBytes([c]) + FreeBytes([d])
  {
    Together([c], [d]);
    assert [c] + [d] == [c, d];
  }

  lemma Around(a: seq<Cell>, m: seq<Cell>, b: seq<Cell>)
    ensures Used(a + m + b) == Used(a) + Used(m) + Used(b)
    ensures FreeBytes(a + m + b) == FreeBytes(a) + FreeBytes(m) + FreeBytes(b)
  {
    Together(a + m, b);
    Together(a, m);
  }

  /** Of cell j, which was free, the first given bytes are now in use under a tag.  They are just the
      space needed, and the rest is a free cell behind them, if that is over 64 bytes; otherwise they
      are all of it.  Every other cell is as it was. */
  ghost predicate Given(was: seq<Cell>, now: seq<Cell>, j: nat, need: nat, tag: int, given: nat)
    requires j < |was| && j < |now|
  {
    var c := was[j];
    && now[..j] == was[..j] && now[j] == Cell(c.addr, given, tag) && need <= given <= need + 64
    && if c.size > need + 64 then
         && given == need && j + 1 < |now| && now[j + 1] == Cell(c.addr + need, c.size - need, 0)
         && now[j + 2..] == was[j + 1..]
       else given == c.size && now[j + 1..] == was[j + 1..]
  }

  /** An allocation takes the space given from what is free, and changes nothing else in use. */
  lemma CarveGives(cells: seq<Cell>, j: nat, need: nat, tag: int)
    requires j < |cells| && Fits(cells[j], need) && tag != 0
    ensures var t := Carve(cells, j, need, tag);
      && |t| > j && Given(cells, t, j, need, tag, t[j].size)
      && FreeBytes(t) + t[j].size == FreeBytes(cells)
      && Used(t) == Used(cells[..j]) + [t[j]] + Used(cells[j + 1..])
  {
    hide Used, FreeBytes;
    var (c, t) := (cells[j], Carve(cells, j, need, tag));
    var (a, b) := (cells[..j], cells[j + 1..]);
    SplitAt(cells, j);
    if c.size - need > MINFRAGMENT {
      Replaced(a, b, c, [Cell(c.addr, need, tag), Cell(c.addr + need, c.size - need, 0)]);
      TwoCells(Cell(c.addr, need, tag), Cell(c.addr + need, c.size - need, 0));
      OneCell(Cell(c.addr + need, c.size - need, 0));
      OneCell(Cell(c.addr, need, tag));
    } else {
      assert t == a + [c.(tag := tag)] + b;
      Replaced(a, b, c, [c.(tag := tag)]);
      OneCell(c.(tag := tag));
    }
  }

  lemma SplitAt(cells: seq<Cell>, j: nat)
    requires j < |cells|
    ensures cells == cells[..j] + [cells[j]] + cells[j + 1..]
  {
  }

  /** Other cells in the place of one. */
  lemma Replaced(a: seq<Cell>, b: seq<Cell>, c: Cell, m: seq<Cell>)
    ensures Used(a + m + b) == Used(a) + Used(m) + Used(b)
    ensures FreeBytes(a + m + b) + (if IsFree(c) then c.size else 0) == FreeBytes(a + [c] + b) + FreeBytes(m)
    ensures Used(a + [c] + b) == Used(a) + (if IsFree(c) then [] else [c]) + Used(b)
  {
    Around(a, m, b);
    Around(a, [c], b);
    OneCell(c);
  }

  // ----- release on cells

  /** Cell k absorbs the following one. */
  function Merge(cells: seq<Cell>, k: nat): seq<Cell>
    requires k + 1 < |cells|
  {
    cells[..k] + [cells[k].(size := cells[k].size + cells[k + 1].size)] + cells[k + 2..]
  }

  /** A ring position after cell k absorbed the following one. */
  function MergedAt(r: nat, k: nat): nat {
    if r > k then r - 1 else r
  }

  function MergeBack(cells: seq<Cell>, k: nat): seq<Cell>
    requires 1 <= k < |cells|
  {
    if IsFree(cells[k - 1]) then Merge(cells, k - 1) else cells
  }

  function MergeForward(cells: seq<Cell>, k: nat): seq<Cell>
    requires k < |cells|
  {
    if k + 1 < |cells| && IsFree(cells[k + 1]) then Merge(cells, k) else cells
  }

  /** Where the released cell is after merging back. */
  function Landing(cells: seq<Cell>, k: nat): (l: nat)
    requires 1 <= k < |cells|
  {
    if IsFree(cells[k - 1]) then k - 1 else k
  }

  /** Cell k is marked free and merged with a free cell before it, then with one behind it. */
  function Release(cells: seq<Cell>, k: nat): seq<Cell>
    requires 1 <= k < |cells|
  {
    var marked := cells[k := cells[k].(tag := 0)];
    MergeForward(MergeBack(marked, k), Landing(marked, k))
  }

  /** Merging free cells changes neither what is used nor how much is free. */
  lemma MergeFrees(cells: seq<Cell>, k: nat)
    requires k + 1 < |cells| && IsFree(cells[k]) && IsFree(cells[k + 1])
    ensures Used(Merge(cells, k)) == Used(cells) && FreeBytes(Merge(cells, k)) == FreeBytes(cells)
  {
    hide Used, FreeBytes;
    var (a, c, d, b) := (cells[..k], cells[k], cells[k + 1], cells[k + 2..]);
    var m := c.(size := c.size + d.size);
    assert cells == a + [c, d] + b;
    Around(a, [c, d], b);
    Around(a, [m], b);
    TwoCells(c, d);
    OneCell(c);
    OneCell(d);
    OneCell(m);
  }

  /** A release gives exactly the space of its cell back, and changes nothing else in use. */
  lemma ReleaseFrees(cells: seq<Cell>, k: nat)
    requires 1 <= k < |cells| && !IsFree(cells[k])
    ensures FreeBytes(Release(cells, k)) == FreeBytes(cells) + cells[k].size
    ensures Used(Release(cells, k)) == Used(cells[..k]) + Used(cells[k + 1..])
  {
    MarkFrees(cells, k);
    hide Used, FreeBytes, Merge;
    var marked := cells[k := cells[k].(tag := 0)];
    if IsFree(marked[k - 1]) { MergeFrees(marked, k - 1); }
    MergedBack(marked, k);
    var (back, l) := (MergeBack(marked, k), Landing(marked, k));
    if l + 1 < |back| && IsFree(back[l + 1]) { MergeFrees(back, l); }
  }

  lemma MergedBack(cells: seq<Cell>, k: nat)
    requires 1 <= k < |cells| && IsFree(cells[k])
    ensures Landing(cells, k) < |MergeBack(cells, k)| && IsFree(MergeBack(cells, k)[Landing(cells, k)])
  {
  }

  lemma MarkFrees(cells: seq<Cell>, k: nat)
    requires k < |cells| && !IsFree(cells[k])
    ensures var t := cells[k := cells[k].(tag := 0)];
      FreeBytes(t) == FreeBytes(cells) + cells[k].size && Used(t) == Used(cells[..k]) + Used(cells[k + 1..])
  {
    hide Used, FreeBytes;
    var (a, c, b) := (cells[..k], cells[k], cells[k + 1..]);
    SplitAt(cells, k);
    assert cells[k := c.(tag := 0)] == a + [c.(tag := 0)] + b;
    Replaced(a, b, c, [c.(tag := 0)]);
    OneCell(c.(tag := 0));
    assert Used(a) + [] + Used(b) == Used(a) + Used(b);
  }

  ghost predicate Covers(c: Cell, x: nat) {
    c.addr <= x < c.addr + c.size
  }

  /** After a merge the place r is that of the cell that covers what r covered before. */
  lemma MergeCovers(cells: seq<Cell>, start: nat, end: nat, k: nat, r: nat)
    requires Tiled(cells, start, end) && 1 <= k < |cells| - 1 && r < |cells|
    ensures MergedAt(r, k) < |Merge(cells, k)|
    ensures forall x :: Covers(cells[r], x) ==> Covers(Merge(cells, k)[MergedAt(r, k)], x)
  {
    assert TouchesNext(cells, end, k);
    assert r > k + 1 ==> Merge(cells, k)[r - 1] == cells[r];
  }

  lemma MergeKeepsTiled(cells: seq<Cell>, start: nat, end: nat, k: nat)
    requires Tiled(cells, start, end) && 1 <= k < |cells| - 1
    ensures Tiled(Merge(cells, k), start, end)
  {
    var t := Merge(cells, k);
    forall i | 1 <= i < |t| ensures TouchesNext(t, end, i) {
      assert TouchesNext(cells, end, if i < k then i else i + 1);
      if i == k { assert TouchesNext(cells, end, k); }
    }
  }

  /** Marking a cell free keeps the tiling, and leaves free neighbours only beside it. */
  lemma MarkKeepsTiled(cells: seq<Cell>, start: nat, end: nat, k: nat)
    requires Tiled(cells, start, end) && NoAdjacentFree(cells) && 1 <= k < |cells|
    ensures var t := cells[k := cells[k].(tag := 0)];
      && Tiled(t, start, end)
      && forall i :: 0 <= i < |t| - 1 && i != k - 1 && i != k ==> KeepsApart(t, i)
  {
    var t := cells[k := cells[k].(tag := 0)];
    forall i | 1 <= i < |t| ensures TouchesNext(t, end, i) {
      assert TouchesNext(cells, end, i);
    }
    forall i | 0 <= i < |t| - 1 && i != k - 1 && i != k ensures KeepsApart(t, i) {
      assert KeepsApart(cells, i);
    }
  }

  lemma MergeBackKeeps(cells: seq<Cell>, start: nat, end: nat, k: nat)
    requires Tiled(cells, start, end) && 1 <= k < |cells| && IsFree(cells[k])
    requires forall i :: 0 <= i < |cells| - 1 && i != k - 1 && i != k ==> KeepsApart(cells, i)
    ensures var (t, l) := (MergeBack(cells, k), Landing(cells, k));
      && Tiled(t, start, end) && 1 <= l < |t| && IsFree(t[l])
      && forall i :: 0 <= i < |t| - 1 && i != l ==> KeepsApart(t, i)
  {
    var t, l := MergeBack(cells, k), Landing(cells, k);
    if IsFree(cells[k - 1]) {
      MergeKeepsTiled(cells, start, end, k - 1);
      forall i | 0 <= i < |t| - 1 && i != l ensures KeepsApart(t, i) {
        assert KeepsApart(cells, if i < l then i else i + 1);
      }
    } else {
      assert KeepsApart(cells, k - 1);
    }
  }

  lemma MergeForwardKeeps(cells: seq<Cell>, start: nat, end: nat, k: nat)
    requires Tiled(cells, start, end) && 1 <= k < |cells| && IsFree(cells[k])
    requires forall i :: 0 <= i < |cells| - 1 && i != k ==> KeepsApart(cells, i)
    ensures Tiled(MergeForward(cells, k), start, end) && NoAdjacentFree(MergeForward(cells, k))
  {
    var t := MergeForward(cells, k);
    if k + 1 < |cells| && IsFree(cells[k + 1]) {
      MergeKeepsTiled(cells, start, end, k);
      forall i | 0 <= i < |t| - 1 ensures KeepsApart(t, i) {
        assert i < k ==> KeepsApart(cells, i);
        assert i >= k ==> KeepsApart(cells, i + 1);
      }
    } else {
      assert k + 1 < |cells| ==> KeepsApart(cells, k);
    }
  }

  lemma ReleaseKeepsTiled(cells: seq<Cell>, start: nat, end: nat, k: nat)
    requires Tiled(cells, start, end) && NoAdjacentFree(cells) && 1 <= k < |cells|
    ensures Tiled(Release(cells, k), start, end) && NoAdjacentFree(Release(cells, k))
  {
    var marked := cells[k := cells[k].(tag := 0)];
    MarkKeepsTiled(cells, start, end, k);
    MergeBackKeeps(marked, start, end, k);
    MergeForwardKeeps(MergeBack(marked, k), start, end, Landing(marked, k));
  }

  // ----- what is allocated

  /** The requests in use: the payload address of each and the size asked for. */
  type Live = map<nat, nat>

  /** Cell i is in use exactly if its payload is live, and then holds the request and its trash
      tester. */
  ghost predicate Holds(cells: seq<Cell>, live: Live, i: nat)
    requires i < |cells|
  {
    var p := cells[i].addr + HEADER;
    && (!IsFree(cells[i]) <==> p in live)
    && (p in live ==> HEADER + live[p] + TRASH <= cells[i].size)
  }

  ghost predicate HasCell(cells: seq<Cell>, p: nat) {
    exists i :: 1 <= i < |cells| && cells[i].addr + HEADER == p
  }

  /** The cells in use and the live payloads match one to one. */
  ghost predicate Accounts(cells: seq<Cell>, live: Live) {
    && (forall i :: 1 <= i < |cells| ==> Holds(cells, live, i))
    && (forall p :: p in live ==> HasCell(cells, p))
  }

  /** Live payloads lie inside the zone, behind its own header, and neither overlap one another
      nor any block header or trash tester. */
  lemma PayloadsDisjoint(cells: seq<Cell>, start: nat, end: nat, live: Live, p: nat, q: nat)
    requires Tiled(cells, start, end) && Accounts(cells, live) && p in live && q in live
    ensures start + HEADER <= p && p + live[p] + TRASH <= end
    ensures p < q ==> p + live[p] + TRASH + HEADER <= q
  {
    assert HasCell(cells, p) && HasCell(cells, q);
    var i :| 1 <= i < |cells| && cells[i].addr + HEADER == p;
    var j :| 1 <= j < |cells| && cells[j].addr + HEADER == q;
    assert Holds(cells, live, i) && Holds(cells, live, j);
    TiledOrder(cells, start, end, i, |cells|);
    if i < j { TiledOrder(cells, start, end, i, j); }
    if j < i { TiledOrder(cells, start, end, j, i); }
  }

  lemma NothingLiveAllFree(cells: seq<Cell>)
    requires Accounts(cells, map[])
    ensures forall i :: 1 <= i < |cells| ==> IsFree(cells[i])
  {
    forall i | 1 <= i < |cells| ensures IsFree(cells[i]) {
      assert Holds(cells, map[], i);
    }
  }

  lemma NextInUse(cells: seq<Cell>, i: nat)
    requires NoAdjacentFree(cells) && i + 1 < |cells| && IsFree(cells[i])
    ensures !IsFree(cells[i + 1])
  {
    assert KeepsApart(cells, i);
  }

  /** Freeing everything restores one single free block that covers the zone. */
  lemma NothingLive(cells: seq<Cell>, start: nat, end: nat)
    requires Tiled(cells, start, end) && NoAdjacentFree(cells) && Accounts(cells, map[])
    ensures |cells| == 2 && IsFree(cells[1]) && cells[1].addr == start && start + cells[1].size == end
  {
    assert Holds(cells, map[], 1) && TouchesNext(cells, end, 1);
    if |cells| > 2 {
      NextInUse(cells, 1);
      NothingLiveAllFree(cells);
      assert false;
    }
  }

  lemma CarveAccounts(cells: seq<Cell>, start: nat, end: nat, live: Live, j: nat, size: nat, tag: int)
    requires Tiled(cells, start, end) && Accounts(cells, live)
    requires 1 <= j < |cells| && Fits(cells[j], Need(size)) && tag != 0
    ensures Accounts(Carve(cells, j, Need(size), tag), live[cells[j].addr + HEADER := size])
    ensures cells[j].addr + HEADER !in live
  {
    var p, t := cells[j].addr + HEADER, Carve(cells, j, Need(size), tag);
    var live', shift := live[p := size], |t| - |cells|;
    assert Holds(cells, live, j);
    forall i | 1 <= i < |t| ensures Holds(t, live', i) {
      if i < j {
        assert Holds(cells, live, i);
        TiledOrder(cells, start, end, i, j);
      } else if i > j + shift {
        assert Holds(cells, live, i - shift);
        TiledOrder(cells, start, end, j, i - shift);
      } else if i > j {
        SplitIsNotLive(cells, start, end, live, j, Need(size));
      }
    }
    forall q | q in live' ensures HasCell(t, q) {
      if q == p {
        assert t[j].addr + HEADER == p;
      } else {
        assert HasCell(cells, q);
        var i :| 1 <= i < |cells| && cells[i].addr + HEADER == q;
        assert t[if i <= j then i else i + shift].addr == cells[i].addr;
      }
    }
  }

  /** No live payload starts strictly inside a cell. */
  lemma SplitIsNotLive(cells: seq<Cell>, start: nat, end: nat, live: Live, j: nat, off: nat)
    requires Tiled(cells, start, end) && Accounts(cells, live) && 1 <= j < |cells| && 0 < off < cells[j].size
    ensures cells[j].addr + off + HEADER !in live
  {
    var q := cells[j].addr + off + HEADER;
    if q in live {
      assert HasCell(cells, q);
      var i :| 1 <= i < |cells| && cells[i].addr + HEADER == q;
      if i < j { TiledOrder(cells, start, end, i, j); }
      if i > j { TiledOrder(cells, start, end, j, i); }
      assert false;
    }
  }

  lemma MarkAccounts(cells: seq<Cell>, start: nat, end: nat, live: Live, k: nat)
    requires Tiled(cells, start, end) && Accounts(cells, live) && 1 <= k < |cells|
    ensures Accounts(cells[k := cells[k].(tag := 0)], live - {cells[k].addr + HEADER})
  {
    var t, live' := cells[k := cells[k].(tag := 0)], live - {cells[k].addr + HEADER};
    forall i | 1 <= i < |t| ensures Holds(t, live', i) {
      assert Holds(cells, live, i);
      if i < k { TiledOrder(cells, start, end, i, k); }
      if i > k { TiledOrder(cells, start, end, k, i); }
    }
    forall q | q in live' ensures HasCell(t, q) {
      assert HasCell(cells, q);
      var i :| 1 <= i < |cells| && cells[i].addr + HEADER == q;
      assert t[i].addr == cells[i].addr;
    }
  }

  lemma MergeAccounts(cells: seq<Cell>, live: Live, k: nat)
    requires Accounts(cells, live) && 1 <= k < |cells| - 1 && IsFree(cells[k]) && IsFree(cells[k + 1])
    ensures Accounts(Merge(cells, k), live)
  {
    var t := Merge(cells, k);
    assert Holds(cells, live, k + 1);
    forall i | 1 <= i < |t| ensures Holds(t, live, i) {
      assert Holds(cells, live, if i <= k then i else i + 1);
    }
    forall q | q in live ensures HasCell(t, q) {
      assert HasCell(cells, q);
      var i :| 1 <= i < |cells| && cells[i].addr + HEADER == q;
      assert i != k + 1;
      assert t[if i <= k then i else i - 1].addr == cells[i].addr;
    }
  }

  lemma ReleaseAccounts(cells: seq<Cell>, start: nat, end: nat, live: Live, k: nat)
    requires Tiled(cells, start, end) && NoAdjacentFree(cells) && Accounts(cells, live) && 1 <= k < |cells|
    ensures Accounts(Release(cells, k), live - {cells[k].addr + HEADER})
  {
    var marked, live' := cells[k := cells[k].(tag := 0)], live - {cells[k].addr + HEADER};
    MarkKeepsTiled(cells, start, end, k);
    MarkAccounts(cells, start, end, live, k);
    if IsFree(marked[k - 1]) { MergeAccounts(marked, live', k - 1); }
    MergeBackKeeps(marked, start, end, k);
    var (t, l) := (MergeBack(marked, k), Landing(marked, k));
    if l + 1 < |t| && IsFree(t[l + 1]) { MergeAccounts(t, live', l); }
  }

  /** Everything the three steps of a release need and the whole of it keeps. */
  lemma ReleaseSteps(cells: seq<Cell>, start: nat, end: nat, live: Live, k: nat)
    requires Tiled(cells, start, end) && NoAdjacentFree(cells) && Accounts(cells, live) && 1 <= k < |cells|
    ensures var marked := cells[k := cells[k].(tag := 0)];
      && Tiled(marked, start, end) && 1 <= Landing(marked, k) < |MergeBack(marked, k)|
      && Release(cells, k) == MergeForward(MergeBack(marked, k), Landing(marked, k))
    ensures NoAdjacentFree(Release(cells, k)) && Accounts(Release(cells, k), live - {cells[k].addr + HEADER})
  {
    MarkKeepsTiled(cells, start, end, k);
    MergeBackKeeps(cells[k := cells[k].(tag := 0)], start, end, k);
    ReleaseKeepsTiled(cells, start, end, k);
    ReleaseAccounts(cells, start, end, live, k);
  }

  /** Releasing a cell just given out restores the zone exactly, split or not. */
  lemma ReleaseUndoesCarve(cells: seq<Cell>, start: nat, end: nat, j: nat, need: nat, tag: int)
    requires Tiled(cells, start, end) && NoAdjacentFree(cells)
    requires 1 <= j < |cells| && Fits(cells[j], need) && need > 0 && tag != 0
    ensures Release(Carve(cells, j, need, tag), j) == cells
  {
    var t := Carve(cells, j, need, tag);
    var marked := t[j := t[j].(tag := 0)];
    assert KeepsApart(cells, j - 1) && (j + 1 < |cells| ==> KeepsApart(cells, j));
    assert !IsFree(marked[j - 1]);
    assert MergeForward(marked, j) == cells;
  }

  // ----- the ring of blocks

  class MemBlock {
    const addr: nat
    var size: nat
    var tag: int
    var id: nat
    var next: MemBlock
    var prev: MemBlock

    constructor (addr: nat, size: nat, tag: int, id: nat)
      ensures this.addr == addr && this.size == size && this.tag == tag && this.id == id
      ensures next == this && prev == this
    {
      this.addr, this.size, this.tag, this.id := addr, size, tag, id;
      next := this;
      prev := this;
    }
  }

  ghost predicate Differ(ring: seq<MemBlock>, i: nat, j: nat)
    requires i < |ring| && j < |ring|
  {
    i != j ==> ring[i] != ring[j]
  }

  ghost predicate Distinct(ring: seq<MemBlock>) {
    forall i, j :: 0 <= i < |ring| && 0 <= j < |ring| ==> Differ(ring, i, j)
  }

  ghost predicate Within(s: seq<MemBlock>, t: seq<MemBlock>) {
    forall i :: 0 <= i < |s| ==> s[i] in t
  }

  /** The blocks of s that are not in t are marked free. */
  ghost predicate LeftFree(s: seq<MemBlock>, t: seq<MemBlock>)
    reads s`tag
  {
    forall i :: 0 <= i < |s| ==> s[i] in t || s[i].tag == 0
  }

  lemma WithoutGone(ring: seq<MemBlock>, k: nat)
    requires Distinct(ring) && k < |ring|
    ensures ring[k] !in Without(ring, k)
  {
    forall i | 0 <= i < |ring| && i != k ensures ring[i] != ring[k] {
      assert Differ(ring, i, k);
    }
  }

  lemma WithoutOnly<T>(s: seq<T>, k: nat)
    requires k < |s|
    ensures forall i :: 0 <= i < |s| ==> i == k || s[i] in Without(s, k)
  {
    forall i | 0 <= i < |s| ensures i == k || s[i] in Without(s, k) {
      if i != k { assert Without(s, k)[if i < k then i else i - 1] == s[i]; }
    }
  }

  ghost predicate NextAt(ring: seq<MemBlock>, i: nat)
    requires i < |ring|
    reads ring`next
  {
    ring[i].next == ring[Next(i, |ring|)]
  }

  ghost predicate PrevAt(ring: seq<MemBlock>, i: nat)
    requires i < |ring|
    reads ring`prev
  {
    ring[Next(i, |ring|)].prev == ring[i]
  }

  /** The next and prev links lead around the ring. */
  ghost predicate Linked(ring: seq<MemBlock>)
    reads ring`next, ring`prev
  {
    forall i :: 0 <= i < |ring| ==> NextAt(ring, i) && PrevAt(ring, i)
  }

  ghost predicate ShowsAt(ring: seq<MemBlock>, cells: seq<Cell>, i: nat)
    requires i < |ring| == |cells|
    reads ring`size, ring`tag, ring`id
  {
    && cells[i] == Cell(ring[i].addr, ring[i].size, ring[i].tag)
    && ring[i].id == (if i == 0 then 0 else ZONEID)
  }

  /** The cells record what the blocks hold; only the cap lacks the zone's id. */
  ghost predicate Shows(ring: seq<MemBlock>, cells: seq<Cell>)
    reads ring`size, ring`tag, ring`id
  {
    |ring| == |cells| && forall i :: 0 <= i < |ring| ==> ShowsAt(ring, cells, i)
  }

  function Inserted<T>(s: seq<T>, k: nat, x: T): seq<T>
    requires k < |s|
  {
    s[..k + 1] + [x] + s[k + 1..]
  }

  /** Block b was linked in behind position k. */
  lemma LinkedInserted(ring: seq<MemBlock>, k: nat, b: MemBlock)
    requires Distinct(ring) && b !in ring && k < |ring|
    requires b.prev == ring[k] && b.next == ring[Next(k, |ring|)]
    requires ring[k].next == b && ring[Next(k, |ring|)].prev == b
    requires forall i :: 0 <= i < |ring| && i != k ==> NextAt(ring, i) && PrevAt(ring, i)
    ensures Distinct(Inserted(ring, k, b)) && Linked(Inserted(ring, k, b))
  {
    var t, n := Inserted(ring, k, b), |ring|;
    forall i | 0 <= i < |t| ensures NextAt(t, i) && PrevAt(t, i) {
      if i < k { assert NextAt(ring, i) && PrevAt(ring, i); }
      if i > k + 1 { assert NextAt(ring, i - 1) && PrevAt(ring, i - 1); }
    }
    forall i, j | 0 <= i < |t| && 0 <= j < |t| ensures Differ(t, i, j) {
      if i != k + 1 && j != k + 1 {
        assert Differ(ring, if i <= k then i else i - 1, if j <= k then j else j - 1);
      }
    }
  }

  /** Block k was linked out; it is not the cap. */
  lemma LinkedRemoved(ring: seq<MemBlock>, k: nat)
    requires Distinct(ring) && 1 <= k < |ring|
    requires ring[k - 1].next == ring[Next(k, |ring|)] && ring[Next(k, |ring|)].prev == ring[k - 1]
    requires forall i :: 0 <= i < |ring| && i != k - 1 && i != k ==> NextAt(ring, i) && PrevAt(ring, i)
    ensures Distinct(Without(ring, k)) && Linked(Without(ring, k)) && ring[k] !in Without(ring, k)
  {
    var t, n := Without(ring, k), |ring|;
    forall i | 0 <= i < |t| ensures NextAt(t, i) && PrevAt(t, i) {
      if i < k - 1 { assert NextAt(ring, i) && PrevAt(ring, i); }
      if i >= k { assert NextAt(ring, i + 1) && PrevAt(ring, i + 1); }
    }
    forall i, j | 0 <= i < |t| && 0 <= j < |t| ensures Differ(t, i, j) {
      assert Differ(ring, if i < k then i else i + 1, if j < k then j else j + 1);
    }
    forall i | 0 <= i < |t| ensures t[i] != ring[k] {
      assert Differ(ring, if i < k then i else i + 1, k);
    }
  }

  /** Writes the links of block b in between a block and its successor. */
  method LinkBehind(b: MemBlock, a: MemBlock, ghost ring: seq<MemBlock>, ghost k: nat)
    requires Linked(ring) && Distinct(ring) && b !in ring && k < |ring| && a == ring[k]
    modifies b`next, b`prev, ring`next, ring`prev
    ensures Linked(Inserted(ring, k, b)) && Distinct(Inserted(ring, k, b))
  {
    assert NextAt(ring, k);
    b.prev := a;
    b.next := a.next;
    b.next.prev := b;
    a.next := b;
    forall i | 0 <= i < |ring| && i != k ensures NextAt(ring, i) && PrevAt(ring, i) {
      assert old(NextAt(ring, i) && PrevAt(ring, i));
      assert Differ(ring, i, k) && Differ(ring, Next(i, |ring|), Next(k, |ring|));
    }
    LinkedInserted(ring, k, b);
  }

  /** Links the successor of a block out. */
  method UnlinkNext(a: MemBlock, b: MemBlock, ghost ring: seq<MemBlock>, ghost k: nat)
    requires Linked(ring) && Distinct(ring) && 1 <= k < |ring| && a == ring[k - 1] && b == ring[k]
    modifies ring`next, ring`prev
    ensures Linked(Without(ring, k)) && Distinct(Without(ring, k)) && b !in Without(ring, k)
  {
    assert NextAt(ring, k);
    a.next := b.next;
    a.next.prev := a;
    forall i | 0 <= i < |ring| && i != k - 1 && i != k ensures NextAt(ring, i) && PrevAt(ring, i) {
      assert old(NextAt(ring, i) && PrevAt(ring, i));
      assert Differ(ring, i, k - 1) && Differ(ring, Next(i, |ring|), Next(k, |ring|));
    }
    LinkedRemoved(ring, k);
  }

  /** The cells after a block was split, and after one absorbed its successor. */
  lemma ShowsInserted(ring: seq<MemBlock>, cells: seq<Cell>, k: nat, b: MemBlock, now: seq<Cell>)
    requires |ring| == |cells| && k < |ring| && b.id == ZONEID && |now| == |cells| + 1
    requires forall i :: 0 <= i < |ring| && i != k ==> ShowsAt(ring, cells, i)
    requires now == cells[..k] + now[k..k + 2] + cells[k + 1..]
    requires now[k] == Cell(ring[k].addr, ring[k].size, ring[k].tag) && ring[k].id == (if k == 0 then 0 else ZONEID)
    requires now[k + 1] == Cell(b.addr, b.size, b.tag)
    ensures Shows(Inserted(ring, k, b), now)
  {
    var t := Inserted(ring, k, b);
    forall i | 0 <= i < |t| ensures ShowsAt(t, now, i) {
      if i < k { assert ShowsAt(ring, cells, i); }
      if i > k + 1 { assert ShowsAt(ring, cells, i - 1); }
    }
  }

  lemma ShowsMerged(ring: seq<MemBlock>, cells: seq<Cell>, k: nat)
    requires |ring| == |cells| && k + 1 < |ring|
    requires forall i :: 0 <= i < |ring| && i != k ==> ShowsAt(ring, cells, i)
    requires ring[k].id == (if k == 0 then 0 else ZONEID) && ring[k].tag == cells[k].tag
      && ring[k].addr == cells[k].addr
    requires ring[k].size == cells[k].size + cells[k + 1].size
    ensures Shows(Without(ring, k + 1), Merge(cells, k))
  {
    var t, m := Without(ring, k + 1), Merge(cells, k);
    forall i | 0 <= i < |t| ensures ShowsAt(t, m, i) {
      if i < k { assert ShowsAt(ring, cells, i); }
      if i > k { assert ShowsAt(ring, cells, i + 1); }
    }
  }

  class Zone {
    const base: nat
    const size: nat
    const blocklist: MemBlock   // the cap
    var rover: MemBlock
    ghost var ring: seq<MemBlock>
    ghost var cells: seq<Cell>
    ghost var at: nat           // the rover's place in the ring
    ghost var live: Live

    /** A well-formed ring of blocks that tile the zone. */
    ghost predicate Formed()
      reads this, ring
    {
      && Linked(ring) && Distinct(ring) && Shows(ring, cells)
      && Tiled(cells, base + ZONE_HEADER, base + size)
      && ring[0] == blocklist
      && at < |ring| && rover == ring[at]
    }

    ghost predicate Valid()
      reads this, ring
    {
      Formed() && NoAdjacentFree(cells) && Accounts(cells, live)
    }

    /** Z_ClearZone: one free block behind the zone's header. */
    constructor (base: nat, size: nat)
      requires size > ZONE_HEADER
      ensures Valid() && live == map[] && this.base == base && this.size == size
      ensures cells[1..] == [Cell(base + ZONE_HEADER, size - ZONE_HEADER, 0)]
      ensures forall b :: b in ring ==> fresh(b)
    {
      var cap := new MemBlock(base + 4, 0, 1, 0);
      var block := new MemBlock(base + ZONE_HEADER, size - ZONE_HEADER, 0, ZONEID);
      cap.next, cap.prev := block, block;
      block.prev, block.next := cap, cap;
      this.base, this.size, blocklist, rover := base, size, cap, block;
      ring, at, live := [cap, block], 1, map[];
      cells := [Cell(base + 4, 0, 1), Cell(base + ZONE_HEADER, size - ZONE_HEADER, 0)];
      new;
      assert Differ(ring, 0, 1);
    }

    // ----- the heap check

    ghost predicate Forward()
      reads this, ring
    {
      |ring| >= 2 && ring[0] == blocklist && Distinct(ring) && forall i :: 0 <= i < |ring| ==> NextAt(ring, i)
    }

    /** What the check wants of block i and its successor. */
    ghost predicate SoundAt(i: nat)
      reads this, ring
      requires i + 1 < |ring|
    {
      var (b, n) := (ring[i], ring[i + 1]);
      b.addr + b.size == n.addr && n.prev == b && !(b.tag == 0 && n.tag == 0)
    }

    /** Walks the ring along its next links; false stands for the fatal errors.  The check passes
        exactly when every block touches the next, is linked back from it, and is not free
        together with it. */
    method CheckHeap() returns (ok: bool)
      requires Forward()
      ensures ok <==> forall i :: 1 <= i < |ring| - 1 ==> SoundAt(i)
    {
      ghost var i := 1;
      assert NextAt(ring, 0);
      var block := blocklist.next;
      while true
        invariant 1 <= i < |ring| && block == ring[i]
        invariant forall j :: 1 <= j < i ==> SoundAt(j)
        decreases |ring| - i
      {
        assert NextAt(ring, i) && (i + 1 < |ring| ==> Differ(ring, 0, i + 1));
        if block.next == blocklist { return true; }
        assert SoundAt(i) <==>
          block.addr + block.size == block.next.addr && block.next.prev == block &&
          !(block.tag == 0 && block.next.tag == 0);
        if block.addr + block.size != block.next.addr { return false; }
        if block.next.prev != block { return false; }
        if block.tag == 0 && block.next.tag == 0 { return false; }
        block := block.next;
        i := i + 1;
      }
    }

    /** The check never aborts on a valid zone. */
    lemma ValidIsSound()
      requires Valid()
      ensures Forward() && forall i :: 1 <= i < |ring| - 1 ==> SoundAt(i)
    {
      forall i | 1 <= i < |ring| - 1 ensures SoundAt(i) {
        assert NextAt(ring, i) && PrevAt(ring, i) && ShowsAt(ring, cells, i) && ShowsAt(ring, cells, i + 1);
        assert TouchesNext(cells, base + size, i) && KeepsApart(cells, i);
      }
      forall i | 0 <= i < |ring| ensures NextAt(ring, i) {
        assert PrevAt(ring, i);
      }
    }

    // ----- allocation

    /** The scan of Z_TagMalloc, which gives up when it comes to the rover's predecessor. */
    method FindFit(need: nat) returns (base: MemBlock?, ghost j: int)
      requires Valid() && need > 0
      ensures j == NextFit(cells, at, need, 0)
      ensures base == (var k := NextFit(cells, at, need, 0); if k == -1 then null else ring[k])
    {
      var rv := this.rover;
      base := rv;
      StartAt();
      var start := rv.prev;
      ghost var d, e, here, best := 0, 0, at, at;
      while true
        invariant Scanning(need, d, e) && here == Behind(at, d, |cells|) && best == Behind(at, e, |cells|)
        invariant here < |ring| && rv == ring[here]
        invariant best < |ring| && base == ring[best]
        decreases |cells| - d
      {
        BlockAt(here);
        AtStart(d);
        if rv == start {
          NoneLeft(need);
          return null, -1;
        }
        StepScan(need, d, e);
        if rv.tag != 0 {
          rv := rv.next;
          base, e, best := rv, d + 1, Next(here, |cells|);
        } else {
          rv := rv.next;
        }
        d, here := d + 1, Next(here, |cells|);
        BlockAt(best);
        if !(base.tag != 0 || base.size < need) {
          Found(need, e);
          return base, best;
        }
      }
    }

    lemma StartAt()
      requires Valid()
      ensures rover.prev == ring[Behind(at, |ring| - 1, |ring|)]
    {
      BlockAt(if at == 0 then |ring| - 1 else at - 1);
    }

    lemma AtStart(d: nat)
      requires Valid() && d < |cells|
      ensures |ring| == |cells| && (ring[Behind(at, d, |ring|)] == ring[Behind(at, |ring| - 1, |ring|)] <==>
        d == |ring| - 1)
    {
      assert Differ(ring, Behind(at, d, |ring|), Behind(at, |ring| - 1, |ring|));
    }

    lemma BlockAt(i: nat)
      requires Valid() && i < |ring|
      ensures |ring| == |cells| && ring[i].next == ring[Next(i, |ring|)] && ring[Next(i, |ring|)].prev == ring[i]
      ensures ring[i].tag == cells[i].tag && ring[i].size == cells[i].size && ring[i].addr == cells[i].addr
      ensures ring[i].id == (if i == 0 then 0 else ZONEID)
    {
      assert NextAt(ring, i) && PrevAt(ring, i) && ShowsAt(ring, cells, i);
    }

    /** The rover moved d places and the candidate is cell e of the round: either the two are the
        same, or the candidate is a free cell too small and the rover the one in use behind it. */
    ghost predicate Scanning(need: nat, d: nat, e: nat)
      reads this
    {
      && at < |cells| && e <= d < |cells|
      && (d == 0 || Passed(need, d + 1))
      && (e == d || (e + 1 == d && !IsFree(cells[Behind(at, d, |cells|)])))
    }

    lemma StepScan(need: nat, d: nat, e: nat)
      requires Scanning(need, d, e) && d + 1 < |cells| && !IsFree(cells[0]) && NoAdjacentFree(cells)
      ensures var here := Behind(at, d, |cells|); var e' := if IsFree(cells[here]) then e else d + 1;
        && Behind(at, d + 1, |cells|) == Next(here, |cells|)
        && e' <= d + 1 && Passed(need, e')
        && (!Fits(cells[Behind(at, e', |cells|)], need) ==> Scanning(need, d + 1, e'))
    {
      if IsFree(cells[Behind(at, d, |cells|)]) { RingApart(cells, Behind(at, d, |cells|)); }
    }

    /** The first d cells from the rover on do not fit. */
    ghost predicate Passed(need: nat, d: nat)
      reads this
    {
      at < |cells| && d <= |cells| && forall c: nat :: c < d ==> !Fits(cells[Behind(at, c, |cells|)], need)
    }

    lemma NoneLeft(need: nat)
      requires Passed(need, |cells|)
      ensures NextFit(cells, at, need, 0) == -1
    {
      NextFitIsComplete(cells, at, need, 0);
    }

    lemma Found(need: nat, e: nat)
      requires Passed(need, e) && e < |cells| && Fits(cells[Behind(at, e, |cells|)], need)
      ensures NextFit(cells, at, need, 0) == Behind(at, e, |cells|)
    {
      NextFitIsFirst(cells, at, need, 0, e);
    }

    /** Z_TagMalloc.  Fails to find a block, returning NULL, exactly when no free block of the zone
        is as large as the rounded request; otherwise gives out the first that is, from the rover
        on, and moves the rover behind it.  ok is false where the original stops on a zero tag. */
    method TagMalloc(size: nat, tag: int) returns (ok: bool, r: MemBlock?)
      requires Valid() && size + HEADER + TRASH + 7 < 0x1_0000_0000
      modifies this`rover, this`ring, this`cells, this`at, this`live, ring
      ensures Valid() && (ok <==> tag != 0) && (!ok ==> r == null)
      ensures ok ==> (r == null <==> forall i :: 0 <= i < |old(cells)| ==> !Fits(old(cells)[i], Need(size)))
      ensures r == null ==> ring == old(ring) && cells == old(cells) && live == old(live) && rover == old(rover)
      ensures r != null ==> var j := NextFit(old(cells), old(at), Need(size), 0);
        && 1 <= j < |old(ring)| && j < |ring| && r == old(ring)[j] == ring[j]
        && cells == Carve(old(cells), j, Need(size), tag) && j < |cells|
        && Given(old(cells), cells, j, Need(size), tag, r.size) && r.addr == old(cells)[j].addr
        && FreeBytes(cells) + r.size == FreeBytes(old(cells))
        && at == Next(j, |cells|)
        && r.addr + HEADER !in old(live) && live == old(live)[r.addr + HEADER := size]
        && FirstFit(old(cells), old(at), Need(size), j) && rover == r.next
      ensures forall b :: b in ring ==> b in old(ring) || fresh(b)
    {
      hide Need32, Need, Carve, NextFit, Linked, Distinct, Given, FreeBytes, FirstFit;
      if tag == 0 { return false, null; }
      ghost var j;
      var need := Need32(size);
      NeedIff(size);
      NextFitFails(cells, at, need);
      NextFitIs(cells, at, need);
      r, j := FindFit(need);
      if r == null { return true, null; }
      GiveFit(r, j, size, tag);
      return true, r;
    }

    /** Gives out block j, which fits. */
    method GiveFit(b: MemBlock, ghost j: nat, size: nat, tag: int)
      requires Valid() && size + HEADER + TRASH + 7 < 0x1_0000_0000 && tag != 0
      requires 1 <= j < |ring| && b == ring[j] && j < |cells| && Fits(cells[j], Need(size))
      modifies this`rover, this`ring, this`cells, this`at, this`live, ring
      ensures Valid() && j < |ring| && ring[j] == b && b.addr == old(cells)[j].addr
      ensures cells == Carve(old(cells), j, Need(size), tag) && j < |cells|
      ensures Given(old(cells), cells, j, Need(size), tag, b.size)
      ensures FreeBytes(cells) + b.size == FreeBytes(old(cells))
      ensures at == Next(j, |cells|) && rover == b.next
      ensures b.addr + HEADER !in old(live) && live == old(live)[b.addr + HEADER := size]
      ensures forall b :: b in ring ==> b in old(ring) || fresh(b)
    {
      hide Need32, Need, Carve, Linked, Distinct, Given, FreeBytes;
      NeedIff(size);
      CarveKeepsTiled(cells, base + ZONE_HEADER, base + this.size, j, Need(size), tag);
      CarveAccounts(cells, base + ZONE_HEADER, base + this.size, live, j, size, tag);
      CarveGives(cells, j, Need(size), tag);
      BlockAt(j);
      live := live[b.addr + HEADER := size];
      Give(b, j, Need32(size), tag);
      FormedAt(j);
    }

    /** Splits block j where more than a fragment would remain, tags it, and moves the rover on. */
    method Give(b: MemBlock, ghost j: nat, need: nat, tag: int)
      requires Formed() && 1 <= j < |ring| && b == ring[j] && need <= cells[j].size
      requires Tiled(Carve(cells, j, need, tag), base + ZONE_HEADER, base + size)
      modifies this`rover, this`ring, this`cells, this`at, ring
      ensures Formed() && cells == Carve(old(cells), j, need, tag) && ring[j] == b && at == Next(j, |cells|)
      ensures rover == b.next
      ensures forall b :: b in ring ==> b in old(ring) || fresh(b)
    {
      FormedAt(j);
      var extra := b.size - need;
      if extra > MINFRAGMENT {
        Split(b, j, need);
      }
      Tag(b, j, tag);
      assert cells == Carve(old(cells), j, need, tag);
      FormedAt(j);
    }

    method Split(b: MemBlock, ghost j: nat, need: nat)
      requires Formed() && 1 <= j < |ring| && b == ring[j] && need < cells[j].size
      modifies this`ring, this`cells, this`at, ring
      ensures |ring| == |old(ring)| + 1 && ring[0] == blocklist && ring[j] == b
      ensures Linked(ring) && Distinct(ring) && Shows(ring, cells)
      ensures var c := old(cells)[j];
        cells == old(cells)[..j] + [Cell(c.addr, need, c.tag), Cell(c.addr + need, c.size - need, 0)]
          + old(cells)[j + 1..]
      ensures forall b :: b in ring ==> b in old(ring) || fresh(b)
    {
      FormedAt(j);
      ghost var c := cells[j];
      var newz := new MemBlock(b.addr + need, b.size - need, 0, ZONEID);
      LinkBehind(newz, b, ring, j);
      b.size := need;
      ghost var now := cells[..j] + [Cell(c.addr, need, c.tag), Cell(c.addr + need, c.size - need, 0)]
        + cells[j + 1..];
      forall i | 0 <= i < |ring| && i != j ensures ShowsAt(ring, cells, i) {
        assert old(ShowsAt(ring, cells, i)) && Differ(ring, i, j);
      }
      ShowsInserted(ring, cells, j, newz, now);
      ring, cells := Inserted(ring, j, newz), now;
    }

    method Tag(b: MemBlock, ghost j: nat, tag: int)
      requires 1 <= j < |ring| && b == ring[j] && Linked(ring) && Distinct(ring) && Shows(ring, cells)
      modifies this`rover, this`cells, this`at, b`tag, b`id
      ensures Linked(ring) && Distinct(ring) && Shows(ring, cells)
      ensures cells == old(cells)[j := old(cells)[j].(tag := tag)]
      ensures at == Next(j, |ring|) && rover == ring[at]
    {
      assert NextAt(ring, j) && ShowsAt(ring, cells, j);
      b.tag := tag;
      rover := b.next;
      b.id := ZONEID;
      at := Next(j, |ring|);
      cells := cells[j := cells[j].(tag := tag)];
      forall i | 0 <= i < |ring| ensures ShowsAt(ring, cells, i) {
        assert old(ShowsAt(ring, cells, i)) && Differ(ring, i, j);
      }
    }

    lemma FormedAt(i: nat)
      requires Formed() && i < |ring|
      ensures |ring| == |cells| && ring[i].next == ring[Next(i, |ring|)] && ring[Next(i, |ring|)].prev == ring[i]
      ensures ring[i].tag == cells[i].tag && ring[i].size == cells[i].size && ring[i].addr == cells[i].addr
      ensures ring[i].id == (if i == 0 then 0 else ZONEID)
    {
      assert NextAt(ring, i) && PrevAt(ring, i) && ShowsAt(ring, cells, i);
    }

    /** Z_Malloc: checks the heap, which cannot fail here, and takes a block with tag 1.  ok is
        false where the original stops because no block is large enough. */
    method Malloc(size: nat) returns (ok: bool, r: MemBlock?)
      requires Valid() && size + HEADER + TRASH + 7 < 0x1_0000_0000
      modifies this`rover, this`ring, this`cells, this`at, this`live, ring
      ensures Valid()
      ensures ok <==> exists i :: 0 <= i < |old(cells)| && Fits(old(cells)[i], Need(size))
      ensures ok ==> r != null && r.addr + HEADER !in old(live) && live == old(live)[r.addr + HEADER := size]
      ensures ok ==> var j := NextFit(old(cells), old(at), Need(size), 0);
        && 1 <= j < |old(cells)| && j < |cells| && Given(old(cells), cells, j, Need(size), 1, r.size)
        && FirstFit(old(cells), old(at), Need(size), j)
        && r.addr == old(cells)[j].addr && FreeBytes(cells) + r.size == FreeBytes(old(cells))
      ensures !ok ==> cells == old(cells) && live == old(live)
      ensures forall b :: b in ring ==> b in old(ring) || fresh(b)
    {
      hide Given, FreeBytes, Carve, Need, NextFit, FirstFit;
      ValidIsSound();
      var sound := CheckHeap();
      if !sound { return false, null; }
      ok, r := TagMalloc(size, 1);
      ok := r != null;
    }

    // ----- release

    /** Z_Free.  Refuses, where the original stops, NULL, the cap, a free block, and a block that a
        merge has absorbed; otherwise marks the block free and merges it with its free neighbours,
        taking the rover off a block that vanishes. */
    method Free(block: MemBlock?, ghost k: nat) returns (ok: bool)
      requires Valid()
      requires block != null ==>
        (k < |ring| && block == ring[k]) || (block !in ring && (block.tag == 0 || block.id != ZONEID))
      modifies this`rover, this`ring, this`cells, this`at, this`live, ring
      ensures Valid()
      ensures ok <==> block != null && block in old(ring) && k != 0 && old(cells)[k].tag != 0
      ensures !ok ==> ring == old(ring) && cells == old(cells) && live == old(live)
      ensures ok ==> cells == Release(old(cells), k) && live == old(live) - {block.addr + HEADER}
      ensures ok ==> FreeBytes(cells) == FreeBytes(old(cells)) + old(cells)[k].size
      ensures ok ==> Used(cells) == Used(old(cells)[..k]) + Used(old(cells)[k + 1..])
      ensures Within(ring, old(ring)) && LeftFree(old(ring), ring)
      ensures rover == old(rover) || (old(rover) !in ring && Covers(cells[at], old(rover).addr))
    {
      hide Used, FreeBytes, Release, Covers;
      if block == null { return false; }
      if block in ring { FormedAt(k); }
      if block.id != ZONEID { return false; }
      if block.tag == 0 { return false; }
      ReleaseFrees(cells, k);
      FreeBlock(block, k);
      return true;
    }

    method FreeBlock(block: MemBlock, ghost k: nat)
      requires Valid() && 1 <= k < |ring| && block == ring[k]
      modifies this`rover, this`ring, this`cells, this`at, this`live, ring
      ensures Valid() && cells == Release(old(cells), k) && live == old(live) - {block.addr + HEADER}
      ensures Within(ring, old(ring)) && LeftFree(old(ring), ring)
      ensures rover == old(rover) || (old(rover) !in ring && Covers(cells[at], old(rover).addr))
    {
      FormedAt(k);
      ReleaseSteps(cells, base + ZONE_HEADER, base + size, live, k);
      live := live - {block.addr + HEADER};
      MarkFree(block, k);
      JoinNeighbours(block, k);
    }

    /** The rover has moved only off a block that vanished, to one that covers what that covered. */
    ghost predicate RoverFollows(was: MemBlock, before: seq<Cell>, r: nat)
      reads this
    {
      && (rover == was || was !in ring)
      && r < |before| && at < |cells| && (forall x :: Covers(before[r], x) ==> Covers(cells[at], x))
    }

    /** Merges block k with a free block before it and with one behind it. */
    method JoinNeighbours(block: MemBlock, ghost k: nat)
      requires Formed() && 1 <= k < |ring| && block == ring[k] && 1 <= Landing(cells, k)
      modifies this`rover, this`ring, this`cells, this`at, ring`size, ring`next, ring`prev
      ensures Formed() && cells == MergeForward(MergeBack(old(cells), k), Landing(old(cells), k))
        && Within(ring, old(ring))
      ensures block.tag == 0 ==> LeftFree(old(ring), ring)
      ensures rover == old(rover) || (old(rover) !in ring && Covers(cells[at], old(rover).addr))
    {
      assert cells[at].addr == rover.addr && (at > 0 ==> cells[at].size > 0) by {
        assert ShowsAt(ring, cells, at);
      }
      var b := JoinPrevious(block, k);
      JoinNext(b, Landing(old(cells), k));
      assert ring[0] == blocklist && old(ring)[0] == blocklist;
    }

    /** Lets a free block before block k take it over. */
    method JoinPrevious(block: MemBlock, ghost k: nat) returns (b: MemBlock)
      requires Formed() && 1 <= k < |ring| && block == ring[k]
      modifies this`rover, this`ring, this`cells, this`at, ring`size, ring`next, ring`prev
      ensures Formed() && cells == MergeBack(old(cells), k)
      ensures Landing(old(cells), k) < |ring| && b == ring[Landing(old(cells), k)]
      ensures Within(ring, old(ring)) && (block.tag == 0 ==> LeftFree(old(ring), ring))
      ensures RoverFollows(old(rover), old(cells), old(at))
    {
      b := block;
      FormedAt(k - 1);
      var other := block.prev;
      if other.tag == 0 {
        WithoutOnly(ring, k);
        Absorb(other, block, k - 1);
        b := other;
      }
    }

    /** Lets block k take over a free block behind it. */
    method JoinNext(block: MemBlock, ghost k: nat)
      requires Formed() && 1 <= k < |ring| && block == ring[k]
      modifies this`rover, this`ring, this`cells, this`at, ring`size, ring`next, ring`prev
      ensures Formed() && cells == MergeForward(old(cells), k)
      ensures Within(ring, old(ring)) && LeftFree(old(ring), ring)
      ensures RoverFollows(old(rover), old(cells), old(at))
    {
      FormedAt(k);
      FormedAt(Next(k, |ring|));
      var other := block.next;
      if other.tag == 0 {
        WithoutOnly(ring, k + 1);
        Absorb(block, other, k);
      }
    }

    method MarkFree(b: MemBlock, ghost k: nat)
      requires Formed() && 1 <= k < |ring| && b == ring[k]
      requires Tiled(cells[k := cells[k].(tag := 0)], base + ZONE_HEADER, base + size)
      modifies this`cells, b`tag
      ensures Formed() && cells == old(cells)[k := old(cells)[k].(tag := 0)] && b.tag == 0
    {
      FormedAt(k);
      b.tag := 0;
      cells := cells[k := cells[k].(tag := 0)];
      forall i | 0 <= i < |ring| ensures ShowsAt(ring, cells, i) {
        assert old(ShowsAt(ring, cells, i)) && Differ(ring, i, k);
      }
    }

    /** Block k takes over the space of the following block, which leaves the ring. */
    method Absorb(a: MemBlock, b: MemBlock, ghost k: nat)
      requires Formed() && 1 <= k < |ring| - 1 && a == ring[k] && b == ring[k + 1]
      modifies this`rover, this`ring, this`cells, this`at, ring`size, ring`next, ring`prev
      ensures Formed() && cells == Merge(old(cells), k) && ring == Without(old(ring), k + 1)
        && Within(ring, old(ring))
      ensures at == MergedAt(old(at), k) && RoverFollows(old(rover), old(cells), old(at))
    {
      MergeKeepsTiled(cells, base + ZONE_HEADER, base + size, k);
      MergeCovers(cells, base + ZONE_HEADER, base + size, k, at);
      assert Differ(ring, at, k + 1);
      WithoutGone(ring, k + 1);
      RemovedAt(ring, at, k);
      TakeOver(a, b, ring, cells, k);
      if b == rover {
        rover := a;
      }
      ring, cells, at := Without(ring, k + 1), Merge(cells, k), MergedAt(at, k);
    }
  }

  lemma RemovedAt(ring: seq<MemBlock>, r: nat, k: nat)
    requires 1 <= k && k + 1 < |ring| && r < |ring|
    ensures var (t, r') := (Without(ring, k + 1), MergedAt(r, k));
      |t| == |ring| - 1 && t[0] == ring[0] && r' < |t| && t[r'] == (if r == k + 1 then ring[k] else ring[r])
        && Within(t, ring)
  {
  }

  /** Adds the size of the following block and links that block out. */
  method TakeOver(a: MemBlock, b: MemBlock, ghost ring: seq<MemBlock>, ghost cells: seq<Cell>, ghost k: nat)
    requires Linked(ring) && Distinct(ring) && Shows(ring, cells)
    requires 1 <= k && k + 1 < |ring| && a == ring[k] && b == ring[k + 1]
    modifies ring`size, ring`next, ring`prev
    ensures Linked(Without(ring, k + 1)) && Distinct(Without(ring, k + 1))
      && Shows(Without(ring, k + 1), Merge(cells, k))
  {
    Enlarge(a, b, ring, cells, k);
    UnlinkNext(a, b, ring, k + 1);
  }

  method Enlarge(a: MemBlock, b: MemBlock, ghost ring: seq<MemBlock>, ghost cells: seq<Cell>, ghost k: nat)
    requires Shows(ring, cells) && Distinct(ring) && k + 1 < |ring| && a == ring[k] && b == ring[k + 1]
    modifies a`size
    ensures Shows(Without(ring, k + 1), Merge(cells, k))
  {
    assert ShowsAt(ring, cells, k) && ShowsAt(ring, cells, k + 1);
    a.size := a.size + b.size;
    forall i | 0 <= i < |ring| && i != k ensures ShowsAt(ring, cells, i) {
      assert old(ShowsAt(ring, cells, i)) && Differ(ring, i, k);
    }
    ShowsMerged(ring, cells, k);
  }

  lemma {:induction false} NextFitIsFirst(cells: seq<Cell>, r: nat, need: nat, d: nat, e: nat)
    requires r < |cells| && d <= e < |cells| && Fits(cells[Behind(r, e, |cells|)], need)
    requires forall c :: d <= c < e ==> !Fits(cells[Behind(r, c, |cells|)], need)
    ensures NextFit(cells, r, need, d) == Behind(r, e, |cells|)
    decreases e - d
  {
    if d < e { NextFitIsFirst(cells, r, need, d + 1, e); }
  }

  /** A free cell is followed in the ring by one in use, the cap included. */
  lemma RingApart(cells: seq<Cell>, i: nat)
    requires |cells| >= 2 && !IsFree(cells[0]) && NoAdjacentFree(cells) && i < |cells| && IsFree(cells[i])
    ensures !IsFree(cells[Next(i, |cells|)])
  {
    if i + 1 < |cells| { assert KeepsApart(cells, i); }
  }
}
