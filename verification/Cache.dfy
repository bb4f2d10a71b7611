/** The relocating cache of HUNK.c, which lives between the low and the high mark of the hunk: the
    class runs the loops over the hunk's bytes and the lists, which BlockLists and MakingWay treat as
    values. */
module Cache {
  import opened Basics
  import opened Links
  import opened BlockLists
  import opened MakingWay

  const HUNK_HEADER := 72   // sizeof(hunk_t)

  // ----- the bytes of the hunk

  /** The payload of a block. */
  function Bytes(m: seq<Byte>, b: Block): seq<Byte>
    requires b.size >= HEADER && b.addr + b.size <= |m|
  {
    m[b.addr + HEADER..b.addr + b.size]
  }

  ghost predicate Inside(blocks: seq<Block>, n: nat) {
    forall i :: 0 <= i < |blocks| ==> InsideAt(blocks, n, i)
  }

  ghost predicate InsideAt(blocks: seq<Block>, n: nat, i: nat)
    requires i < |blocks|
  {
    blocks[i].size >= HEADER && blocks[i].addr + blocks[i].size <= n
  }

  lemma SpacedInside(blocks: seq<Block>, top: nat, n: nat)
    requires Spaced(blocks, top) && top <= n
    ensures Inside(blocks, n)
  {
    forall i | 0 <= i < |blocks| ensures InsideAt(blocks, n, i) {
      assert SpacedAt(blocks, top, i);
      SpacedOrder(blocks, top, i, |blocks|);
    }
  }

  /** Block b holds after what block c held before. */
  ghost predicate Carries(after: seq<Byte>, b: Block, before: seq<Byte>, c: Block) {
    && b.user == c.user && b.size == c.size >= HEADER
    && b.addr + b.size <= |after| && c.addr + c.size <= |before|
    && Bytes(after, b) == Bytes(before, c)
  }

  ghost predicate CarriedAt(after: seq<Byte>, b: Block, before: seq<Byte>, blocks: seq<Block>) {
    exists j :: 0 <= j < |blocks| && Carries(after, b, before, blocks[j])
  }

  /** Every later block carries the payload of one of the earlier blocks of the same user. */
  ghost predicate Carried(after: seq<Byte>, later: seq<Block>, before: seq<Byte>, blocks: seq<Block>) {
    forall i :: 0 <= i < |later| ==> CarriedAt(after, later[i], before, blocks)
  }

  lemma CarriedTransitive(m0: seq<Byte>, a: seq<Block>, m1: seq<Byte>, b: seq<Block>, m2: seq<Byte>, c: seq<Block>)
    requires Carried(m1, b, m0, a) && Carried(m2, c, m1, b)
    ensures Carried(m2, c, m0, a)
  {
    forall i | 0 <= i < |c| ensures CarriedAt(m2, c[i], m0, a) {
      assert CarriedAt(m2, c[i], m1, b);
      var j :| 0 <= j < |b| && Carries(m2, c[i], m1, b[j]);
      assert CarriedAt(m1, b[j], m0, a);
      var k :| 0 <= k < |a| && Carries(m1, b[j], m0, a[k]);
      assert Carries(m2, c[i], m0, a[k]);
    }
  }

  lemma CarriedSelf(m: seq<Byte>, blocks: seq<Block>, later: seq<Block>)
    requires Inside(blocks, |m|) && Among(later, blocks)
    ensures Carried(m, later, m, blocks)
  {
    forall i | 0 <= i < |later| ensures CarriedAt(m, later[i], m, blocks) {
      var j :| 0 <= j < |blocks| && blocks[j] == later[i];
      assert InsideAt(blocks, |m|, j) && Carries(m, later[i], m, blocks[j]);
    }
  }

  /** The bytes outside lo..hi are the same. */
  ghost predicate SameOutside(before: seq<Byte>, after: seq<Byte>, lo: nat, hi: nat) {
    |before| == |after| && forall i :: 0 <= i < |before| && !(lo <= i < hi) ==> after[i] == before[i]
  }

  /** No payload of the blocks meets lo..hi. */
  ghost predicate ClearOf(blocks: seq<Block>, lo: nat, hi: nat) {
    forall i :: 0 <= i < |blocks| ==> ClearAt(blocks, lo, hi, i)
  }

  ghost predicate ClearAt(blocks: seq<Block>, lo: nat, hi: nat, i: nat)
    requires i < |blocks|
  {
    blocks[i].addr + blocks[i].size <= lo || hi <= blocks[i].addr
  }

  lemma CarriedOutside(before: seq<Byte>, after: seq<Byte>, lo: nat, hi: nat, blocks: seq<Block>)
    requires SameOutside(before, after, lo, hi) && ClearOf(blocks, lo, hi) && Inside(blocks, |before|)
    ensures Carried(after, blocks, before, blocks)
  {
    forall i | 0 <= i < |blocks| ensures CarriedAt(after, blocks[i], before, blocks) {
      assert InsideAt(blocks, |before|, i) && ClearAt(blocks, lo, hi, i);
      assert Carries(after, blocks[i], before, blocks[i]);
    }
  }

  /** What lies in a gap meets no block. */
  lemma GapClear(blocks: seq<Block>, low: nat, top: nat, i: nat, size: nat)
    requires Spaced(blocks, top) && i <= |blocks| && Roomy(blocks, low, top, size, i)
    ensures ClearOf(blocks, Floor(blocks, low, i), Floor(blocks, low, i) + size)
  {
    var (lo, hi) := (Floor(blocks, low, i), Floor(blocks, low, i) + size);
    forall j | 0 <= j < |blocks| ensures ClearAt(blocks, lo, hi, j) {
      assert SpacedAt(blocks, top, j);
      if j + 1 < i { SpacedOrder(blocks, top, j, i - 1); }
      if j > i {
        assert SpacedAt(blocks, top, i);
        SpacedOrder(blocks, top, i, j);
      }
    }
  }

  /** What user u finds at its data pointer. */
  ghost function Payload(s: State, top: nat, m: seq<Byte>, u: User): seq<Byte>
    requires Good(s, top) && top <= |m| && u in s.data
  {
    HomeIs(s, top, u);
    SpacedInside(s.blocks, top, |m|);
    assert InsideAt(s.blocks, |m|, Home(s, u));
    Bytes(m, s.blocks[Home(s, u)])
  }

  /** Where every later block carries an earlier one, every surviving user sees its old payload. */
  lemma CarriedPayload(s: State, before: seq<Byte>, t: State, after: seq<Byte>, top: nat, u: User)
    requires Good(s, top) && Good(t, top) && top <= |before| && top <= |after|
    requires Carried(after, t.blocks, before, s.blocks) && u in t.data
    ensures u in s.data && Payload(t, top, after, u) == Payload(s, top, before, u)
  {
    HomeIs(t, top, u);
    var b := t.blocks[Home(t, u)];
    assert CarriedAt(after, b, before, s.blocks);
    var j :| 0 <= j < |s.blocks| && Carries(after, b, before, s.blocks[j]);
    assert PointedAt(s, j);
    HomeIs(s, top, u);
  }

  /** A gap of at least a header's size starts at no block's address. */
  lemma GapUnlisted(s: State, low: nat, top: nat, i: nat, size: nat)
    requires Good(s, top) && i <= |s.blocks| && size >= HEADER && Roomy(s.blocks, low, top, size, i)
    ensures Floor(s.blocks, low, i) !in s.lru
  {
    var a := Floor(s.blocks, low, i);
    GapClear(s.blocks, low, top, i, size);
    forall j | 0 <= j < |s.blocks| ensures Addrs(s.blocks)[j] != a {
      assert ClearAt(s.blocks, a, a + size, j) && SpacedAt(s.blocks, top, j);
    }
    PairedMember(s.lru, s.blocks, a);
  }

  /** The address list once room was found and the new block has its user. */
  function Doubled(blocks: seq<Block>, g: Gap): seq<Block>
    requires blocks != [] && g.index <= |blocks|
  {
    With(blocks, g.index, Block(g.addr, blocks[0].size, blocks[0].user))
  }

  /** The new block is found by its address, the old one by its user. */
  lemma DoubledPlaces(s: State, low: nat, top: nat, g: Gap)
    requires Good(s, top) && s.blocks != [] && FindGap(s.blocks, low, top, s.blocks[0].size, 1) == Some(g)
    ensures var c := s.blocks[0];
      && IndexOf(Addrs(With(s.blocks, g.index, Block(g.addr, c.size, 0))), g.addr) == g.index
      && IndexOf(Addrs(Doubled(s.blocks, g)), c.addr) == 0
      && c.user in s.data && s.data[c.user] == c.addr + HEADER && c.addr in s.lru && c.addr != g.addr
  {
    var c := s.blocks[0];
    assert PointedAt(s, 0);
    HomeIs(s, top, c.user);
    MoveHigher(s.blocks, low, top);
    PlaceSpaced(s.blocks, low, top, g.index, c.size, 0);
    PlaceSpaced(s.blocks, low, top, g.index, c.size, c.user);
    AddrsOnce(With(s.blocks, g.index, Block(g.addr, c.size, 0)), top, g.index);
    AddrsOnce(Doubled(s.blocks, g), top, 0);
  }

  /** The list steps of Cache_Move, one after the other, amount to the move. */
  lemma MoveSteps(s: State, low: nat, top: nat, g: Gap, s2: State)
    requires Good(s, top) && s.blocks != [] && FindGap(s.blocks, low, top, s.blocks[0].size, 1) == Some(g)
    requires s2 == State(Doubled(s.blocks, g), [g.addr] + s.lru, s.data)
    ensures var (c, t) := (s.blocks[0], Remove(s2, 0));
      t.(data := t.data[c.user := g.addr + HEADER]) == Move(s, low, top)
  {
    var c := s.blocks[0];
    DoubledPlaces(s, low, top, g);
    UnlinkedBehind(g.addr, s.lru, c.addr);
    SwapSteps(s.blocks, g.index, Block(g.addr, c.size, c.user));
    MoveIs(s, low, top, g);
    RemoveFirst(s2, c);
  }

  /** Inserting behind the first element and then removing that is removing and then inserting. */
  lemma SwapSteps<T>(s: seq<T>, k: nat, x: T)
    requires 1 <= k <= |s|
    ensures With(s, k, x)[0] == s[0]
    ensures Without(With(s, k, x), 0) == With(Without(s, 0), k - 1, x)
  {
  }

  lemma UnlinkedBehind(x: nat, lru: seq<nat>, a: nat)
    requires x != a
    ensures Unlinked([x] + lru, a) == [x] + Unlinked(lru, a)
  {
    var l, k := [x] + lru, IndexOf(lru, a);
    IndexBehind(x, lru, a, 0);
    assert IndexOf(l, a) == k + 1;
    if k < |lru| { assert Without(l, k + 1) == [x] + Without(lru, k); }
  }

  lemma {:induction false} IndexBehind(x: nat, lru: seq<nat>, a: nat, i: nat)
    requires x != a && i <= |lru|
    ensures IndexFrom([x] + lru, a, i + 1) == IndexFrom(lru, a, i) + 1
    decreases |lru| - i
  {
    if i < |lru| && lru[i] != a { IndexBehind(x, lru, a, i + 1); }
  }

  /** The copy behind a zeroed header holds what the block copied from held before. */
  lemma CopyCarries(c: Block, a: nat, before: seq<Byte>, zeroed: seq<Byte>, after: seq<Byte>)
    requires c.size >= HEADER && c.addr + c.size <= a && a + c.size <= |before|
    requires SameOutside(before, zeroed, a, a + HEADER) && SameOutside(zeroed, after, a + HEADER, a + c.size)
    requires after[a + HEADER..a + c.size] == zeroed[c.addr + HEADER..c.addr + c.size]
    ensures SameOutside(before, after, a, a + c.size)
    ensures Carries(after, Block(a, c.size, c.user), before, c)
  {
    assert zeroed[c.addr + HEADER..c.addr + c.size] == before[c.addr + HEADER..c.addr + c.size];
  }

  /** The byte steps of Cache_Move carry every payload along: the gap meets no block. */
  lemma MoveCarries(blocks: seq<Block>, low: nat, top: nat, g: Gap, before: seq<Byte>, after: seq<Byte>)
    requires Spaced(blocks, top) && blocks != [] && top <= |before|
    requires FindGap(blocks, low, top, blocks[0].size, 1) == Some(g)
    requires SameOutside(before, after, g.addr, g.addr + blocks[0].size)
    requires Carries(after, Block(g.addr, blocks[0].size, blocks[0].user), before, blocks[0])
    ensures Carried(after, MovedBlocks(blocks, low, top), before, blocks)
  {
    hide Spaced, Carried, FindGap, Carries, SameOutside, Inside, ClearOf;
    var c := blocks[0];
    SpacedInside(blocks, top, |before|);
    GapClear(blocks, low, top, g.index, c.size);
    CarriedOutside(before, after, g.addr, g.addr + c.size, blocks);
    CarriedInserted(blocks, g.index - 1, Block(g.addr, c.size, c.user), before, after);
  }

  lemma CarriedInserted(blocks: seq<Block>, k: nat, b: Block, before: seq<Byte>, after: seq<Byte>)
    requires k < |blocks| && Carried(after, blocks, before, blocks) && Carries(after, b, before, blocks[0])
    ensures Carried(after, With(Without(blocks, 0), k, b), before, blocks)
  {
    var m := With(Without(blocks, 0), k, b);
    forall j | 0 <= j < |m| ensures CarriedAt(after, m[j], before, blocks) {
      InsertedElement(blocks, k, b, j);
      if j != k {
        assert CarriedAt(after, blocks[if j < k then j + 1 else j], before, blocks);
      }
    }
  }

  lemma UnlinkedOnce(s: State, top: nat, a: nat)
    requires Good(s, top) && a in s.lru
    ensures a !in Unlinked(s.lru, a)
  {
    PairedMember(s.lru, s.blocks, a);
    assert PairedAt(s.lru, s.blocks, a);
    AddrsOnce(s.blocks, top, IndexOf(Addrs(s.blocks), a));
    UnlinkedMultiset(s.lru, a);
    assert multiset(Unlinked(s.lru, a))[a] == 0;
  }

  lemma DataHasBlocks(s: State)
    requires Agrees(s)
    ensures s.data != map[] ==> s.blocks != []
  {
    if s.data != map[] {
      var u :| u in s.data;
      assert HasBlock(s.blocks, u, s.data[u]);
    }
  }

  /** Below the lowest block there is none. */
  lemma AboveClear(blocks: seq<Block>, low: nat, top: nat, from: nat)
    requires Spaced(blocks, top) && Above(blocks, low)
    ensures ClearOf(blocks, from, low)
  {
    forall i | 0 <= i < |blocks| ensures ClearAt(blocks, from, low, i) {
      SpacedAbove(blocks, low, top, i);
    }
  }

  /** Once the fresh block has its user and the user its pointer, the block is placed. */
  lemma PlaceSteps(s: State, low: nat, top: nat, g: Gap, size: nat, u: User)
    requires Good(s, top) && FindGap(s.blocks, low, top, size, 0) == Some(g) && size >= HEADER
    ensures var placed := With(s.blocks, g.index, Block(g.addr, size, 0));
      && IndexOf(Addrs(placed), g.addr) == g.index
      && State(placed[g.index := Block(g.addr, size, u)], [g.addr] + s.lru, s.data[u := g.addr + HEADER]) ==
        Place(s, g, size, u)
  {
    var placed := With(s.blocks, g.index, Block(g.addr, size, 0));
    PlaceSpaced(s.blocks, low, top, g.index, size, 0);
    AddrsOnce(placed, top, g.index);
    assert placed[g.index := Block(g.addr, size, u)] == With(s.blocks, g.index, Block(g.addr, size, u));
  }

  /** Placing a block in a well-formed state gives a well-formed state whose other users see what
      they saw. */
  lemma PlaceResult(s: State, low: nat, top: nat, g: Gap, size: nat, u: User, before: seq<Byte>, after: seq<Byte>)
    requires Good(s, top) && Above(s.blocks, low) && u != 0 && u !in s.data && size >= HEADER && top <= |before|
    requires FindGap(s.blocks, low, top, size, 0) == Some(g)
    requires SameOutside(before, after, g.addr, g.addr + HEADER)
    ensures var t := Place(s, g, size, u); Good(t, top) && Above(t.blocks, low)
    ensures Carried(after, s.blocks, before, s.blocks)
    ensures low <= g.addr && g.addr + size <= top
  {
    PlaceKeeps(s, low, top, g, size, u);
    GapInside(s.blocks, low, top, size);
    GapClear(s.blocks, low, top, g.index, size);
    SpacedInside(s.blocks, top, |before|);
    CarriedOutside(before, after, g.addr, g.addr + size, s.blocks);
  }

  /** The payloads of the users that were there before a block was placed. */
  lemma PlacePayload(s: State, t: State, top: nat, g: Gap, size: nat, u: User, after: seq<Byte>, v: User)
    requires Good(s, top) && Good(t, top) && top <= |after| && g.index <= |s.blocks| && t == Place(s, g, size, u)
    requires v in t.data && v != u
    ensures v in s.data && Payload(t, top, after, v) == Payload(s, top, after, v)
  {
    HomeIs(t, top, v);
    HomeIs(s, top, v);
    var i := Home(s, v);
    assert t.blocks[if i < g.index then i else i + 1] == s.blocks[i];
  }

  /** After evictions and a placement, every other user left sees its old payload. */
  lemma AllocPayload(s: State, low: nat, top: nat, k: nat, now: State, g: Gap, size: nat, u: User,
                     before: seq<Byte>, t: State, after: seq<Byte>, v: User)
    requires Good(s, top) && Above(s.blocks, low) && k <= |s.lru| && now == Evicted(s, k) && Good(now, top)
    requires g.index <= |now.blocks| && t == Place(now, g, size, u) && Good(t, top)
    requires top <= |before| == |after| && Carried(after, now.blocks, before, now.blocks)
    requires v in t.data && v != u
    ensures v in s.data && Payload(t, top, after, v) == Payload(s, top, before, v)
  {
    PlacePayload(now, t, top, g, size, u, after, v);
    CarriedPayload(now, before, now, after, top, v);
    var t' := EvictedKeeps(s, low, top, k);
    SpacedInside(s.blocks, top, |before|);
    CarriedSelf(before, s.blocks, now.blocks);
    CarriedPayload(s, before, now, before, top, v);
  }

  /** When k blocks were evicted for user u, exactly those used least recently have gone; the other
      users' blocks are where they were. */
  ghost predicate Kept(s: State, t: State, u: User, k: nat) {
    && k <= |s.lru|
    && (forall v :: v in s.data ==> KeptOne(s, t, k, v))
    && (forall v :: v in t.data ==> v == u || v in s.data)
  }

  ghost predicate KeptOne(s: State, t: State, k: nat, v: User)
    requires v in s.data && k <= |s.lru|
  {
    && (v in t.data <==> exists j :: 0 <= j < |s.lru| - k && s.lru[j] + HEADER == s.data[v])
    && (v in t.data ==> t.data[v] == s.data[v])
  }

  lemma PlacementKeeps(s: State, low: nat, top: nat, k: nat, g: Gap, size: nat, u: User)
    requires Good(s, top) && Above(s.blocks, low) && k <= |s.lru| && u !in s.data
    requires g.index <= |Evicted(s, k).blocks|
    ensures Kept(s, Place(Evicted(s, k), g, size, u), u, k)
  {
    hide Good, Above, Evicted;
    var (e, t) := (Evicted(s, k), Place(Evicted(s, k), g, size, u));
    forall v | v in s.data ensures KeptOne(s, t, k, v) {
      EvictedUsers(s, low, top, k, v);
    }
    EvictedNone(s, low, top, k);
  }

  lemma EvictedNone(s: State, low: nat, top: nat, k: nat)
    requires Good(s, top) && Above(s.blocks, low) && k <= |s.lru|
    ensures Evicted(s, k).data.Keys <= s.data.Keys
  {
    var t := EvictedKeeps(s, low, top, k);
    forall v | v in t.data ensures v in s.data {
      HomeIs(t, top, v);
      var i :| 0 <= i < |s.blocks| && s.blocks[i] == t.blocks[Home(t, v)];
      assert PointedAt(s, i);
    }
  }

  // ----- the loops over the hunk

  /** Unsigned 32-bit subtraction. */
  function Minus(a: int, b: int): nat {
    (a - b) % 0x1_0000_0000
  }

  function RoundUp(n: nat): (r: nat)
    ensures n <= r < n + 16 && r % 16 == 0
  {
    (n + 15) / 16 * 16
  }

  /** The padded size as computed on 32 bits. */
  function PaddedSize(n: nat): nat {
    (HUNK_HEADER + (n + 15) % 0x1_0000_0000 / 16 * 16) % 0x1_0000_0000
  }

  /** The size of a cache block as computed on 32 bits. */
  function BlockSize(n: nat): nat {
    ((n + HEADER) % 0x1_0000_0000 + 15) % 0x1_0000_0000 / 16 * 16
  }

  /** The computed size holds header and request exactly if the sum does not wrap around. */
  lemma BlockSizeIff(n: nat)
    requires n < 0x1_0000_0000
    ensures BlockSize(n) >= n + HEADER <==> n + HEADER + 15 < 0x1_0000_0000
    ensures n + HEADER + 15 < 0x1_0000_0000 ==> BlockSize(n) == RoundUp(n + HEADER)
  {
    var m := n + HEADER;
    if m >= 0x1_0000_0000 {
      assert m % 0x1_0000_0000 == m - 0x1_0000_0000;
    }
  }

  // ----- the header of a hunk

  const SENTINEL := 0x1DF0_01ED
  const NAME_LENGTH := 64

  /** A word in the order of its bytes in memory. */
  function Bytes4(n: nat): (r: seq<Byte>)
    ensures |r| == 4
  {
    [n % 0x100, n / 0x100 % 0x100, n / 0x1_0000 % 0x100, n / 0x100_0000 % 0x100]
  }

  /** A name cut to fit and filled up with zeros, the last of which ends it. */
  function NameField(name: seq<Byte>): (r: seq<Byte>)
    ensures |r| == NAME_LENGTH && r[NAME_LENGTH - 1] == 0
    ensures |name| < NAME_LENGTH ==> r[..|name|] == name
  {
    var n := if |name| < NAME_LENGTH then |name| else NAME_LENGTH - 1;
    name[..n] + seq(NAME_LENGTH - n, _ => 0)
  }

  /** What stands in front of the space handed out: the sentinel, the size with the header, and the
      name. */
  function HunkHeader(size: nat, name: seq<Byte>): (r: seq<Byte>)
    ensures |r| == HUNK_HEADER
  {
    Bytes4(SENTINEL) + Bytes4(size) + NameField(name)
  }

  /** The number whose bytes in memory these are. */
  function Word(b: seq<Byte>): nat
    requires |b| == 4
  {
    (b[0] as nat) + 0x100 * ((b[1] as nat) + 0x100 * ((b[2] as nat) + 0x100 * (b[3] as nat)))
  }

  function NameByte(name: seq<Byte>, i: nat): Byte {
    if i < |name| && i < 63 then name[i] else 0
  }

  lemma WordReads(n: nat)
    requires n < 0x1_0000_0000
    ensures Word(Bytes4(n)) == n
  {
    assert n / 0x100 / 0x100 == n / 0x1_0000 && n / 0x1_0000 / 0x100 == n / 0x100_0000;
  }

  /** What the header of a hunk reads as: the sentinel, then the size, then the name, cut to 63
      bytes, and zeros. */
  lemma HeaderReads(size: nat, name: seq<Byte>)
    requires size < 0x1_0000_0000
    ensures Word(HunkHeader(size, name)[0..4]) == 0x1DF0_01ED && Word(HunkHeader(size, name)[4..8]) == size
    ensures forall i :: 0 <= i < 64 ==> HunkHeader(size, name)[8 + i] == NameByte(name, i)
  {
    WordReads(SENTINEL);
    WordReads(size);
    var h := HunkHeader(size, name);
    assert h[0..4] == Bytes4(SENTINEL) && h[4..8] == Bytes4(size);
    assert h[8..] == NameField(name);
    forall i | 0 <= i < 64 ensures h[8 + i] == NameByte(name, i) {
      assert h[8 + i] == h[8..][i];
    }
  }

  /** The two guards of Hunk_AllocName catch every wrap-around: together they refuse exactly the
      requests whose true padded size does not fit. */
  lemma GuardIsExact(n: nat, freespace: nat)
    requires n < 0x1_0000_0000 && freespace < 0x1_0000_0000
    ensures PaddedSize(n) < n || PaddedSize(n) > freespace <==> HUNK_HEADER + RoundUp(n) > freespace
    ensures HUNK_HEADER + RoundUp(n) <= freespace ==> PaddedSize(n) == HUNK_HEADER + RoundUp(n)
  {
    var m := n + 15;
    if m < 0x1_0000_0000 {
      assert m % 0x1_0000_0000 == m;
      if HUNK_HEADER + RoundUp(n) >= 0x1_0000_0000 {
        assert PaddedSize(n) == HUNK_HEADER + RoundUp(n) - 0x1_0000_0000;
      }
    } else {
      assert m % 0x1_0000_0000 == m - 0x1_0000_0000 < 16;
      assert PaddedSize(n) == HUNK_HEADER;
    }
  }

  class Hunk {
    const size: nat
    const high: nat           // sg_hunk_high_used
    const mem: array<Byte>
    var low: nat              // sg_hunk_low_used
    var blocks: seq<Block>
    var lruNext: map<Node, Node>
    var lruPrev: map<Node, Node>
    var data: map<User, nat>
    ghost var lru: seq<nat>   // the blocks by last use, as the links show them

    ghost function S(): State
      reads this
    {
      State(blocks, lru, data)
    }

    function Ceiling(): nat {
      if high <= size then size - high else 0
    }

    /** The links of use show the order of use. */
    ghost predicate InUseOrder()
      reads this
    {
      Shows(lruNext, lruPrev, lru)
    }

    /** The cache lists are well formed; during FreeLow the lowest blocks may be below the mark. */
    ghost predicate Listed()
      reads this
    {
      mem.Length == size < 0x1_0000_0000 && low + high <= size && Good(S(), Ceiling()) && InUseOrder()
    }

    ghost predicate Valid()
      reads this
    {
      Listed() && Above(blocks, low)
    }

    /** Memory_Init and Cache_Init, with so much of the hunk taken from above. */
    constructor (size: nat, high: nat)
      requires high <= size < 0x1_0000_0000
      ensures Valid() && this.size == size && this.high == high && low == 0
      ensures S() == State([], [], map[]) && fresh(mem)
    {
      this.size, this.high, low := size, high, 0;
      mem := new Byte[size](_ => 0);
      blocks, lru, data := [], [], map[];
      lruNext, lruPrev := map[Head := Head], map[Head := Head];
      ShowsNone();
    }

    // ----- bytes

    method Zero(lo: nat, n: nat)
      requires lo + n <= mem.Length
      modifies mem
      ensures SameOutside(old(mem[..]), mem[..], lo, lo + n)
      ensures forall i :: lo <= i < lo + n ==> mem[i] == 0
    {
      forall i | lo <= i < lo + n {
        mem[i] := 0;
      }
    }

    /** memmove */
    method Copy(to: nat, from: nat, n: nat)
      requires to + n <= mem.Length && from + n <= mem.Length
      modifies mem
      ensures SameOutside(old(mem[..]), mem[..], to, to + n)
      ensures mem[to..to + n] == old(mem[from..from + n])
    {
      forall i | 0 <= i < n {
        mem[to + i] := mem[from + i];
      }
    }

    // ----- the use order

    /** Links a block in behind the head; false stands for the fatal error on a linked block. */
    method MakeLRU(a: nat) returns (ok: bool)
      requires InUseOrder()
      modifies this`lruNext, this`lruPrev, this`lru
      ensures InUseOrder() && (ok <==> a !in old(lru))
      ensures lru == if ok then [a] + old(lru) else old(lru)
    {
      if At(a) in lruNext || At(a) in lruPrev { return false; }
      LinkedFirst(lruNext, lruPrev, lru, a);
      lruPrev := lruPrev[lruNext[Head] := At(a)];
      lruNext := lruNext[At(a) := lruNext[Head]];
      lruPrev := lruPrev[At(a) := Head];
      lruNext := lruNext[Head := At(a)];
      lru := [a] + lru;
      return true;
    }

    /** Takes a block out of the links; false stands for the fatal error on a block not linked. */
    method UnlinkLRU(a: nat) returns (ok: bool)
      requires InUseOrder()
      modifies this`lruNext, this`lruPrev, this`lru
      ensures InUseOrder() && (ok <==> a in old(lru)) && a !in lru
      ensures lru == Unlinked(old(lru), a) && (ok ==> Leaves(old(lru), lru, a))
    {
      hide Leaves;
      if At(a) !in lruNext || At(a) !in lruPrev { return false; }
      ghost var k := IndexOf(lru, a);
      LinkedOut(lruNext, lruPrev, lru, k);
      WithoutCovers(lru, k, Without(lru, k));
      var n, p := lruNext[At(a)], lruPrev[At(a)];
      lruPrev := lruPrev[n := p];
      lruNext := lruNext[p := n];
      lruPrev, lruNext := lruPrev - {At(a)}, lruNext - {At(a)};
      UnlinkedLeaves(lru, a);
      lru := Unlinked(lru, a);
      return true;
    }

    // ----- allocation

    /** Looks for room of the given size, which includes the header; with nobottom the gap below
        the first block is passed over.  abort stands for the fatal error on an empty cache. */
    method TryAlloc(size: nat, nobottom: bool) returns (abort: bool, r: Option<nat>)
      requires Listed() && size >= HEADER
      requires if nobottom then blocks != [] else Above(blocks, low)
      modifies this`blocks, this`lruNext, this`lruPrev, this`lru, mem
      ensures abort <==> !nobottom && old(blocks) == [] && low + size > Ceiling()
      ensures var found := FindGap(old(blocks), low, Ceiling(), size, if nobottom then 1 else 0);
        InUseOrder() &&
        if found.None? then r == None && S() == old(S()) && mem[..] == old(mem[..])
        else
          && r == Some(found.value.addr)
          && blocks == With(old(blocks), found.value.index, Block(found.value.addr, size, 0))
          && lru == [found.value.addr] + old(lru)
          && SameOutside(old(mem[..]), mem[..], found.value.addr, found.value.addr + HEADER)
    {
      FloorBelow(0, size);
      if !nobottom && blocks == [] {
        if Minus(Minus(this.size, high), low) < size { return true, None; }
        Insert(0, low, size);
        return false, Some(low);
      }
      ghost var first := if nobottom then 1 else 0;
      var newc := low;
      var i := 0;
      while i < |blocks|
        invariant 0 <= i <= |blocks| && newc == Floor(blocks, low, i)
        invariant S() == old(S()) && InUseOrder() && mem[..] == old(mem[..])
        invariant i >= first ==>
          FindGap(blocks, low, Ceiling(), size, first) == FindGap(blocks, low, Ceiling(), size, i)
      {
        var cs := blocks[i];
        FloorBelow(i, size);
        if !nobottom || i != 0 {
          if Minus(cs.addr, newc) >= size {
            Insert(i, newc, size);
            return false, Some(newc);
          }
        }
        newc := cs.addr + cs.size;
        i := i + 1;
      }
      FloorBelow(i, size);
      if Minus(Minus(this.size, high), newc) >= size {
        Insert(i, newc, size);
        return false, Some(newc);
      }
      return false, None;
    }

    /** Where the gap does not lie below the low mark, the unsigned test is the intended one. */
    lemma FloorBelow(i: nat, size: nat)
      requires Listed() && i <= |blocks|
      ensures i > 0 || Above(blocks, low) ==> var (f, t) := (Floor(blocks, low, i), Top(blocks, Ceiling(), i));
        f <= t < 0x1_0000_0000 && (Minus(t, f) >= size <==> Roomy(blocks, low, Ceiling(), size, i))
      ensures Minus(this.size, high) == Ceiling()
    {
      if i > 0 { assert SpacedAt(blocks, Ceiling(), i - 1); }
      if i < |blocks| { SpacedOrder(blocks, Ceiling(), i, |blocks|); }
    }

    /** Puts a fresh block without a user into gap i. */
    method Insert(i: nat, a: nat, size: nat)
      requires Listed() && i <= |blocks| && a == Floor(blocks, low, i) && size >= HEADER
      requires Roomy(blocks, low, Ceiling(), size, i)
      modifies this`blocks, this`lruNext, this`lruPrev, this`lru, mem
      ensures InUseOrder()
      ensures blocks == With(old(blocks), i, Block(a, size, 0)) && lru == [a] + old(lru)
      ensures SameOutside(old(mem[..]), mem[..], a, a + HEADER)
    {
      GapUnlisted(S(), low, Ceiling(), i, size);
      if i < |blocks| { SpacedOrder(blocks, Ceiling(), i, |blocks|); }
      Zero(a, HEADER);
      blocks := With(blocks, i, Block(a, size, 0));
      var ok := MakeLRU(a);
    }

    // ----- freeing and moving

    /** Cache_Free.  false stands for the fatal error on a user without a block.  The block leaves
        both lists, and the other users keep theirs and its bytes. */
    method CacheFree(u: User) returns (ok: bool)
      requires Valid()
      modifies this`blocks, this`lruNext, this`lruPrev, this`lru, this`data
      ensures Valid() && (ok <==> u in old(data)) && u !in data
      ensures S() == if ok then Remove(old(S()), Home(old(S()), u)) else old(S())
      ensures ok ==> old(data)[u] >= HEADER && Leaves(old(lru), lru, old(data)[u] - HEADER)
      ensures forall v :: v in data <==> v in old(data) && v != u
      ensures forall v :: v in data ==> data[v] == old(data)[v] && Sees(v) == old(Sees(v))
    {
      hide Agrees, Spaced, Above, Shows, Leaves;
      if u in data {
        HomeIs(S(), Ceiling(), u);
        FreeOk(u, Home(S(), u));
        WithoutAmong(blocks, Home(S(), u));
        UnlinkedLeaves(lru, data[u] - HEADER);
      }
      ok := FreeBlock(u);
      UsersSee(old(S()), mem[..]);
    }

    /** What a user sees depends on the lists and the bytes only. */
    lemma UsersSee(s: State, m: seq<Byte>)
      requires Listed() && Good(s, Ceiling()) && m == mem[..]
      requires Among(blocks, s.blocks)
      ensures forall v :: v in data ==> v in s.data && Sees(v) == Payload(s, Ceiling(), m, v)
    {
      SpacedInside(s.blocks, Ceiling(), mem.Length);
      CarriedSelf(m, s.blocks, blocks);
      forall v | v in data ensures v in s.data && Sees(v) == Payload(s, Ceiling(), m, v) {
        CarriedPayload(s, m, S(), m, Ceiling(), v);
      }
    }

    /** Unlinks the block of a user, in a cache that may be about to be well formed again. */
    method FreeBlock(u: User) returns (ok: bool)
      requires InUseOrder()
      requires u in data ==> Home(S(), u) < |blocks| && blocks[Home(S(), u)].user == u && data[u] >= HEADER
      requires u in data ==> blocks[Home(S(), u)].addr in lru
      modifies this`blocks, this`lruNext, this`lruPrev, this`lru, this`data
      ensures InUseOrder() && (ok <==> u in old(data))
      ensures S() == if ok then Remove(old(S()), Home(old(S()), u)) else old(S())
    {
      if u !in data { return false; }
      var a := data[u] - HEADER;
      blocks := Without(blocks, IndexOf(Addrs(blocks), a));
      data := data - {u};
      ok := UnlinkLRU(a);
    }

    /** Cache_Move: copies the lowest block to room above it, or drops it. */
    method CacheMove()
      requires Listed() && blocks != []
      modifies this`blocks, this`lruNext, this`lruPrev, this`lru, this`data, mem
      ensures InUseOrder() && S() == Move(old(S()), low, Ceiling())
      ensures old(blocks)[0].addr < low ==> MakesWay(old(S()), S(), low, Ceiling())
      ensures Carried(mem[..], blocks, old(mem[..]), old(blocks))
    {
      assert SpacedAt(blocks, Ceiling(), 0);
      hide MakesWay, Carried, Shows, Good, FindGap, Remove, Move, SameOutside, With;
      ghost var s, before := S(), mem[..];
      var c := blocks[0];
      if c.addr < low { MoveMakesWay(s, low, Ceiling()); }
      MoveDrop(s, low, Ceiling());
      var abort, newc := TryAlloc(c.size, true);
      if newc.Some? {
        MoveTo(s, FindGap(s.blocks, low, Ceiling(), c.size, 1).value, newc.value, c, before);
      } else {
        Drop();
      }
    }

    /** Fills the block made at place a with the lowest one, and frees that. */
    method MoveTo(ghost s: State, ghost g: Gap, a: nat, c: Block, ghost before: seq<Byte>)
      requires mem.Length == size && low + high <= size && InUseOrder() && |before| == mem.Length
      requires Good(s, Ceiling()) && s.blocks != [] && c == s.blocks[0] && a == g.addr
        && FindGap(s.blocks, low, Ceiling(), c.size, 1) == Some(g)
      requires S() == State(With(s.blocks, g.index, Block(g.addr, c.size, 0)), [g.addr] + s.lru, s.data)
      requires SameOutside(before, mem[..], a, a + HEADER)
      modifies this`blocks, this`lruNext, this`lruPrev, this`lru, this`data, mem
      ensures InUseOrder() && S() == Move(s, low, Ceiling())
      ensures Carried(mem[..], blocks, before, s.blocks)
    {
      hide Move, Carried, Carries, Spaced, Agrees, FindGap, SameOutside, Shows;
      MoveHigher(s.blocks, low, Ceiling());
      MoveBlocks(s, low, Ceiling());
      CopyBehind(c, a, before);
      MoveCarries(s.blocks, low, Ceiling(), g, before, mem[..]);
      Relist(s, g, a);
    }

    /** Frees the lowest block. */
    method Drop()
      requires Listed() && blocks != []
      modifies this`blocks, this`lruNext, this`lruPrev, this`lru, this`data
      ensures InUseOrder() && S() == Remove(old(S()), 0) && Carried(mem[..], blocks, mem[..], old(blocks))
    {
      assert PointedAt(S(), 0);
      HomeIs(S(), Ceiling(), blocks[0].user);
      SpacedInside(blocks, Ceiling(), mem.Length);
      CarriedSelf(mem[..], blocks, Without(blocks, 0));
      var ok := FreeBlock(blocks[0].user);
    }

    method CopyBehind(c: Block, a: nat, ghost before: seq<Byte>)
      requires c.size >= HEADER && c.addr + c.size <= a && a + c.size <= mem.Length
      requires SameOutside(before, mem[..], a, a + HEADER)
      modifies mem
      ensures SameOutside(before, mem[..], a, a + c.size)
      ensures Carries(mem[..], Block(a, c.size, c.user), before, c)
    {
      ghost var zeroed := mem[..];
      Copy(a + HEADER, c.addr + HEADER, c.size - HEADER);
      CopyCarries(c, a, before, zeroed, mem[..]);
    }

    /** Gives the new block the user of the lowest one, frees that, and points the user at the new
        payload. */
    method Relist(ghost s: State, ghost g: Gap, a: nat)
      requires Good(s, Ceiling()) && s.blocks != []
        && FindGap(s.blocks, low, Ceiling(), s.blocks[0].size, 1) == Some(g)
      requires S() == State(With(s.blocks, g.index, Block(g.addr, s.blocks[0].size, 0)), [g.addr] + s.lru, s.data)
      requires a == g.addr && InUseOrder()
      modifies this`blocks, this`lruNext, this`lruPrev, this`lru, this`data
      ensures InUseOrder() && S() == Move(s, low, Ceiling())
    {
      hide FindGap, Move, Good, Agrees, Spaced;
      var c := blocks[0];
      DoubledPlaces(s, low, Ceiling(), g);
      blocks := blocks[IndexOf(Addrs(blocks), a) := Block(a, c.size, c.user)];
      assert blocks == Doubled(s.blocks, g);
      MoveSteps(s, low, Ceiling(), g, S());
      var ok := FreeBlock(c.user);
      data := data[c.user := a + HEADER];
    }

    /** Cache_FreeLow: moves or drops the lowest block until none is below the mark. */
    method CacheFreeLow()
      requires Listed()
      modifies this`blocks, this`lruNext, this`lruPrev, this`lru, this`data, mem
      ensures Valid() && S() == FreeLow(old(S()), low, Ceiling()) && GaveWay(old(S()), S(), low, Ceiling())
      ensures Carried(mem[..], blocks, old(mem[..]), old(blocks))
    {
      hide Carried, Move, FreeLow, Agrees, Spaced, GaveWay;
      FreeLowGivesWay(S(), low, Ceiling());
      ghost var goal, before, bs := FreeLow(S(), low, Ceiling()), mem[..], blocks;
      SpacedInside(blocks, Ceiling(), mem.Length);
      CarriedSelf(before, bs, bs);
      while true
        invariant Listed() && FreeLow(S(), low, Ceiling()) == goal
        invariant Carried(mem[..], blocks, before, bs)
        decreases Height(blocks, Ceiling())
      {
        if blocks == [] || blocks[0].addr >= low {
          LowFreed(S(), low, Ceiling());
          return;
        }
        MoveOne(before, bs);
      }
    }

    method MoveOne(ghost before: seq<Byte>, ghost bs: seq<Block>)
      requires Listed() && blocks != [] && blocks[0].addr < low && Carried(mem[..], blocks, before, bs)
      modifies this`blocks, this`lruNext, this`lruPrev, this`lru, this`data, mem
      ensures Listed() && FreeLow(S(), low, Ceiling()) == FreeLow(old(S()), low, Ceiling())
      ensures Height(blocks, Ceiling()) < Height(old(blocks), Ceiling())
      ensures Carried(mem[..], blocks, before, bs)
    {
      MoveKeeps(S(), low, Ceiling());
      CacheMove();
      CarriedTransitive(before, bs, old(mem[..]), old(blocks), mem[..], blocks);
    }

    /** What a user with data finds there. */
    ghost function Sees(u: User): seq<Byte>
      requires Listed() && u in data
      reads this, mem
    {
      Payload(S(), Ceiling(), mem[..], u)
    }

    /** Hunk_AllocName.  Succeeds exactly if header and rounded request fit between the marks; the
        cache makes way, every user that keeps its block keeps its bytes, blocks above the new mark
        do not move, and the space handed out is zeroed and stands behind its header. */
    method HunkAllocName(n: nat, name: seq<Byte>) returns (ok: bool, p: nat)
      requires Valid() && n < 0x1_0000_0000
      modifies this`low, this`blocks, this`lruNext, this`lruPrev, this`lru, this`data, mem
      ensures ok <==> old(low) + HUNK_HEADER + RoundUp(n) + high <= size
      ensures !ok ==> S() == old(S()) && low == old(low) && mem[..] == old(mem[..])
      ensures ok ==> Valid() && low == old(low) + HUNK_HEADER + RoundUp(n) && p == old(low) + HUNK_HEADER
      ensures ok ==> S() == FreeLow(old(S()), low, Ceiling()) && Stay(old(blocks), blocks, low)
      ensures ok ==> GaveWay(old(S()), S(), low, Ceiling())
      ensures ok ==> forall u :: u in data ==> u in old(data) && Sees(u) == old(Sees(u))
      ensures ok ==> mem[old(low)..p] == HunkHeader(low - old(low), name)
      ensures ok ==> forall i :: p <= i < low ==> mem[i] == 0
    {
      hide Good, Above, Shows, FreeLow, Stay, HunkHeader, Payload, GaveWay, InUseOrder, PaddedSize, RoundUp, Minus;
      FreespaceIs();
      var freespace := Minus(Minus(size, low), high);
      var totalsize := PaddedSize(n);
      GuardIsExact(n, freespace);
      if totalsize < n || totalsize > freespace { return false, 0; }
      var h := Claim(totalsize, name);
      return true, h + HUNK_HEADER;
    }

    /** Grows the low hunk by so much, with a header at the bottom of the space gained. */
    method Claim(total: nat, name: seq<Byte>) returns (h: nat)
      requires Valid() && HUNK_HEADER <= total && low + total + high <= size
      modifies this`low, this`blocks, this`lruNext, this`lruPrev, this`lru, this`data, mem
      ensures Valid() && low == old(low) + total && h == old(low)
      ensures S() == FreeLow(old(S()), low, Ceiling()) && Stay(old(blocks), blocks, low)
      ensures GaveWay(old(S()), S(), low, Ceiling())
      ensures forall u :: u in data ==> u in old(data) && Sees(u) == old(Sees(u))
      ensures mem[h..h + HUNK_HEADER] == HunkHeader(total, name)
      ensures forall i :: h + HUNK_HEADER <= i < low ==> mem[i] == 0
    {
      hide Good, Above, Shows, FreeLow, Stay, HunkHeader, Payload, GaveWay, Sees, InUseOrder;
      h := Grow(total);
      WriteHeader(h, total, name);
    }

    /** Writes the header of a hunk below the low mark, where no user sees it. */
    method WriteHeader(h: nat, total: nat, name: seq<Byte>)
      requires Valid() && h + HUNK_HEADER <= low
      modifies mem
      ensures Valid() && mem[h..h + HUNK_HEADER] == HunkHeader(total, name)
      ensures SameOutside(old(mem[..]), mem[..], h, h + HUNK_HEADER)
      ensures forall u :: u in data ==> Sees(u) == old(Sees(u))
    {
      var header := HunkHeader(total, name);
      forall i | 0 <= i < HUNK_HEADER {
        mem[h + i] := header[i];
      }
      BelowUnseen(h, h + HUNK_HEADER, old(mem[..]));
    }

    /** No user sees what changes below the low mark. */
    lemma BelowUnseen(lo: nat, hi: nat, before: seq<Byte>)
      requires Valid() && hi <= low && SameOutside(before, mem[..], lo, hi)
      ensures forall u :: u in data ==> Sees(u) == Payload(S(), Ceiling(), before, u)
    {
      SpacedInside(blocks, Ceiling(), mem.Length);
      AboveClear(blocks, hi, Ceiling(), lo);
      CarriedOutside(before, mem[..], lo, hi, blocks);
      forall u | u in data ensures Sees(u) == Payload(S(), Ceiling(), before, u) {
        CarriedPayload(S(), before, S(), mem[..], Ceiling(), u);
      }
    }

    lemma FreespaceIs()
      requires Listed()
      ensures Minus(Minus(size, low), high) == size - low - high < 0x1_0000_0000
    {
    }

    /** Raises the low mark, makes the cache give way, and zeroes the space gained. */
    method Grow(n: nat) returns (h: nat)
      requires Valid() && low + n + high <= size
      modifies this`low, this`blocks, this`lruNext, this`lruPrev, this`lru, this`data, mem
      ensures Valid() && low == old(low) + n && h == old(low)
      ensures S() == FreeLow(old(S()), low, Ceiling()) && Stay(old(blocks), blocks, low)
      ensures GaveWay(old(S()), S(), low, Ceiling())
      ensures forall u :: u in data ==> u in old(data) && Sees(u) == old(Sees(u))
      ensures forall i :: old(low) <= i < low ==> mem[i] == 0
    {
      hide GaveWay, FreeLow;
      h := low;
      low := low + n;
      FreeLowKeeps(S(), low, Ceiling());
      CacheFreeLow();
      ZeroBelow(h, old(mem[..]), old(blocks));
      forall u | u in data ensures u in old(data) && Sees(u) == old(Sees(u)) {
        CarriedPayload(old(S()), old(mem[..]), S(), mem[..], Ceiling(), u);
      }
    }

    /** Zeroing from a place up to the low mark touches no block of the cache. */
    method ZeroBelow(lo: nat, ghost before: seq<Byte>, ghost bs: seq<Block>)
      requires Valid() && lo <= low && Carried(mem[..], blocks, before, bs)
      modifies mem
      ensures Carried(mem[..], blocks, before, bs) && forall i :: lo <= i < low ==> mem[i] == 0
    {
      Zero(lo, low - lo);
      SpacedInside(blocks, Ceiling(), mem.Length);
      AboveClear(blocks, low, Ceiling(), lo);
      CarriedOutside(old(mem[..]), mem[..], lo, low, blocks);
      CarriedTransitive(before, bs, old(mem[..]), blocks, mem[..], blocks);
    }

    /** Hunk_FreeToLowMark: false stands for the fatal error on a mark above the current one. */
    method HunkFreeToLowMark(mark: nat) returns (ok: bool)
      requires Valid()
      modifies this`low, mem
      ensures Valid() && (ok <==> mark <= old(low)) && low == (if ok then mark else old(low))
      ensures forall u :: u in data ==> Sees(u) == old(Sees(u))
      ensures ok ==> forall i :: mark <= i < old(low) ==> mem[i] == 0
    {
      if mark > low { return false; }
      hide Good, Shows, Payload;
      Zero(mark, low - mark);
      BelowUnseen(mark, low, old(mem[..]));
      low := mark;
      return true;
    }

    // ----- the cache's users

    /** Cache_Check: the user's data pointer, or NULL; its block becomes the latest used. */
    method CacheCheck(u: User) returns (r: Option<nat>)
      requires Valid()
      modifies this`lruNext, this`lruPrev, this`lru
      ensures Valid()
      ensures u !in data ==> r == None && S() == old(S())
      ensures u in data ==> r == Some(data[u]) && data[u] >= HEADER && S() == Touch(old(S()), u)
      ensures u in data ==> lru != [] && lru[0] == data[u] - HEADER && Leaves(old(lru), lru[1..], data[u] - HEADER)
    {
      if u !in data { return None; }
      TouchOk(u);
      var a := data[u] - HEADER;
      UnlinkedLeaves(lru, a);
      Relink(a);
      return Some(data[u]);
    }

    lemma TouchOk(u: User)
      requires Valid() && u in data
      ensures data[u] >= HEADER && data[u] - HEADER in lru && data[u] - HEADER !in Unlinked(lru, data[u] - HEADER)
      ensures Good(State(blocks, [data[u] - HEADER] + Unlinked(lru, data[u] - HEADER), data), Ceiling())
    {
      TouchKeeps(S(), Ceiling(), u);
      UnlinkedOnce(S(), Ceiling(), data[u] - HEADER);
    }

    method Relink(a: nat)
      requires InUseOrder() && a in lru
      modifies this`lruNext, this`lruPrev, this`lru
      ensures InUseOrder() && lru == [a] + Unlinked(old(lru), a)
    {
      var ok := UnlinkLRU(a);
      ok := MakeLRU(a);
    }

    /** Cache_Flush: frees every block. */
    method CacheFlush()
      requires Valid()
      modifies this`blocks, this`lruNext, this`lruPrev, this`lru, this`data
      ensures Valid() && blocks == [] && lru == [] && data == map[]
    {
      while blocks != []
        invariant Valid()
        decreases |blocks|
      {
        FreeOk(blocks[0].user, 0);
        var ok := CacheFree(blocks[0].user);
      }
      SameLength(S(), Ceiling());
      DataHasBlocks(S());
    }

    /** Freeing the user of block k is possible and keeps the cache well formed. */
    lemma FreeOk(u: User, k: nat)
      requires Valid() && k < |blocks| && blocks[k].user == u
      ensures u in data && Home(S(), u) == k && data[u] >= HEADER && blocks[k].addr in lru
      ensures Good(Remove(S(), k), Ceiling()) && Above(Remove(S(), k).blocks, low)
    {
      assert PointedAt(S(), k);
      HomeIs(S(), Ceiling(), u);
      RemoveKeeps(S(), Ceiling(), k);
      if |blocks| > 1 { SpacedAbove(blocks, low, Ceiling(), if k == 0 then 1 else 0); }
    }

    /** Frees the least recently used block. */
    method EvictOne()
      requires Valid() && lru != []
      modifies this`blocks, this`lruNext, this`lruPrev, this`lru, this`data
      ensures Valid() && S() == EvictLast(old(S())) && |lru| == |old(lru)| - 1
      ensures forall v :: v in data ==> v in old(data)
    {
      hide Agrees, Spaced;
      LruEntry(S(), Ceiling(), |lru| - 1);
      EvictLastKeeps(S(), low, Ceiling(), EvictLast(S()));
      ghost var k := IndexOf(Addrs(blocks), lru[|lru| - 1]);
      EndsAre(lruNext, lruPrev, lru);
      var u := blocks[IndexOf(Addrs(blocks), lruPrev[Head].addr)].user;
      FreeOk(u, k);
      var ok := CacheFree(u);
    }

    /** Cache_Alloc.  Succeeds exactly if the user has no block, the size is not zero, and header
        and size, rounded up, fit between the two marks.  k blocks are evicted, from the least
        recently used end, where no smaller number leaves a gap large enough; the other users keep
        their bytes. */
    method CacheAlloc(u: User, n: nat) returns (ok: bool, p: nat, ghost k: nat)
      requires Valid() && u != 0 && n + HEADER + 15 < 0x1_0000_0000
      modifies this`blocks, this`lruNext, this`lruPrev, this`lru, this`data, mem
      ensures ok <==> u !in old(data) && n > 0 && low + RoundUp(n + HEADER) <= Ceiling()
      ensures ok ==> Valid() && k <= |old(lru)|
      ensures ok ==> Cramped(old(S()), low, Ceiling(), RoundUp(n + HEADER), k)
      ensures ok ==> var (s, found) := (Evicted(old(S()), k),
        FindGap(Evicted(old(S()), k).blocks, low, Ceiling(), RoundUp(n + HEADER), 0));
        found.Some? && S() == Place(s, found.value, RoundUp(n + HEADER), u) && p == data[u]
      ensures ok ==> data[u] == p >= HEADER && Block(p - HEADER, RoundUp(n + HEADER), u) in blocks
      ensures ok ==> lru != [] && lru[0] == p - HEADER && lru[1..] == old(lru)[..|old(lru)| - k]
      ensures ok ==> Kept(old(S()), S(), u, k)
      ensures ok ==> forall v :: v in data && v != u ==> v in old(data) && Sees(v) == old(Sees(v))
    {
      hide BlockSize, Good, Shows, FindGap, Evicted, Carried, Payload, Above, Kept;
      k := 0;
      if u in data { return false, 0, k; }
      if n == 0 { return false, 0, k; }
      ghost var s, m := S(), mem[..];
      var size := BlockSize(n);
      BlockSizeIff(n);
      var room, a;
      ghost var now;
      room, a, now, k := MakeRoom(size, u);
      if !room { return false, 0, k; }
      ghost var g := FindGap(now.blocks, low, Ceiling(), size, 0).value;
      Assign(now, size, u, a, m);
      UsersKeep(s, m, k, now, g, size, u);
      p := data[u];
      return true, p, k;
    }

    /** After evictions and a placement the users that are left see what they saw before. */
    lemma UsersKeep(s: State, m: seq<Byte>, k: nat, now: State, g: Gap, size: nat, u: User)
      requires Valid() && Good(s, Ceiling()) && Above(s.blocks, low) && k <= |s.lru|
      requires now == Evicted(s, k) && Good(now, Ceiling()) && g.index <= |now.blocks|
        && S() == Place(now, g, size, u)
      requires |m| == mem.Length && Carried(mem[..], now.blocks, m, now.blocks)
      ensures forall v :: v in data && v != u ==> v in s.data && Sees(v) == Payload(s, Ceiling(), m, v)
      ensures lru[1..] == s.lru[..|s.lru| - k] && (u !in s.data ==> Kept(s, S(), u, k))
    {
      if u !in s.data { PlacementKeeps(s, low, Ceiling(), k, g, size, u); }
      forall v | v in data && v != u ensures v in s.data && Sees(v) == Payload(s, Ceiling(), m, v) {
        AllocPayload(s, low, Ceiling(), k, now, g, size, u, m, S(), mem[..], v);
      }
      var t := EvictedKeeps(s, low, Ceiling(), k);
    }

    /** The loop of Cache_Alloc: looks for room and evicts until there is some.  The block found
        is listed but has no user yet. */
    method MakeRoom(size: nat, u: User) returns (room: bool, a: nat, ghost now: State, ghost k: nat)
      requires Valid() && size >= HEADER && u !in data
      modifies this`blocks, this`lruNext, this`lruPrev, this`lru, this`data, mem
      ensures room <==> low + size <= Ceiling()
      ensures room ==> k <= |old(lru)| && now == Evicted(old(S()), k) && Cramped(old(S()), low, Ceiling(), size, k)
      ensures InUseOrder()
      ensures room ==> Good(now, Ceiling()) && Above(now.blocks, low) && u !in now.data
      ensures room ==> var found := FindGap(now.blocks, low, Ceiling(), size, 0);
        && found.Some? && a == found.value.addr
        && S() == State(With(now.blocks, found.value.index, Block(a, size, 0)), [a] + now.lru, now.data)
        && SameOutside(old(mem[..]), mem[..], a, a + HEADER)
    {
      hide Evicted, EvictLast, FindGap, Place, Agrees, Spaced, Carried;
      ghost var s := S();
      k := 0;
      StartEviction(s);
      while true
        invariant Valid() && u !in data && mem[..] == old(mem[..])
        invariant k <= |s.lru| && S() == Evicted(s, k) && |lru| == |s.lru| - k
        invariant Cramped(s, low, Ceiling(), size, k)
        decreases |lru|
      {
        now := S();
        FitsIffRoom(now, low, Ceiling(), size);
        var abort, cs := TryAlloc(size, false);
        if cs.Some? { return true, cs.value, now, k; }
        EndsAre(lruNext, lruPrev, lru);
        if abort || lruPrev[Head] == Head { return false, 0, now, k; }
        EvictOne();
        StepEviction(s, low, Ceiling(), size, k);
        k := k + 1;
      }
    }

    /** Gives the fresh block its user and the user its data pointer, and touches the block. */
    method Assign(ghost s: State, size: nat, u: User, a: nat, ghost before: seq<Byte>)
      requires mem.Length == this.size < 0x1_0000_0000 && low + high <= this.size && |before| == mem.Length
      requires Good(s, Ceiling()) && Above(s.blocks, low) && u != 0 && u !in s.data && size >= HEADER && InUseOrder()
      requires var found := FindGap(s.blocks, low, Ceiling(), size, 0);
        && found.Some? && a == found.value.addr
        && S() == State(With(s.blocks, found.value.index, Block(a, size, 0)), [a] + s.lru, s.data)
        && SameOutside(before, mem[..], a, a + HEADER)
      modifies this`blocks, this`lruNext, this`lruPrev, this`lru, this`data
      ensures Valid() && S() == Place(s, FindGap(s.blocks, low, Ceiling(), size, 0).value, size, u)
      ensures data[u] == a + HEADER && low + size <= Ceiling()
      ensures Carried(mem[..], s.blocks, before, s.blocks)
    {
      hide FindGap, Agrees, Spaced, Carried;
      ghost var g := FindGap(s.blocks, low, Ceiling(), size, 0).value;
      PlaceSteps(s, low, Ceiling(), g, size, u);
      PlaceResult(s, low, Ceiling(), g, size, u, before, mem[..]);
      blocks := blocks[IndexOf(Addrs(blocks), a) := Block(a, size, u)];
      data := data[u := a + HEADER];
      assert S() == Place(s, g, size, u);
      TouchLatest(u);
    }

    /** Touching the block used last changes nothing. */
    method TouchLatest(u: User)
      requires Valid() && u in data && lru != [] && lru[0] + HEADER == data[u]
      modifies this`lruNext, this`lruPrev, this`lru
      ensures Valid() && S() == old(S())
    {
      hide Good, Leaves, Shows;
      ghost var l := lru;
      assert Unlinked(l, l[0]) == l[1..];
      var r := CacheCheck(u);
      assert lru == l;
    }
  }
}
