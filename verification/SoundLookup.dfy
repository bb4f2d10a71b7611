/** The hashed sound index of the game server (SV_mcast.c).

    A table of 1023 slots maps the hash of a sound name to its precache index, by open
    addressing with linear probing; slot value 0 means empty.  The specification functions
    come first, then the facts about them, then the class whose methods run the loops. */
module SoundLookup {
  import opened Basics

  const SLOTS := 0x3FF
  const MAX_SOUNDS := 0x200

  /** A C string without its terminator. */
  type Name = seq<Byte>
  /** The precache array: an entry is None where the pointer is NULL. */
  type Precache = p: seq<Option<Name>> | |p| == MAX_SOUNDS witness seq(MAX_SOUNDS, _ => None)
  type Table = t: seq<nat> | |t| == SLOTS witness seq(SLOTS, _ => 0)

  // ----- names and hashes

  function ToLower(c: Byte): Byte {
    if 65 <= c <= 90 then c + 32 else c
  }

  function Fold(s: Name): (f: Name)
    ensures |f| == |s| && forall i :: 0 <= i < |s| ==> f[i] == ToLower(s[i])
  {
    seq(|s|, i requires 0 <= i < |s| => ToLower(s[i]))
  }

  /** strcasecmp(a, b) == 0 */
  predicate SameName(a: Name, b: Name) {
    Fold(a) == Fold(b)
  }

  /** Names are the same if they have the same length and differ at most in the case of letters. */
  lemma SameNameIs(a: Name, b: Name)
    ensures SameName(a, b) <==> |a| == |b| && forall i :: 0 <= i < |a| ==> SameLetter(a[i], b[i])
  {
    if |a| == |b| {
      forall i | 0 <= i < |a| ensures SameLetter(a[i], b[i]) <==> Fold(a)[i] == Fold(b)[i] {
      }
    }
  }

  /** The same byte, or one of A to Z and the one 32 above. */
  predicate SameLetter(c: Byte, d: Byte) {
    || c == d
    || ('A' as int <= c as int <= 'Z' as int && d == c + 32)
    || ('A' as int <= d as int <= 'Z' as int && c == d + 32)
  }

  /** t | (t << 8) | (t << 16) | (t << 24): the four shifted bytes share no bit, so the
      disjunction is a sum. */
  function Spread(c: Byte): nat {
    c * 0x1 + c * 0x100 + c * 0x1_0000 + c * 0x100_0000
  }

  /** The sum of the spread bytes of a lower-case name, wrapping around at 32 bits. */
  function Accumulate(f: Name): nat {
    if f == [] then 0 else (Accumulate(f[..|f| - 1]) + Spread(f[|f| - 1])) % 0x1_0000_0000
  }

  function Hash(s: Name): (i: nat)
    ensures i < SLOTS
  {
    Accumulate(Fold(s)) % SLOTS
  }

  /** The disjunction of the four shifted bytes is a product. */
  lemma SpreadIs(t: bv32)
    requires t < 0x100
    ensures t | (t << 8) | (t << 16) | (t << 24) == t * 0x0101_0101
  {
  }

  /** The sum of the bytes of a name, letters in lower case. */
  function Total(s: Name): nat {
    if s == [] then 0
    else
      var c := s[|s| - 1] as nat;
      Total(s[..|s| - 1]) + if 'A' as nat <= c <= 'Z' as nat then c + 32 else c
  }

  /** The hash is that of the sum of the bytes, spread over 32 bits. */
  lemma HashIs(s: Name)
    ensures Hash(s) == Total(s) * 0x0101_0101 % 0x1_0000_0000 % 1023
  {
    AccumulateIs(s);
  }

  lemma {:induction false} AccumulateIs(s: Name)
    ensures Accumulate(Fold(s)) == Total(s) * 0x0101_0101 % 0x1_0000_0000
    decreases |s|
  {
    if s != [] {
      var (r, c) := (s[..|s| - 1], s[|s| - 1]);
      AccumulateIs(r);
      assert Fold(s)[..|s| - 1] == Fold(r);
      SumWraps(Total(r) * 0x0101_0101, Spread(ToLower(c)));
    }
  }

  lemma SumWraps(a: nat, b: nat)
    ensures (a % 0x1_0000_0000 + b) % 0x1_0000_0000 == (a + b) % 0x1_0000_0000
  {
  }

  lemma HashIgnoresCase(a: Name, b: Name)
    requires SameName(a, b)
    ensures Hash(a) == Hash(b)
  {
  }

  // ----- probing

  /** The slot reached after d steps of `i++; if(i > 0x3fe) i = 0;` from slot h. */
  function Probe(h: nat, d: nat): (i: nat)
    requires h < SLOTS && d < SLOTS
    ensures i < SLOTS
  {
    if h + d < SLOTS then h + d else h + d - SLOTS
  }

  /** How many steps lead from slot h to slot i. */
  function Distance(h: nat, i: nat): (d: nat)
    requires h < SLOTS && i < SLOTS
    ensures d < SLOTS && Probe(h, d) == i
  {
    if i >= h then i - h else i + SLOTS - h
  }

  /** The first empty slot in probe order, or None when every slot is taken. */
  function FirstEmpty(t: Table, h: nat, d: nat): (e: Option<nat>)
    requires h < SLOTS && d <= SLOTS
    ensures e.Some? ==> e.value < SLOTS && t[e.value] == 0
    decreases SLOTS - d
  {
    if d == SLOTS then None
    else if t[Probe(h, d)] == 0 then Some(Probe(h, d))
    else FirstEmpty(t, h, d + 1)
  }

  lemma {:induction false} FirstEmptyIsFirst(t: Table, h: nat, d: nat)
    requires h < SLOTS && d <= SLOTS
    ensures var e := FirstEmpty(t, h, d);
      && (e.Some? ==> d <= Distance(h, e.value) && forall c: nat :: d <= c < Distance(h, e.value) ==>
        t[Probe(h, c)] != 0)
      && (e.None? ==> forall c: nat :: d <= c < SLOTS ==> t[Probe(h, c)] != 0)
    decreases SLOTS - d
  {
    if d < SLOTS && t[Probe(h, d)] != 0 {
      FirstEmptyIsFirst(t, h, d + 1);
    }
  }

  // ----- building and looking up

  /** How many entries precede the first NULL. */
  function Count(p: Precache, i: nat): (n: nat)
    requires i <= MAX_SOUNDS
    ensures i <= n <= MAX_SOUNDS
    ensures forall k :: i <= k < n ==> p[k].Some?
    ensures n < MAX_SOUNDS ==> p[n].None?
    decreases MAX_SOUNDS - i
  {
    if i == MAX_SOUNDS || p[i].None? then i else Count(p, i + 1)
  }

  predicate Filled(p: Precache, n: nat) {
    n <= MAX_SOUNDS && forall k :: 0 <= k < n ==> p[k].Some?
  }

  /** A table together with the slot each sample was given. */
  datatype Built = Built(table: Table, slots: seq<nat>)

  /** Adding the next sample, of hash h; None stands for the no-free-slots abort. */
  function AddSample(b: Built, h: nat): Option<Built>
    requires h < SLOTS
  {
    match FirstEmpty(b.table, h, 0)
    case None => None
    case Some(e) => Some(Built(b.table[e := |b.slots|], b.slots + [e]))
  }

  function NoSamples(): Table {
    seq(SLOTS, _ => 0)
  }

  /** The table after the first n samples were added. */
  function Build(p: Precache, n: nat): (r: Option<Built>)
    requires Filled(p, n)
  {
    if n == 0 then Some(Built(NoSamples(), []))
    else
      match Build(p, n - 1)
      case None => None
      case Some(b) => AddSample(b, Hash(p[n - 1].value))
  }

  /** The hashes of the first n samples. */
  function Hashes(p: Precache, n: nat): (hs: seq<nat>)
    requires Filled(p, n)
    ensures |hs| == n && InRange(hs) && forall k :: 0 <= k < n ==> hs[k] == Hash(p[k].value)
  {
    seq(n, k requires 0 <= k < n => Hash(p[k].value))
  }

  predicate InRange(slots: seq<nat>) {
    forall k :: 0 <= k < |slots| ==> slots[k] < SLOTS
  }

  /** Sample k is stored at its slot. */
  ghost predicate Stored(t: Table, pos: seq<nat>, k: nat)
    requires k < |pos|
  {
    pos[k] < SLOTS && t[pos[k]] == k
  }

  /** Slot i is empty or holds the sample whose slot it is. */
  ghost predicate Owned(t: Table, pos: seq<nat>, i: nat)
    requires i < SLOTS
  {
    t[i] != 0 ==> t[i] < |pos| && pos[t[i]] == i
  }

  /** Exactly the samples 1, 2, ... are stored, each at its own slot. */
  ghost predicate Placed(t: Table, pos: seq<nat>) {
    && InRange(pos)
    && (forall k :: 1 <= k < |pos| ==> Stored(t, pos, k))
    && (forall i :: 0 <= i < SLOTS ==> Owned(t, pos, i))
  }

  /** No empty slot lies on the probe path from slot h to slot i. */
  ghost predicate Unbroken(t: Table, h: nat, i: nat)
    requires h < SLOTS && i < SLOTS
  {
    forall d: nat :: d < Distance(h, i) ==> t[Probe(h, d)] != 0
  }

  /** Sample k is reached from its hash without crossing an empty slot. */
  ghost predicate Reached(hs: seq<nat>, t: Table, pos: seq<nat>, k: nat)
    requires InRange(hs) && InRange(pos) && k < |hs| == |pos|
  {
    Unbroken(t, hs[k], pos[k])
  }

  /** If samples j and k have the same hash, j is met before k. */
  ghost predicate InOrder(hs: seq<nat>, pos: seq<nat>, j: nat, k: nat)
    requires InRange(hs) && InRange(pos) && j < k < |hs| == |pos|
  {
    hs[j] == hs[k] ==> Distance(hs[j], pos[j]) < Distance(hs[k], pos[k])
  }

  /** The probe-chain property of a table holding samples of hashes hs at slots pos: every
      sample is reached from its hash without crossing an empty slot, and of two samples with
      the same hash the earlier one is met first. */
  ghost predicate Chained(hs: seq<nat>, t: Table, pos: seq<nat>) {
    && |hs| == |pos| && InRange(hs)
    && Placed(t, pos)
    && (forall k :: 1 <= k < |pos| ==> Reached(hs, t, pos, k))
    && (forall j, k :: 1 <= j < k < |pos| ==> InOrder(hs, pos, j, k))
  }

  lemma MetInOrder(hs: seq<nat>, t: Table, pos: seq<nat>, j: nat, k: nat)
    requires Chained(hs, t, pos) && 1 <= j < |hs| && k < |hs| && hs[j] == hs[k]
    ensures j < k ==> Distance(hs[j], pos[j]) < Distance(hs[k], pos[k])
  {
    assert j < k ==> InOrder(hs, pos, j, k);
  }

  /** One insertion keeps the probe chains. */
  lemma InsertKeepsChains(hs: seq<nat>, t: Table, pos: seq<nat>, h: nat, e: nat, t': Table)
    requires Chained(hs, t, pos) && h < SLOTS
    requires FirstEmpty(t, h, 0) == Some(e) && t' == t[e := |pos|]
    ensures Chained(hs + [h], t', pos + [e])
  {
    FirstEmptyIsFirst(t, h, 0);
    InsertKeepsPlaces(t, pos, e, t');
    var n := |pos|;
    var hs', pos' := hs + [h], pos + [e];
    forall k | 1 <= k < n + 1 ensures Reached(hs', t', pos', k) {
      if k < n {
        assert Reached(hs, t, pos, k);
        MoreUsedUnbroken(t, e, t', hs[k], pos[k]);
      } else {
        MoreUsedUnbroken(t, e, t', h, e);
      }
    }
    forall j, k | 1 <= j < k < n + 1 ensures InOrder(hs', pos', j, k) {
      assert k < n ==> InOrder(hs, pos, j, k);
      if k == n && hs[j] == h {
        assert Stored(t, pos, j) && Reached(hs, t, pos, j);
        MetBefore(t, h, e, pos[j]);
      }
    }
  }

  lemma InsertKeepsPlaces(t: Table, pos: seq<nat>, e: nat, t': Table)
    requires Placed(t, pos) && e < SLOTS && t[e] == 0 && t' == t[e := |pos|]
    ensures Placed(t', pos + [e])
  {
    forall k | 1 <= k < |pos| + 1 ensures Stored(t', pos + [e], k) {
      assert k < |pos| ==> Stored(t, pos, k);
    }
    forall i | 0 <= i < SLOTS ensures Owned(t', pos + [e], i) {
      assert Owned(t, pos, i);
    }
  }

  lemma MoreUsedUnbroken(t: Table, e: nat, t': Table, h: nat, i: nat)
    requires e < SLOTS && h < SLOTS && i < SLOTS && t'[e] != 0 && forall j :: 0 <= j < SLOTS && j != e ==>
      t'[j] == t[j]
    requires Unbroken(t, h, i)
    ensures Unbroken(t', h, i)
  {
  }

  /** A taken slot reached from h without crossing an empty one comes before the first empty. */
  lemma MetBefore(t: Table, h: nat, e: nat, i: nat)
    requires h < SLOTS && i < SLOTS && t[i] != 0 && Unbroken(t, h, i)
    requires FirstEmpty(t, h, 0) == Some(e)
    ensures Distance(h, i) < Distance(h, e)
  {
    FirstEmptyIsFirst(t, h, 0);
    assert Probe(h, Distance(h, e)) == e;
  }

  ghost function Used(t: Table): set<nat> {
    set i: nat | i < SLOTS && t[i] != 0
  }

  ghost function Empty(t: Table): set<nat> {
    set i: nat | i < SLOTS && t[i] == 0
  }

  ghost function Below(n: nat): (s: set<nat>)
    ensures |s| == n && forall i: nat :: i in s <==> i < n
  {
    if n == 0 then {} else Below(n - 1) + {n - 1}
  }

  /** The slots of the samples 1..n-1. */
  ghost function Slots(pos: seq<nat>, n: nat): (s: set<nat>)
    requires n <= |pos|
    ensures |s| <= (if n == 0 then 0 else n - 1)
    ensures forall k :: 1 <= k < n ==> pos[k] in s
  {
    if n <= 1 then {} else Slots(pos, n - 1) + {pos[n - 1]}
  }

  lemma {:induction false} SubsetSize<T>(a: set<T>, b: set<T>)
    requires a <= b
    ensures |a| <= |b|
  {
    if a != {} {
      var x :| x in a;
      SubsetSize(a - {x}, b - {x});
    }
  }

  /** A table of at most 1023 samples has at most one used slot per sample after the first, so
      the search for an empty slot succeeds from every hash. */
  lemma RoomLeft(t: Table, pos: seq<nat>, h: nat)
    requires Placed(t, pos) && |pos| <= SLOTS && h < SLOTS
    ensures |Used(t)| <= (if pos == [] then 0 else |pos| - 1)
    ensures FirstEmpty(t, h, 0).Some?
  {
    forall i | i in Used(t) ensures i in Slots(pos, |pos|) {
      assert Owned(t, pos, i);
    }
    SubsetSize(Used(t), Slots(pos, |pos|));
    if FirstEmpty(t, h, 0).None? {
      FirstEmptyIsFirst(t, h, 0);
      forall i | i in Below(SLOTS) ensures i in Used(t) {
        assert t[Probe(h, Distance(h, i))] != 0;
      }
      SubsetSize(Below(SLOTS), Used(t));
    }
  }

  /** Adding a sample to a table that is not full succeeds and keeps the probe chains. */
  lemma AddSampleSucceeds(hs: seq<nat>, b: Built, h: nat, hs': seq<nat>, r: Option<Built>)
    requires Chained(hs, b.table, b.slots) && |hs| <= SLOTS && h < SLOTS
    requires hs' == hs + [h] && r == AddSample(b, h)
    ensures r.Some? && Chained(hs', r.value.table, r.value.slots)
  {
    RoomLeft(b.table, b.slots, h);
    var e := FirstEmpty(b.table, h, 0).value;
    InsertKeepsChains(hs, b.table, b.slots, h, e, b.table[e := |b.slots|]);
  }

  lemma BuildNext(p: Precache, n: nat)
    requires Filled(p, n) && n > 0
    ensures n <= MAX_SOUNDS && p[n - 1].Some? && Filled(p, n - 1)
    ensures Hashes(p, n) == Hashes(p, n - 1) + [Hash(p[n - 1].value)]
    ensures Build(p, n - 1).Some? ==> Build(p, n) == AddSample(Build(p, n - 1).value, Hash(p[n - 1].value))
  {
    hide AddSample, Hash;
  }

  lemma BuildStarts(p: Precache)
    ensures Build(p, 0).Some? && Hashes(p, 0) == []
    ensures Chained([], Build(p, 0).value.table, Build(p, 0).value.slots)
  {
  }

  /** Building never reaches the no-free-slots abort, and the result is chained. */
  lemma {:induction false} BuildSucceeds(p: Precache, n: nat)
    requires Filled(p, n)
    ensures Build(p, n).Some? && Chained(Hashes(p, n), Build(p, n).value.table, Build(p, n).value.slots)
    decreases n
  {
    hide Chained, AddSample, Hash, Placed, Build, Filled;
    if n == 0 {
      BuildStarts(p);
    } else {
      BuildNext(p, n);
      BuildSucceeds(p, n - 1);
      AddSampleSucceeds(Hashes(p, n - 1), Build(p, n - 1).value, Hash(p[n - 1].value), Hashes(p, n), Build(p, n));
    }
  }

  /** However long the precache list is, at least 512 of the 1023 slots stay empty. */
  lemma BuildLeavesHalfEmpty(p: Precache)
    ensures Build(p, Count(p, 0)).Some?
    ensures |Empty(Build(p, Count(p, 0)).value.table)| >= 512
  {
    var n := Count(p, 0);
    BuildSucceeds(p, n);
    var Built(t, pos) := Build(p, n).value;
    hide Build, Used, Empty, Placed;
    RoomLeft(t, pos, 0);
    UsedAndEmpty(t);
  }

  lemma UsedAndEmpty(t: Table)
    ensures |Used(t)| + |Empty(t)| == SLOTS
  {
    hide Below;
    assert Below(SLOTS) == Used(t) + Empty(t);
  }

  function BuiltTable(p: Precache): Table {
    BuildSucceeds(p, Count(p, 0));
    Build(p, Count(p, 0)).value.table
  }

  /** The linear scan: the least index from i on whose name matches, else 0. */
  function Linear(p: Precache, s: Name, i: nat): (r: nat)
    requires 1 <= i <= MAX_SOUNDS
    ensures r == 0 || (i <= r < MAX_SOUNDS && p[r].Some? && SameName(s, p[r].value))
    ensures r != 0 ==> forall k :: i <= k < r ==> p[k].Some? && !SameName(s, p[k].value)
    ensures r == 0 ==> forall k :: i <= k < Count(p, i) ==> !SameName(s, p[k].value)
    decreases MAX_SOUNDS - i
  {
    if i == MAX_SOUNDS || p[i].None? then 0
    else if SameName(s, p[i].value) then i
    else Linear(p, s, i + 1)
  }

  predicate Indexes(t: Table, p: Precache) {
    forall i :: 0 <= i < SLOTS && t[i] != 0 ==> t[i] < MAX_SOUNDS && p[t[i]].Some?
  }

  /** The probing lookup after d steps from the hash of s. */
  function Probing(t: Table, p: Precache, s: Name, d: nat): nat
    requires Indexes(t, p) && d <= SLOTS
    decreases SLOTS - d
  {
    if d == SLOTS then 0
    else
      var k := t[Probe(Hash(s), d)];
      if k == 0 then 0
      else if SameName(s, p[k].value) then k
      else Probing(t, p, s, d + 1)
  }

  lemma BuiltIndexes(p: Precache)
    ensures Indexes(BuiltTable(p), p)
  {
    var n := Count(p, 0);
    BuildSucceeds(p, n);
    var Built(t, pos) := Build(p, n).value;
    forall i | 0 <= i < SLOTS && t[i] != 0 ensures t[i] < n {
      assert Owned(t, pos, i);
    }
  }

  /** The lookup through the built table. */
  function Lookup(p: Precache, s: Name): nat {
    BuiltIndexes(p);
    Probing(BuiltTable(p), p, s, 0)
  }

  /** The first d probes met only samples of other names. */
  ghost predicate Missed(t: Table, p: Precache, s: Name, d: nat)
    requires Indexes(t, p) && d <= SLOTS
  {
    forall c: nat :: c < d ==> Missing(t, p, s, c)
  }

  /** Probe d meets a sample of another name. */
  ghost predicate Missing(t: Table, p: Precache, s: Name, d: nat)
    requires Indexes(t, p)
  {
    d < SLOTS && t[Probe(Hash(s), d)] != 0 && !SameName(s, p[t[Probe(Hash(s), d)]].value)
  }

  lemma MissedAt(t: Table, p: Precache, s: Name, d: nat, c: nat)
    requires Indexes(t, p) && d <= SLOTS && Missed(t, p, s, d)
    ensures c < d ==> Missing(t, p, s, c)
  {
  }

  /** r is the least of the samples 1..n-1 that has the name s, or 0 if there is none. */
  ghost predicate Least(p: Precache, n: nat, s: Name, r: nat)
    requires Filled(p, n)
  {
    && (r != 0 ==> r < n && SameName(s, p[r].value))
    && forall k :: 1 <= k < n && SameName(s, p[k].value) ==> 1 <= r <= k
  }

  /** A sample of the name searched for is not among the probes that missed. */
  lemma NotMissed(p: Precache, n: nat, t: Table, pos: seq<nat>, s: Name, d: nat, k: nat)
    requires Filled(p, n) && Chained(Hashes(p, n), t, pos) && Indexes(t, p) && d <= SLOTS
    requires Missed(t, p, s, d)
    requires 1 <= k < n && SameName(s, p[k].value)
    ensures d <= Distance(Hash(s), pos[k])
    ensures d < Distance(Hash(s), pos[k]) ==> t[Probe(Hash(s), d)] != 0
    ensures d == Distance(Hash(s), pos[k]) ==> t[Probe(Hash(s), d)] == k
  {
    HashIgnoresCase(s, p[k].value);
    var e := Distance(Hash(s), pos[k]);
    assert Reached(Hashes(p, n), t, pos, k);
    assert Stored(t, pos, k) && Probe(Hash(s), e) == pos[k];
    MissedAt(t, p, s, d, e);
  }

  /** The first hit of a search is the least sample of that name. */
  lemma FirstOfHash(p: Precache, n: nat, t: Table, pos: seq<nat>, s: Name, d: nat, k: nat)
    requires Filled(p, n) && Chained(Hashes(p, n), t, pos) && Indexes(t, p) && d < SLOTS
    requires 1 <= k < n && SameName(s, p[k].value) && d <= Distance(Hash(s), pos[k])
    requires var r := t[Probe(Hash(s), d)]; r != 0 && SameName(s, p[r].value)
    ensures t[Probe(Hash(s), d)] <= k
  {
    var r, hs := t[Probe(Hash(s), d)], Hashes(p, n);
    HashIgnoresCase(s, p[k].value);
    HashIgnoresCase(s, p[r].value);
    assert Owned(t, pos, Probe(Hash(s), d));
    MetInOrder(hs, t, pos, k, r);
  }

  /** Where a search stops, no sample of the name remains that is less than the result. */
  lemma StopIsLeast(p: Precache, n: nat, t: Table, pos: seq<nat>, s: Name, d: nat, k: nat)
    requires Filled(p, n) && Chained(Hashes(p, n), t, pos) && Indexes(t, p) && d <= SLOTS
    requires Missed(t, p, s, d) && !Missing(t, p, s, d)
    requires 1 <= k < n && SameName(s, p[k].value)
    ensures 1 <= Probing(t, p, s, d) <= k
  {
    NotMissed(p, n, t, pos, s, d, k);
    FirstOfHash(p, n, t, pos, s, d, k);
  }

  /** On a chained table, probing from step d returns the least matching sample, provided
      nothing before step d matched. */
  lemma {:induction false} ProbingFindsLeast(p: Precache, n: nat, t: Table, pos: seq<nat>, s: Name, d: nat)
    requires Filled(p, n) && Chained(Hashes(p, n), t, pos) && Indexes(t, p) && d <= SLOTS
    requires Missed(t, p, s, d)
    ensures Least(p, n, s, Probing(t, p, s, d))
    decreases SLOTS - d
  {
    if Missing(t, p, s, d) {
      ProbingFindsLeast(p, n, t, pos, s, d + 1);
    } else {
      if d < SLOTS { assert Owned(t, pos, Probe(Hash(s), d)); }
      forall k | 1 <= k < n && SameName(s, p[k].value) ensures 1 <= Probing(t, p, s, d) <= k {
        StopIsLeast(p, n, t, pos, s, d, k);
      }
    }
  }

  /** The lookup through the table returns what the linear scan returns for every name exactly
      when the first precache entry is set or the second is not. */
  lemma LookupRefinesLinear(p: Precache)
    ensures (forall s: Name :: Lookup(p, s) == Linear(p, s, 1)) <==> (p[0].Some? || p[1].None?)
  {
    if p[0].None? && p[1].Some? {
      assert Count(p, 0) == 0;
      var s := p[1].value;
      assert Linear(p, s, 1) == 1;
      assert BuiltTable(p) == NoSamples();
      assert BuiltTable(p)[Probe(Hash(s), 0)] == 0;
      assert Lookup(p, s) == 0;
    } else {
      forall s: Name ensures Lookup(p, s) == Linear(p, s, 1) {
        LookupAgrees(p, s);
      }
    }
  }

  /** The lookup finds the least sample after the first that has the name. */
  lemma LookupFindsLeast(p: Precache, s: Name)
    ensures Least(p, Count(p, 0), s, Lookup(p, s))
  {
    var n := Count(p, 0);
    BuildSucceeds(p, n);
    BuiltIndexes(p);
    ProbingFindsLeast(p, n, Build(p, n).value.table, Build(p, n).value.slots, s, 0);
  }

  lemma LookupAgrees(p: Precache, s: Name)
    requires p[0].Some? || p[1].None?
    ensures Lookup(p, s) == Linear(p, s, 1)
  {
    LookupFindsLeast(p, s);
    assert p[0].Some? ==> Count(p, 0) == Count(p, 1);
    assert var l := Linear(p, s, 1); l != 0 ==> l != Count(p, 0);
  }

  // ----- precaching

  /** What the precache call demands of a name: it starts with a printable character that is
      not '!'. */
  predicate Precachable(s: Name) {
    s != [] && 0x20 <= s[0] <= 0x7E && s[0] != 0x21
  }

  /** Where the scan for a free or matching entry stops: the first NULL or equal entry. */
  function StopAt(p: Precache, s: Name, i: nat): (k: nat)
    requires i <= MAX_SOUNDS
    ensures i <= k <= MAX_SOUNDS
    ensures forall j :: i <= j < k ==> p[j].Some? && !SameName(p[j].value, s)
    ensures k < MAX_SOUNDS ==> p[k].None? || SameName(p[k].value, s)
    decreases MAX_SOUNDS - i
  {
    if i == MAX_SOUNDS || p[i].None? || SameName(p[i].value, s) then i else StopAt(p, s, i + 1)
  }

  /** The least index from i on of a non-NULL matching entry, passing over NULL entries. */
  function FindSet(p: Precache, s: Name, i: nat): (k: nat)
    requires i <= MAX_SOUNDS
    ensures i <= k <= MAX_SOUNDS
    ensures forall j :: i <= j < k ==> p[j].None? || !SameName(p[j].value, s)
    ensures k < MAX_SOUNDS ==> p[k].Some? && SameName(p[k].value, s)
    decreases MAX_SOUNDS - i
  {
    if i == MAX_SOUNDS || (p[i].Some? && SameName(p[i].value, s)) then i else FindSet(p, s, i + 1)
  }

  lemma {:induction false} LinearIsLeast(p: Precache, s: Name, i: nat, k: nat)
    requires 1 <= i <= k < MAX_SOUNDS && p[k].Some? && SameName(s, p[k].value)
    requires forall j :: i <= j < k ==> p[j].Some? && !SameName(p[j].value, s)
    ensures Linear(p, s, i) == k
    decreases k - i
  {
    if i < k { LinearIsLeast(p, s, i + 1, k); }
  }

  /** Writing a name over the entry where its scan stopped moves no other name, and gives the name
      that index unless it is 0, which says that a sound is unknown.  It is 0 exactly if entry 0 is
      NULL or the name itself. */
  lemma PrecachedIsFound(p: Precache, s: Name, k: nat)
    requires k == StopAt(p, s, 0) < MAX_SOUNDS
    ensures var p' := if p[k].None? then p[k := Some(s)] else p;
      && (k != 0 ==> Linear(p', s, 1) == k)
      && forall n: Name :: Linear(p, n, 1) != 0 ==> Linear(p', n, 1) == Linear(p, n, 1)
    ensures k == 0 <==> p[0].None? || SameName(p[0].value, s)
  {
    var p' := if p[k].None? then p[k := Some(s)] else p;
    if k != 0 { LinearIsLeast(p', s, 1, k); }
    forall n: Name | Linear(p, n, 1) != 0 ensures Linear(p', n, 1) == Linear(p, n, 1) {
      LinearIsLeast(p', n, 1, Linear(p, n, 1));
    }
  }

  lemma EmptyIsNoName(s: Name)
    requires s != []
    ensures !SameName([], s)
  {
    assert |Fold(s)| != |Fold([])|;
  }

  // ----- the server's state and the loops over it

  class SoundServer {
    const table: array<nat>
    const precache: array<Option<Name>>
    var built: bool     // whether the table reflects the precache list
    var loading: bool   // whether the server is still precaching

    ghost predicate Valid()
      reads this, table, precache
    {
      && table.Length == SLOTS + 1
      && precache.Length == MAX_SOUNDS
      && (built ==> table[..SLOTS] == BuiltTable(precache[..]))
    }

    /** The server after SV_SpawnServer: entry 0 is the empty string. */
    constructor ()
      ensures Valid() && !built && loading
      ensures precache[0] == Some([]) && forall i :: 1 <= i < MAX_SOUNDS ==> precache[i].None?
      ensures fresh(table) && fresh(precache)
    {
      table := new nat[SLOTS + 1](_ => 0);
      precache := new Option<Name>[MAX_SOUNDS](i => if i == 0 then Some([]) else None);
      built, loading := false, true;
    }

    method HashString(sample: Name) returns (h: nat)
      ensures h == Hash(sample)
    {
      var hash := 0;
      var i := 0;
      while i < |sample|
        invariant 0 <= i <= |sample|
        invariant hash == Accumulate(Fold(sample)[..i])
      {
        hash := (hash + Spread(ToLower(sample[i]))) % 0x1_0000_0000;
        assert Fold(sample)[..i + 1][..i] == Fold(sample)[..i];
        i := i + 1;
      }
      assert Fold(sample)[..i] == Fold(sample);
      h := hash % SLOTS;
    }

    /** Returns false where the original stops with "No free slots in lookup table". */
    method AddSampleToHashedLookupTable(sample: Name, num: nat) returns (ok: bool)
      requires table.Length == SLOTS + 1
      modifies table
      ensures ok <==> exists j :: 0 <= j < SLOTS && old(table[j]) == 0
      ensures ok ==> FirstEmpty(old(table[..SLOTS]), Hash(sample), 0).Some?
      ensures ok ==>
        table[..SLOTS] == old(table[..SLOTS])[FirstEmpty(old(table[..SLOTS]), Hash(sample), 0).value := num]
      ensures !ok ==> table[..SLOTS] == old(table[..SLOTS])
    {
      var h := HashString(sample);
      ghost var t: Table := table[..SLOTS];
      ghost var d := 0;
      var i := h;
      while table[i] != 0
        invariant 0 <= d < SLOTS && i == Probe(h, d)
        invariant FirstEmpty(t, h, 0) == FirstEmpty(t, h, d)
        decreases SLOTS - d
      {
        i := i + 1;
        if i > 0x3FE { i := 0; }
        d := d + 1;
        if i == h {
          assert FirstEmpty(t, h, d).None?;
          FirstEmptyIsFirst(t, h, 0);
          forall j | 0 <= j < SLOTS ensures t[j] != 0 {
            assert t[Probe(h, Distance(h, j))] != 0;
          }
          return false;
        }
      }
      assert FirstEmpty(t, h, d) == Some(i);
      table[i] := num;
      return true;
    }

    method BuildHashedSoundLookupTable() returns (ok: bool)
      requires table.Length == SLOTS + 1 && precache.Length == MAX_SOUNDS
      modifies table, this`built
      ensures ok && built && Valid()
    {
      ghost var p: Precache := precache[..];
      ghost var n := Count(p, 0);
      forall i | 0 <= i < SLOTS {
        table[i] := 0;
      }
      var i := 0;
      while i < 0x200
        invariant 0 <= i <= n && precache[..] == p
        invariant Build(p, i).Some? && |Build(p, i).value.slots| == i && table[..SLOTS] == Build(p, i).value.table
      {
        if precache[i] == None { break; }
        BuildSucceeds(p, i + 1);
        ok := AddSampleToHashedLookupTable(precache[i].value, i);
        i := i + 1;
      }
      assert i == n;
      built := true;
      ok := true;
    }

    /** The index of a sound.  Once the first precache entry is set, the result is that of the
        linear scan, whichever of the two branches runs. */
    method LookupSoundIndex(sample: Name) returns (r: nat)
      requires Valid()
      modifies table, this`built
      ensures Valid()
      ensures r == if loading && !old(built) then Linear(precache[..], sample, 1) else Lookup(precache[..], sample)
      ensures precache[0].Some? ==> r == Linear(precache[..], sample, 1)
      ensures built <==> old(built) || !loading
    {
      ghost var p: Precache := precache[..];
      if p[0].Some? { LookupAgrees(p, sample); }
      var h := HashString(sample);
      if !built {
        if loading {
          r := LinearScan(sample);
          return;
        }
        var ok := BuildHashedSoundLookupTable();
      }
      r := ProbeTable(sample, h);
    }

    method LinearScan(sample: Name) returns (r: nat)
      requires precache.Length == MAX_SOUNDS
      ensures r == Linear(precache[..], sample, 1)
    {
      var i := 1;
      while i < 0x200
        invariant 1 <= i <= MAX_SOUNDS
        invariant Linear(precache[..], sample, 1) == Linear(precache[..], sample, i)
      {
        if precache[i] == None { break; }
        if SameName(sample, precache[i].value) { return i; }
        i := i + 1;
      }
      return 0;
    }

    method ProbeTable(sample: Name, h: nat) returns (r: nat)
      requires Valid() && built && h == Hash(sample)
      ensures r == Lookup(precache[..], sample)
    {
      ghost var p: Precache, t: Table, d := precache[..], table[..SLOTS], 0;
      BuiltIndexes(p);
      var i := h;
      while table[i] != 0
        invariant 0 <= d < SLOTS && i == Probe(h, d)
        invariant Lookup(p, sample) == Probing(t, p, sample, d)
        decreases SLOTS - d
      {
        assert t[i] == table[i];
        if SameName(sample, precache[table[i]].value) { return table[i]; }
        i := i + 1;
        if i > 0x3FE { i := 0; }
        d := d + 1;
        if i == h { break; }
      }
      return 0;
    }

    /** Registers a sound while the server is loading and finds it afterwards; None stands for
        the fatal errors.  The result is the index every later lookup of the name returns, and
        no name registered before is moved. */
    method PrecacheSound(s: Name) returns (r: Option<nat>)
      requires Valid()
      modifies precache, this`built
      ensures Valid() && (old(precache[0]) == Some([]) ==> precache[0] == Some([]))
      ensures loading && Precachable(s) ==> (r.Some? <==> StopAt(old(precache[..]), s, 0) < MAX_SOUNDS)
      ensures loading && r.Some? ==> (r.value == 0 <==> old(precache[0]).None? || SameName(old(precache[0]).value, s))
      ensures loading && r.Some? && r.value != 0 ==> Linear(precache[..], s, 1) == r.value
      ensures loading && r.Some? && old(precache[0]) == Some([]) ==> r.value != 0
      ensures forall n: Name :: Linear(old(precache[..]), n, 1) != 0 ==>
                Linear(precache[..], n, 1) == Linear(old(precache[..]), n, 1)
      ensures !loading && Precachable(s) ==>
        r == (var k := FindSet(precache[..], s, 0); if k < MAX_SOUNDS then Some(k) else None)
      ensures !loading || r.None? ==> precache[..] == old(precache[..])
      ensures built <==> old(built) && !(loading && Precachable(s))
      ensures !Precachable(s) ==> r.None?
    {
      if s == [] || !(0x20 <= s[0] <= 0x7E) { return None; }
      if s[0] == 0x21 { return None; }
      hide Linear, StopAt, FindSet, SameName, BuiltTable, Precachable;
      EmptyIsNoName(s);
      if loading {
        r := PrecacheLoading(s);
      } else {
        r := FindPrecached(s);
      }
    }

    /** While loading: the name goes into the first entry that is NULL, if none before is equal. */
    method PrecacheLoading(s: Name) returns (r: Option<nat>)
      requires Valid()
      modifies precache, this`built
      ensures Valid() && !built
      ensures var (p, k) := (old(precache[..]), StopAt(old(precache[..]), s, 0));
        if k == MAX_SOUNDS then r == None && precache[..] == p
        else r == Some(k) && precache[..] == if p[k].None? then p[k := Some(s)] else p
      ensures var k := StopAt(old(precache[..]), s, 0); k < MAX_SOUNDS ==>
        && (k != 0 ==> Linear(precache[..], s, 1) == k)
        && (k == 0 <==> old(precache[0]).None? || SameName(old(precache[0]).value, s))
      ensures forall n: Name :: Linear(old(precache[..]), n, 1) != 0 ==>
                Linear(precache[..], n, 1) == Linear(old(precache[..]), n, 1)
    {
      hide Linear, SameName;
      ghost var p: Precache := precache[..];
      built := false;
      if StopAt(p, s, 0) < MAX_SOUNDS { PrecachedIsFound(p, s, StopAt(p, s, 0)); }
      var i := 0;
      while i < 0x200
        invariant 0 <= i <= MAX_SOUNDS && precache[..] == p
        invariant StopAt(p, s, 0) == StopAt(p, s, i)
      {
        if precache[i] == None {
          precache[i] := Some(s);
          assert precache[..] == p[i := Some(s)];
          return Some(i);
        } else if SameName(precache[i].value, s) {
          return Some(i);
        }
        i := i + 1;
      }
      return None;
    }

    /** Afterwards: only a name that is there is found. */
    method FindPrecached(s: Name) returns (r: Option<nat>)
      requires precache.Length == MAX_SOUNDS
      ensures r == (var k := FindSet(precache[..], s, 0); if k < MAX_SOUNDS then Some(k) else None)
    {
      ghost var p: Precache := precache[..];
      var i := 0;
      while i < 0x200
        invariant 0 <= i <= MAX_SOUNDS
        invariant FindSet(p, s, 0) == FindSet(p, s, i)
      {
        if precache[i] != None && SameName(precache[i].value, s) { return Some(i); }
        i := i + 1;
      }
      return None;
    }
  }
}
