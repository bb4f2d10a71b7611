/** Paginated server listings of the master server (SrvrNtwk.cc), on the hash-sorted sequence of
    listed servers.

    A client asks for the servers from hash 0, receives as many as fit one packet together with
    a hash to resume from, and asks again until the resume hash is 0.  The model answers which
    servers such a client is told about. */
module Paging {
  import opened Basics

  type Word = x: nat | x < 0x1_0000_0000
  type Short = x: nat | x < 0x1_0000

  /** A listed server as one request sees it; matches says whether the request's filter lets it
      pass. */
  datatype Entry = Entry(hash: nat, matches: bool, address: Word, port: Short)

  ghost predicate Sorted(l: seq<Entry>) {
    forall i, j :: 0 <= i < j < |l| ==> l[i].hash <= l[j].hash
  }

  // ----- one page

  /** The walk of FindNodeofEqualorLesserHash from position i: it stops at the first entry of
      hash at least h, or at the last entry. */
  function WalkTo(l: seq<Entry>, h: nat, i: nat): (k: nat)
    requires i < |l|
    ensures i <= k < |l|
    decreases |l| - i
  {
    if l[i].hash < h && i + 1 < |l| then WalkTo(l, h, i + 1) else i
  }

  /** Where a page for hash h starts: one step back if the walk went past h. */
  function Start(l: seq<Entry>, h: nat): (s: nat)
    requires l != []
    ensures s < |l|
  {
    var k := WalkTo(l, h, 0);
    if l[k].hash > h && k > 0 then k - 1 else k
  }

  /** Where a page stops that has room for so many more servers: at a matching server it has no
      room for, or at the end. */
  function Stop(l: seq<Entry>, i: nat, room: nat): (e: nat)
    requires i <= |l|
    ensures i <= e <= |l|
    decreases |l| - i
  {
    if i == |l| then i
    else if !l[i].matches then Stop(l, i + 1, room)
    else if room == 0 then i
    else Stop(l, i + 1, room - 1)
  }

  function PageStop(l: seq<Entry>, h: nat, cap: nat): (e: nat)
    ensures e <= |l|
  {
    if l == [] then 0 else Stop(l, Start(l, h), cap)
  }

  /** The hash the reply asks the client to resume from; 0 says that the listing is complete. */
  function Resume(l: seq<Entry>, h: nat, cap: nat): nat {
    var e := PageStop(l, h, cap);
    if e == |l| then 0
    else if h == l[e].hash then l[e].hash + 1
    else l[e].hash
  }

  /** The matching entries from position lo up to hi. */
  function Matching(l: seq<Entry>, lo: nat, hi: nat): seq<Entry>
    requires lo <= hi <= |l|
    decreases hi
  {
    if lo == hi then []
    else Matching(l, lo, hi - 1) + (if l[hi - 1].matches then [l[hi - 1]] else [])
  }

  /** The servers of one page. */
  function Page(l: seq<Entry>, h: nat, cap: nat): seq<Entry> {
    if l == [] then [] else Matching(l, Start(l, h), PageStop(l, h, cap))
  }

  // ----- progress and bounds

  lemma {:induction false} WalkToIs(l: seq<Entry>, h: nat, i: nat)
    requires Sorted(l) && i < |l|
    ensures var k := WalkTo(l, h, i);
      && (forall j :: i <= j < k ==> l[j].hash < h)
      && (l[k].hash < h ==> k == |l| - 1)
    decreases |l| - i
  {
    if l[i].hash < h && i + 1 < |l| {
      WalkToIs(l, h, i + 1);
    }
  }

  /** A page starts at the first server of hash h; or, where there is none, at the last server of
      a smaller hash; or, where there is none of those either, at the head of the list. */
  lemma StartIs(l: seq<Entry>, h: nat)
    requires Sorted(l) && l != []
    ensures var s := Start(l, h);
      && (forall j :: 0 <= j < s ==> l[j].hash < h)
      && (l[s].hash > h ==> s == 0)
      && (l[s].hash < h ==> forall j :: s < j < |l| ==> l[j].hash > h)
  {
    WalkToIs(l, h, 0);
  }

  lemma {:induction false} StopIs(l: seq<Entry>, i: nat, room: nat)
    requires i <= |l|
    ensures var e := Stop(l, i, room);
      && |Matching(l, i, e)| <= room
      && (e < |l| ==> l[e].matches && |Matching(l, i, e)| == room)
    decreases |l| - i
  {
    if i < |l| && !(l[i].matches && room == 0) {
      var e := Stop(l, i, room);
      StopIs(l, i + 1, if l[i].matches then room - 1 else room);
      MatchingSplits(l, i, i + 1, e);
    }
  }

  lemma {:induction false} MatchingSplits(l: seq<Entry>, a: nat, b: nat, c: nat)
    requires a <= b <= c <= |l|
    ensures Matching(l, a, c) == Matching(l, a, b) + Matching(l, b, c)
    decreases c
  {
    if b < c { MatchingSplits(l, a, b, c - 1); }
  }

  /** Every page that leaves the listing unfinished resumes at a hash above the one asked for, so
      paging ends; and the page is then full. */
  lemma PageProgress(l: seq<Entry>, h: nat, cap: nat)
    requires Sorted(l) && cap >= 1
    ensures |Page(l, h, cap)| <= cap
    ensures Resume(l, h, cap) != 0 ==> |Page(l, h, cap)| == cap && h < Resume(l, h, cap) <= l[|l| - 1].hash + 1
  {
    if l != [] {
      StartIs(l, h);
      StopIs(l, Start(l, h), cap);
    }
  }

  /** A buffer of six bytes has room for no server, and then a listing can resume below the hash
      asked for and never end. */
  lemma NoRoomNoProgress()
    ensures var l := [Entry(3, true, 0, 0), Entry(9, true, 0, 0)];
      Sorted(l) && Page(l, 5, Capacity(6)) == [] && 0 < Resume(l, 5, Capacity(6)) < 5
  {
    var l := [Entry(3, true, 0, 0), Entry(9, true, 0, 0)];
    assert WalkTo(l, 5, 0) == WalkTo(l, 5, 1) == 1;
    assert Start(l, 5) == 0;
    assert Stop(l, 0, 0) == 0;
  }

  /** How many servers are written before the running length reaches size - 6. */
  function Capacity(size: nat): nat
    requires size >= 6
  {
    (size - 1) / 6
  }

  /** An unfinished page leaves no room for another server. */
  lemma UnfinishedIsFull(l: seq<Entry>, h: nat, size: nat)
    requires Sorted(l) && size >= 6
    ensures Resume(l, h, Capacity(size)) != 0 ==> size - 6 <= 6 * |Page(l, h, Capacity(size))| < size
  {
    if l != [] {
      StartIs(l, h);
      StopIs(l, Start(l, h), Capacity(size));
    }
  }

  // ----- the whole listing

  /** The positions a client is told about that asks from hash h on. */
  ghost function Reported(l: seq<Entry>, h: nat, cap: nat): set<nat>
    requires Sorted(l) && cap >= 1
    decreases if l == [] then 0 else l[|l| - 1].hash + 2 - h
  {
    PageProgress(l, h, cap);
    var next := Resume(l, h, cap);
    OnPage(l, h, cap) + (if next == 0 then {} else Reported(l, next, cap))
  }

  ghost function OnPage(l: seq<Entry>, h: nat, cap: nat): set<nat> {
    if l == [] then {} else set i | Start(l, h) <= i < PageStop(l, h, cap) && l[i].matches
  }

  /** How many matching servers of the same hash come before server i. */
  ghost function Rank(l: seq<Entry>, i: nat): nat
    requires i < |l|
  {
    RankFrom(l, l[i].hash, i)
  }

  ghost function RankFrom(l: seq<Entry>, h: nat, i: nat): nat
    requires i <= |l|
  {
    if i == 0 then 0
    else RankFrom(l, h, i - 1) + (if l[i - 1].hash == h && l[i - 1].matches then 1 else 0)
  }

  /** The entries from s on include those of hash h before i; they are no others if all have
      hash h. */
  lemma {:induction false} RankBound(l: seq<Entry>, h: nat, s: nat, i: nat)
    requires s <= i <= |l| && forall j :: 0 <= j < s ==> l[j].hash != h
    ensures RankFrom(l, h, i) <= |Matching(l, s, i)|
    ensures (forall j :: s <= j < i ==> l[j].hash == h) ==> RankFrom(l, h, i) == |Matching(l, s, i)|
    decreases i
  {
    if i > s {
      RankBound(l, h, s, i - 1);
    } else if i > 0 {
      RankBound(l, h, i - 1, i - 1);
    }
  }

  /** What a listing from hash 0 reports: a server within its hash class's first page, or the last
      server of its class when no server has the next hash. */
  ghost predicate Covered(l: seq<Entry>, cap: nat, i: nat)
    requires i < |l|
  {
    Rank(l, i) < cap || i + 1 == |l| || l[i + 1].hash > l[i].hash + 1
  }

  lemma PageRank(l: seq<Entry>, h: nat, cap: nat, i: nat)
    requires Sorted(l) && l != [] && cap >= 1
    requires Start(l, h) <= i < |l| && l[i].hash >= h && l[i].matches
    ensures i < PageStop(l, h, cap) ==> Rank(l, i) < cap
    ensures l[i].hash == h && i >= PageStop(l, h, cap) ==> Rank(l, i) >= cap
  {
    var s, e := Start(l, h), PageStop(l, h, cap);
    StartIs(l, h);
    StopIs(l, s, cap);
    if i < e {
      RankBound(l, l[i].hash, s, i);
      MatchingSplits(l, s, i, i + 1);
      MatchingSplits(l, s, i + 1, e);
    } else if l[i].hash == h {
      RankBound(l, h, s, i);
      MatchingSplits(l, s, e, i);
    }
  }

  /** The pages from hash h on report, of the servers of hash at least h, exactly those covered;
      and of the others only the one the first page starts at. */
  lemma {:induction false} ReportedFrom(l: seq<Entry>, h: nat, cap: nat, i: nat)
    requires Sorted(l) && cap >= 1 && i < |l| && l[i].matches
    ensures i in Reported(l, h, cap) <==> if l[i].hash >= h then Covered(l, cap, i) else i == Start(l, h)
    decreases l[|l| - 1].hash + 2 - h
  {
    PageProgress(l, h, cap);
    StartIs(l, h);
    StopIs(l, Start(l, h), cap);
    var s, e, next := Start(l, h), PageStop(l, h, cap), Resume(l, h, cap);
    if l[i].hash >= h { PageRank(l, h, cap, i); }
    if next != 0 {
      StartIs(l, next);
      ReportedFrom(l, next, cap, i);
    }
    if l[i].hash < h {
      assert i == s ==> Matching(l, s, s) == [];
    }
  }

  /** A client that asks from hash 0 and resumes until told to stop learns of exactly the covered
      servers. */
  lemma ListingReports(l: seq<Entry>, cap: nat)
    requires Sorted(l) && cap >= 1
    ensures forall i :: 0 <= i < |l| ==> (i in Reported(l, 0, cap) <==> l[i].matches && Covered(l, cap, i))
  {
    forall i | 0 <= i < |l|
      ensures i in Reported(l, 0, cap) <==> l[i].matches && Covered(l, cap, i)
    {
      if l[i].matches {
        ReportedFrom(l, 0, cap, i);
      } else {
        OnlyMatching(l, 0, cap, i);
      }
    }
  }

  lemma {:induction false} OnlyMatching(l: seq<Entry>, h: nat, cap: nat, i: nat)
    requires Sorted(l) && cap >= 1 && i < |l| && !l[i].matches
    ensures i !in Reported(l, h, cap)
    decreases l[|l| - 1].hash + 2 - h
  {
    PageProgress(l, h, cap);
    if Resume(l, h, cap) != 0 { OnlyMatching(l, Resume(l, h, cap), cap, i); }
  }

  /** In particular nobody is left out when no hash class exceeds one page. */
  lemma SmallClassesAreComplete(l: seq<Entry>, cap: nat)
    requires Sorted(l) && cap >= 1
    requires forall i :: 0 <= i < |l| && l[i].matches ==> Rank(l, i) < cap
    ensures forall i :: 0 <= i < |l| && l[i].matches ==> i in Reported(l, 0, cap)
  {
    ListingReports(l, cap);
  }

  /** A matching server is left out exactly if its class fills a page before it and the next entry
      has its hash or the one after. */
  lemma HiddenIff(l: seq<Entry>, cap: nat, i: nat)
    requires Sorted(l) && cap >= 1 && i < |l| && l[i].matches
    ensures i !in Reported(l, 0, cap) <==> Rank(l, i) >= cap && i + 1 < |l| && l[i + 1].hash <= l[i].hash + 1
  {
    ListingReports(l, cap);
  }

  /** Of the servers of one hash beyond those that fill a page, all but the last are left out of
      every listing. */
  lemma CollisionsHideAServer(l: seq<Entry>, cap: nat, i: nat, k: nat)
    requires Sorted(l) && cap >= 1 && i < k < |l| && l[i].hash == l[k].hash && l[i].matches
    requires Rank(l, i) >= cap
    ensures i !in Reported(l, 0, cap)
  {
    HiddenIff(l, cap, i);
    assert l[i].hash <= l[i + 1].hash;
    assert i + 1 < k ==> l[i + 1].hash <= l[k].hash;
  }

  // ----- the limits of the numbers

  /** With hashes of 31 bits the resume hash has them too, but for one case: where a page for the
      highest hash of all leaves the listing unfinished it is one more. */
  lemma ResumeBits(l: seq<Entry>, h: nat, cap: nat)
    requires Sorted(l) && cap >= 1 && h < 0x8000_0000 && forall i :: 0 <= i < |l| ==> l[i].hash < 0x8000_0000
    ensures Resume(l, h, cap) <= 0x8000_0000
    ensures Resume(l, h, cap) == 0x8000_0000 <==> h == 0x7FFF_FFFF && PageStop(l, h, cap) < |l|
  {
    PageProgress(l, h, cap);
    if l != [] {
      StartIs(l, h);
      StopIs(l, Start(l, h), cap);
    }
  }

  /** How many servers are written where the room is computed without sign. */
  function Capacity32(size: nat): nat {
    ((size - 6) % 0x1_0000_0000 + 5) / 6
  }

  /** The pages of every list fit the buffer exactly if it has at least six bytes; with fewer the
      room wraps around. */
  lemma FitsIff(size: nat)
    requires size < 0x1_0000_0000
    ensures (forall l, h :: Sorted(l) ==> 6 * |Page(l, h, Capacity32(size))| <= size) <==> size >= 6
    ensures size >= 6 ==> Capacity32(size) == Capacity(size)
  {
    if size >= 6 {
      forall l, h | Sorted(l) ensures 6 * |Page(l, h, Capacity32(size))| <= size {
        if l != [] { StopIs(l, Start(l, h), Capacity32(size)); }
      }
    } else {
      var l := [Entry(0, true, 0, 0)];
      assert Start(l, 0) == 0 && Stop(l, 0, Capacity32(size)) == 1;
      assert Page(l, 0, Capacity32(size)) == l;
    }
  }

  // ----- the bytes of a page

  /** Six bytes a server: the address and the port, little-endian. */
  function Encode(e: Entry): (b: seq<Byte>)
    ensures |b| == 6
  {
    [e.address % 0x100, e.address / 0x100 % 0x100, e.address / 0x1_0000 % 0x100, e.address / 0x100_0000,
     e.port % 0x100, e.port / 0x100]
  }

  function EncodePage(p: seq<Entry>): (b: seq<Byte>)
    ensures |b| == 6 * |p|
  {
    if p == [] then [] else EncodePage(p[..|p| - 1]) + Encode(p[|p| - 1])
  }

  function Join(low: nat, high: nat, unit: nat): nat {
    low + unit * high
  }

  /** What a client reads off the bytes of a page. */
  function DecodePage(b: seq<Byte>): seq<(nat, nat)>
    requires |b| % 6 == 0
  {
    if b == [] then []
    else
      var k := |b| - 6;
      DecodePage(b[..k]) +
      [(Join(Join(b[k], b[k + 1], 0x100), Join(b[k + 2], b[k + 3], 0x100), 0x1_0000),
        Join(b[k + 4], b[k + 5], 0x100))]
  }

  /** The client reads off a page exactly the addresses and ports written to it. */
  lemma {:induction false} DecodeEncode(p: seq<Entry>)
    ensures DecodePage(EncodePage(p)) == seq(|p|, i requires 0 <= i < |p| => (p[i].address as nat, p[i].port as nat))
  {
    if p != [] {
      DecodeEncode(p[..|p| - 1]);
      var b := EncodePage(p);
      assert b[..|b| - 6] == EncodePage(p[..|p| - 1]);
      assert b[|b| - 6..] == Encode(p[|p| - 1]);
      LittleEndian(p[|p| - 1]);
    }
  }

  lemma LittleEndian(e: Entry)
    ensures var b := Encode(e);
      && Join(Join(b[0], b[1], 0x100), Join(b[2], b[3], 0x100), 0x1_0000) == e.address
      && Join(b[4], b[5], 0x100) == e.port
  {
    var q := e.address / 0x100;
    assert e.address / 0x1_0000 == q / 0x100 && e.address / 0x100_0000 == q / 0x1_0000;
  }
}
