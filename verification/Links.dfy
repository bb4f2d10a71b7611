/** The links of a circular list kept by address: each block's next and previous block, with the
    head of the list as one more node.  A block has links exactly if it is on the list. */
module Links {
  import opened Basics

  datatype Node = Head | At(addr: nat)

  /** The node at place i of a list; the head stands before and behind all. */
  function NodeAt(list: seq<nat>, i: int): Node {
    if 0 <= i < |list| then At(list[i]) else Head
  }

  ghost predicate NextAt(next: map<Node, Node>, list: seq<nat>, i: int) {
    NodeAt(list, i) in next && next[NodeAt(list, i)] == NodeAt(list, i + 1)
  }

  ghost predicate PrevAt(prev: map<Node, Node>, list: seq<nat>, i: int) {
    NodeAt(list, i) in prev && prev[NodeAt(list, i)] == NodeAt(list, i - 1)
  }

  ghost predicate Differ(list: seq<nat>, i: nat, j: nat)
    requires i < |list| && j < |list|
  {
    list[i] != list[j]
  }

  ghost predicate Once(list: seq<nat>) {
    forall i, j :: 0 <= i < j < |list| ==> Differ(list, i, j)
  }

  /** Exactly the nodes of the list have links. */
  ghost predicate Covers(links: map<Node, Node>, list: seq<nat>) {
    forall a: nat :: At(a) in links <==> a in list
  }

  /** The links, both ways, are those of the list. */
  ghost predicate Shows(next: map<Node, Node>, prev: map<Node, Node>, list: seq<nat>) {
    && (forall i :: -1 <= i < |list| ==> NextAt(next, list, i))
    && (forall i :: 0 <= i <= |list| ==> PrevAt(prev, list, i))
    && Covers(next, list) && Covers(prev, list) && Once(list)
  }

  lemma ShowsNone()
    ensures Shows(map[Head := Head], map[Head := Head], [])
  {
  }

  /** What the two ends of the list are. */
  lemma EndsAre(next: map<Node, Node>, prev: map<Node, Node>, list: seq<nat>)
    requires Shows(next, prev, list)
    ensures Head in next && next[Head] == NodeAt(list, 0)
    ensures Head in prev && prev[Head] == NodeAt(list, |list| - 1)
    ensures prev[Head] == Head <==> list == []
  {
    assert NextAt(next, list, -1) && PrevAt(prev, list, |list|);
  }

  /** A node linked in behind the head is first. */
  lemma LinkedFirst(next: map<Node, Node>, prev: map<Node, Node>, list: seq<nat>, a: nat)
    requires Shows(next, prev, list) && a !in list
    ensures Head in next
    ensures Shows(next[At(a) := next[Head]][Head := At(a)], prev[next[Head] := At(a)][At(a) := Head], [a] + list)
  {
    EndsAre(next, prev, list);
    var (n, p, l) := (next[At(a) := next[Head]][Head := At(a)], prev[next[Head] := At(a)][At(a) := Head], [a] + list);
    forall i | 1 <= i < |l| ensures l[i] == list[i - 1] && NodeAt(l, i) == NodeAt(list, i - 1) != At(a) {
    }
    forall i | -1 <= i < |l| ensures NextAt(n, l, i) {
      assert i >= 1 ==> NextAt(next, list, i - 1);
    }
    forall i | 0 <= i <= |l| ensures PrevAt(p, l, i) {
      if i > 1 {
        assert PrevAt(prev, list, i - 1);
        OnlyFirst(list, i - 1);
      }
    }
    forall i, j | 0 <= i < j < |l| ensures Differ(l, i, j) {
      assert i > 0 ==> Differ(list, i - 1, j - 1);
    }
  }

  /** No later node, nor the head behind the last, is the first one. */
  lemma OnlyFirst(list: seq<nat>, i: nat)
    requires Once(list) && 0 < i <= |list|
    ensures NodeAt(list, i) != NodeAt(list, 0)
  {
    assert i < |list| ==> Differ(list, 0, i);
  }

  /** A node bypassed in both directions is off the list. */
  lemma LinkedOut(next: map<Node, Node>, prev: map<Node, Node>, list: seq<nat>, k: nat)
    requires Shows(next, prev, list) && k < |list|
    ensures At(list[k]) in next && At(list[k]) in prev
    ensures var (a, n, p) := (At(list[k]), next[At(list[k])], prev[At(list[k])]);
      Shows(next[p := n] - {a}, prev[n := p] - {a}, Without(list, k))
  {
    assert NextAt(next, list, k) && PrevAt(prev, list, k);
    var (a, n, p) := (At(list[k]), next[At(list[k])], prev[At(list[k])]);
    var (l, next', prev') := (Without(list, k), next[p := n] - {a}, prev[n := p] - {a});
    forall i | -1 <= i < |l| ensures NextAt(next', l, i) {
      var j := if i < k then i else i + 1;
      assert NextAt(next, list, j);
      Apart(list, j, k);
      if i != k - 1 { Apart(list, j, k - 1); }
    }
    forall i | 0 <= i <= |l| ensures PrevAt(prev', l, i) {
      var j := if i < k then i else i + 1;
      assert PrevAt(prev, list, j);
      Apart(list, j, k);
      if i != k { Apart(list, j, k + 1); }
    }
    forall i, j | 0 <= i < j < |l| ensures Differ(l, i, j) {
      assert Differ(list, if i < k then i else i + 1, if j < k then j else j + 1);
    }
    WithoutCovers(list, k, l);
  }

  /** Different places hold different nodes, but the head is at both ends. */
  lemma Apart(list: seq<nat>, i: int, j: int)
    requires Once(list) && i != j && -1 <= i <= |list| && -1 <= j <= |list|
    ensures NodeAt(list, i) != NodeAt(list, j) || (NodeAt(list, i) == Head && {i, j} == {-1, |list|})
  {
    if 0 <= i < j < |list| { assert Differ(list, i, j); }
    if 0 <= j < i < |list| { assert Differ(list, j, i); }
  }

  lemma WithoutCovers(list: seq<nat>, k: nat, l: seq<nat>)
    requires Once(list) && k < |list| && l == Without(list, k)
    ensures forall a: nat :: a in l <==> a in list && a != list[k]
  {
    forall a: nat ensures a in l <==> a in list && a != list[k] {
      if a in l {
        var i :| 0 <= i < |l| && l[i] == a;
        assert i < k ==> Differ(list, i, k);
        assert i >= k ==> Differ(list, k, i + 1);
      }
      if a in list && a != list[k] {
        var i :| 0 <= i < |list| && list[i] == a;
        assert l[if i < k then i else i - 1] == a;
      }
    }
  }
}
