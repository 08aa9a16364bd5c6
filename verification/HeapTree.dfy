/** The heap-shaped tree over nodes 0..n-1 that NewSimulator builds: parent (i-1)/2, children 2i+1 and 2i+2. */
module HeapTree {

  function Parent(i: nat): (p: nat)
    requires i > 0
    ensures p < i && (i == 2 * p + 1 || i == 2 * p + 2)
  {
    (i - 1) / 2
  }

  function Children(n: nat, i: nat): (cs: seq<nat>)
    ensures |cs| <= 2
    ensures forall c :: c in cs <==> 0 < c < n && Parent(c) == i
    ensures forall j :: 0 <= j < |cs| ==> cs[j] == 2 * i + 1 + j
  {
    if 2 * i + 2 < n then [2 * i + 1, 2 * i + 2] else if 2 * i + 1 < n then [2 * i + 1] else []
  }

  function Depth(i: nat): nat {
    if i == 0 then 0 else Depth(Parent(i)) + 1
  }

  /** The height of the tree: the last node is a deepest one. */
  function MaxDepth(n: nat): nat
    requires n >= 1
  {
    Depth(n - 1)
  }

  function Pow2(k: nat): (p: nat)
    ensures p >= 1
  {
    if k == 0 then 1 else 2 * Pow2(k - 1)
  }

  /** Depth(i) is the integer logarithm of i+1. */
  lemma {:induction false} DepthIsLog(i: nat)
    ensures Pow2(Depth(i)) <= i + 1 < 2 * Pow2(Depth(i))
  {
    if i > 0 {
      DepthIsLog(Parent(i));
    }
  }

  lemma {:induction false} Pow2Monotone(a: nat, b: nat)
    requires a <= b
    ensures Pow2(a) <= Pow2(b)
    ensures a < b ==> 2 * Pow2(a) <= Pow2(b)
  {
    if a < b {
      Pow2Monotone(a, b - 1);
    }
  }

  /** Nodes of depth at most d are exactly an index prefix of the heap order. */
  lemma {:induction false} DepthPrefix(i: nat, d: nat)
    ensures Depth(i) <= d <==> i < 2 * Pow2(d) - 1
    ensures Depth(i) < d <==> i < Pow2(d) - 1
  {
    DepthIsLog(i);
    if Depth(i) <= d {
      Pow2Monotone(Depth(i), d);
    } else {
      Pow2Monotone(d, Depth(i));
    }
  }

  lemma {:induction false} DepthMonotone(i: nat, j: nat)
    requires i <= j
    ensures Depth(i) <= Depth(j)
  {
    DepthPrefix(i, Depth(j));
    DepthPrefix(j, Depth(j));
  }

  /** No node is deeper than MaxDepth, and MaxDepth is the integer logarithm of n. */
  lemma {:induction false} MaxDepthIsHeight(n: nat, i: nat)
    requires i < n
    ensures Depth(i) <= MaxDepth(n)
    ensures Pow2(MaxDepth(n)) <= n < 2 * Pow2(MaxDepth(n))
  {
    DepthMonotone(i, n - 1);
    DepthIsLog(n - 1);
  }

  /** The order in which computeDepth(id, _) visits nodes. */
  function Preorder(n: nat, id: nat): seq<nat>
    decreases n - id
  {
    if id >= n then [] else [id] + Preorder(n, 2 * id + 1) + Preorder(n, 2 * id + 2)
  }

  /** How often computeDepth(id, _) visits node j. */
  function Visits(n: nat, id: nat, j: nat): nat
    decreases n - id
  {
    if id >= n then 0 else (if j == id then 1 else 0) + Visits(n, 2 * id + 1, j) + Visits(n, 2 * id + 2, j)
  }

  lemma CountParts(visited: seq<nat>, id: nat, left: seq<nat>, right: seq<nat>, j: nat)
    requires visited == [id] + left + right
    ensures multiset(visited)[j] == (if j == id then 1 else 0) + multiset(left)[j] + multiset(right)[j]
  {
    assert multiset([id] + left + right) == multiset{id} + multiset(left) + multiset(right);
  }

  lemma WalkParts(n: nat, id: nat, j: nat)
    ensures id >= n ==> Preorder(n, id) == [] && Visits(n, id, j) == 0
    ensures id < n ==>
              && Preorder(n, id) == [id] + Preorder(n, 2 * id + 1) + Preorder(n, 2 * id + 2)
              && Visits(n, id, j) == (if j == id then 1 else 0) + Visits(n, 2 * id + 1, j) + Visits(n, 2 * id + 2, j)
  {
  }

  lemma {:induction false} VisitsIsCount(n: nat, id: nat, j: nat, visited: seq<nat>)
    requires visited == Preorder(n, id)
    ensures multiset(visited)[j] == Visits(n, id, j)
    decreases n - id
  {
    hide Preorder, Visits;
    WalkParts(n, id, j);
    if id < n {
      var left, right := Preorder(n, 2 * id + 1), Preorder(n, 2 * id + 2);
      VisitsIsCount(n, 2 * id + 1, j, left);
      VisitsIsCount(n, 2 * id + 2, j, right);
      CountParts(visited, id, left, right, j);
    }
  }

  predicate InSubtree(id: nat, j: nat) {
    j == id || (j > id && InSubtree(id, Parent(j)))
  }

  lemma {:induction false} SubtreeSplits(id: nat, j: nat)
    ensures InSubtree(id, j) <==> j == id || InSubtree(2 * id + 1, j) || InSubtree(2 * id + 2, j)
    ensures !(InSubtree(2 * id + 1, j) && InSubtree(2 * id + 2, j))
    ensures !InSubtree(2 * id + 1, id) && !InSubtree(2 * id + 2, id)
    ensures InSubtree(id, j) ==> id <= j
  {
    if j > id {
      SubtreeSplits(id, Parent(j));
    }
  }

  lemma {:induction false} VisitsSubtree(n: nat, id: nat, j: nat)
    ensures Visits(n, id, j) == if j < n && InSubtree(id, j) then 1 else 0
    decreases n - id
  {
    SubtreeSplits(id, j);
    if id < n {
      VisitsSubtree(n, 2 * id + 1, j);
      VisitsSubtree(n, 2 * id + 2, j);
    }
  }

  lemma {:induction false} RootReachesAll(j: nat)
    ensures InSubtree(0, j)
  {
    if j > 0 {
      RootReachesAll(Parent(j));
    }
  }

  /** computeDepth(0, 0) visits every node exactly once and nothing else. */
  lemma {:induction false} VisitsOnce(n: nat, j: nat)
    ensures multiset(Preorder(n, 0))[j] == if j < n then 1 else 0
  {
    VisitsIsCount(n, 0, j, Preorder(n, 0));
    VisitsSubtree(n, 0, j);
    RootReachesAll(j);
  }

  /** nodesByDepth after visiting the listed nodes in order. */
  function Grouped(m: map<nat, seq<nat>>, visited: seq<nat>): map<nat, seq<nat>> {
    if visited == [] then m
    else
      var k := |visited| - 1;
      var m' := Grouped(m, visited[..k]);
      var d := Depth(visited[k]);
      m'[d := (if d in m' then m'[d] else []) + [visited[k]]]
  }

  lemma {:induction false} GroupedConcat(m: map<nat, seq<nat>>, a: seq<nat>, b: seq<nat>)
    ensures Grouped(Grouped(m, a), b) == Grouped(m, a + b)
  {
    if b == [] {
      assert a + b == a;
    } else {
      var k := |b| - 1;
      GroupedConcat(m, a, b[..k]);
      assert (a + b)[..|a + b| - 1] == a + b[..k];
    }
  }

  /** Grouping keeps every visit, and files it under its own depth. */
  lemma {:induction false} GroupedCounts(visited: seq<nat>, d: nat, j: nat)
    ensures var m := Grouped(map[], visited);
            (if d in m then multiset(m[d])[j] else 0) == if Depth(j) == d then multiset(visited)[j] else 0
  {
    if visited != [] {
      var k := |visited| - 1;
      GroupedCounts(visited[..k], d, j);
      assert visited == visited[..k] + [visited[k]];
      assert multiset(visited) == multiset(visited[..k]) + multiset{visited[k]};
    }
  }

  lemma {:induction false} GroupedKeys(visited: seq<nat>, d: nat)
    ensures d in Grouped(map[], visited) <==> exists i :: 0 <= i < |visited| && Depth(visited[i]) == d
  {
    if visited != [] {
      var k := |visited| - 1;
      GroupedKeys(visited[..k], d);
      if Depth(visited[k]) != d {
        assert forall i :: 0 <= i < k ==> visited[..k][i] == visited[i];
      }
    }
  }

  predicate VisitsEach(n: nat, visited: seq<nat>) {
    && (forall i :: 0 <= i < |visited| ==> visited[i] < n)
    && (forall j :: 0 <= j < n ==> multiset(visited)[j] == 1)
  }

  lemma {:induction false} PreorderVisitsEach(n: nat)
    ensures VisitsEach(n, Preorder(n, 0))
  {
    var visited := Preorder(n, 0);
    forall i | 0 <= i < |visited| ensures visited[i] < n {
      VisitsOnce(n, visited[i]);
      assert visited[i] in multiset(visited);
    }
    forall j | 0 <= j < n ensures multiset(visited)[j] == 1 {
      VisitsOnce(n, j);
    }
  }

  /** An ancestor of i at depth d. */
  lemma {:induction false} NodeAtDepth(i: nat, d: nat) returns (x: nat)
    requires d <= Depth(i)
    ensures x <= i && Depth(x) == d
  {
    if d == Depth(i) {
      x := i;
    } else {
      x := NodeAtDepth(Parent(i), d);
    }
  }

  /**
   nodesByDepth as computeDepth leaves it: level d lists each node of depth d once and no other, for d up to the
   height.
   */
  lemma {:induction false} LevelsPartition(n: nat, visited: seq<nat>, d: nat, j: nat)
    requires n >= 1 && VisitsEach(n, visited)
    ensures var m := Grouped(map[], visited);
            && (d in m <==> d <= MaxDepth(n))
            && (d in m ==> multiset(m[d])[j] == if j < n && Depth(j) == d then 1 else 0)
  {
    GroupedCounts(visited, d, j);
    GroupedKeys(visited, d);
    assert j in multiset(visited) <==> j in visited;
    if d <= MaxDepth(n) {
      var x := NodeAtDepth(n - 1, d);
      assert x in multiset(visited);
      assert x in visited;
    }
    forall i | 0 <= i < |visited| ensures Depth(visited[i]) <= MaxDepth(n) {
      MaxDepthIsHeight(n, visited[i]);
    }
  }

  // ---------- the order within a level ----------

  /** The visited nodes of depth d, in the order of the visits. */
  function AtLevel(visited: seq<nat>, d: nat): seq<nat> {
    if visited == [] then []
    else
      var k := |visited| - 1;
      AtLevel(visited[..k], d) + if Depth(visited[k]) == d then [visited[k]] else []
  }

  lemma {:induction false} GroupedLevel(visited: seq<nat>, d: nat)
    ensures var m := Grouped(map[], visited);
            (if d in m then m[d] else []) == AtLevel(visited, d)
  {
    if visited != [] {
      GroupedLevel(visited[..|visited| - 1], d);
    }
  }

  lemma {:induction false} AtLevelConcat(a: seq<nat>, b: seq<nat>, d: nat)
    ensures AtLevel(a + b, d) == AtLevel(a, d) + AtLevel(b, d)
  {
    if b == [] {
      assert a + b == a;
    } else {
      var k := |b| - 1;
      AtLevelConcat(a, b[..k], d);
      assert (a + b)[..|a + b| - 1] == a + b[..k];
    }
  }

  /** The nodes lo, lo+1, ..., len of them, as far as they are below n. */
  function Span(n: nat, lo: nat, len: nat): (nodes: seq<nat>)
    ensures |nodes| == if lo + len <= n then len else if lo <= n then n - lo else 0
    ensures forall j :: 0 <= j < |nodes| ==> nodes[j] == lo + j
  {
    seq(if lo + len <= n then len else if lo <= n then n - lo else 0, j => lo + j)
  }

  lemma {:induction false} SpanConcat(n: nat, lo: nat, len: nat)
    ensures Span(n, lo, len) + Span(n, lo + len, len) == Span(n, lo, 2 * len)
  {
  }

  /** One node, then the two subtrees. */
  lemma {:induction false} WalkLevel(n: nat, id: nat, d: nat)
    requires id < n
    ensures AtLevel(Preorder(n, id), d) ==
            (if Depth(id) == d then [id] else []) +
            AtLevel(Preorder(n, 2 * id + 1), d) + AtLevel(Preorder(n, 2 * id + 2), d)
  {
    hide Preorder;
    WalkParts(n, id, id);
    var left, right := Preorder(n, 2 * id + 1), Preorder(n, 2 * id + 2);
    AtLevelConcat([id] + left, right, d);
    AtLevelConcat([id], left, d);
    assert [id][..0] == [];
  }

  lemma {:induction false} NoneAbove(n: nat, id: nat, d: nat)
    requires d < Depth(id)
    ensures AtLevel(Preorder(n, id), d) == []
    decreases n - id
  {
    hide Preorder, AtLevel;
    WalkParts(n, id, id);
    EmptyLevel(d);
    if id < n {
      WalkLevel(n, id, d);
      NoneAbove(n, 2 * id + 1, d);
      NoneAbove(n, 2 * id + 2, d);
    }
  }

  /** Where the nodes k levels below a node begin, t being 2^k. */
  function Leftmost(id: nat, t: nat): (lo: nat)
    requires t >= 1
    ensures lo >= id
  {
    assert (id + 1) * t == id * (t - 1) + id + t && id * (t - 1) >= 0;
    (id + 1) * t - 1
  }

  lemma LeftmostBelow(id: nat, t: nat)
    requires t >= 1
    ensures Leftmost(2 * id + 1, t) == Leftmost(id, 2 * t) && Leftmost(2 * id + 2, t) == Leftmost(id, 2 * t) + t
  {
  }

  /** k levels below a node, the walk comes to the 2^k nodes from (id+1)*2^k - 1 on, from left to right. */
  lemma {:induction false} LevelBelow(n: nat, id: nat, k: nat, t: nat)
    requires t == Pow2(k)
    ensures AtLevel(Preorder(n, id), Depth(id) + k) == Span(n, Leftmost(id, t), t)
    decreases k
  {
    hide Leftmost, Preorder, AtLevel;
    if id >= n {
      WalkParts(n, id, id);
      EmptyLevel(Depth(id) + k);
    } else {
      WalkLevel(n, id, Depth(id) + k);
      if k == 0 {
        NoneAbove(n, 2 * id + 1, Depth(id));
        NoneAbove(n, 2 * id + 2, Depth(id));
        LeftmostAtOnce(id);
      } else {
        var less := Pow2(k - 1);
        LevelBelow(n, 2 * id + 1, k - 1, less);
        LevelBelow(n, 2 * id + 2, k - 1, less);
        LeftmostBelow(id, less);
        SpanConcat(n, Leftmost(id, t), less);
      }
    }
  }

  lemma LeftmostAtOnce(id: nat)
    ensures Leftmost(id, 1) == id
  {
  }

  lemma {:induction false} EmptyLevel(d: nat)
    ensures AtLevel([], d) == []
  {
  }

  /** nodesByDepth lists each level from left to right: level d holds the nodes from 2^d - 1 on. */
  lemma {:induction false} LevelsInOrder(n: nat, d: nat)
    requires n >= 1 && d <= MaxDepth(n)
    ensures var m := Grouped(map[], Preorder(n, 0));
            && d in m && |m[d]| == (if d < MaxDepth(n) then Pow2(d) else n + 1 - Pow2(d))
            && forall j :: 0 <= j < |m[d]| ==> m[d][j] == Pow2(d) - 1 + j
  {
    hide Preorder, AtLevel, Grouped, MaxDepth;
    PreorderVisitsEach(n);
    LevelsPartition(n, Preorder(n, 0), d, 0);
    GroupedLevel(Preorder(n, 0), d);
    LevelBelow(n, 0, d, Pow2(d));
    MaxDepthIsHeight(n, 0);
    Pow2Monotone(d, MaxDepth(n));
  }

  // ---------- what computeDepth keeps ----------

  /** Adding node i to a heap of i nodes appends it to its parent's children. */
  lemma ChildrenGrow(i: nat, k: nat)
    ensures Children(i + 1, k) == if i > 0 && k == Parent(i) then Children(i, k) + [i] else Children(i, k)
  {
  }

  /** The visited nodes have their depth recorded, a level-table entry each, and a height that covers them. */
  predicate Recorded(
    n: nat, depths: seq<nat>, table: map<nat, seq<nat>>, height: nat, before: map<nat, seq<nat>>, visited: seq<nat>)
  {
    && |depths| == n
    && table == Grouped(before, visited)
    && forall k :: 0 <= k < |visited| ==> visited[k] < n && depths[visited[k]] == Depth(visited[k]) <= height
  }

  /** Visiting one node. */
  lemma {:induction false} RecordedOne(
    n: nat, depths: seq<nat>, table: map<nat, seq<nat>>, height: nat, before: map<nat, seq<nat>>, id: nat)
    requires |depths| == n && id < n && depths[id] == Depth(id) <= height
    requires table == before[Depth(id) := (if Depth(id) in before then before[Depth(id)] else []) + [id]]
    ensures Recorded(n, depths, table, height, before, [id])
  {
    assert [id][..0] == [];
  }

  /** Visiting more nodes after those already visited. */
  lemma RecordedConcat(
    n: nat, depths: seq<nat>, table: map<nat, seq<nat>>, height: nat, before: map<nat, seq<nat>>, visited: seq<nat>,
    depths': seq<nat>, table': map<nat, seq<nat>>, height': nat, below: seq<nat>)
    requires Recorded(n, depths, table, height, before, visited)
    requires Recorded(n, depths', table', height', table, below)
    requires height <= height' && forall i :: 0 <= i < n ==> depths'[i] == depths[i] || depths'[i] == Depth(i)
    ensures Recorded(n, depths', table', height', before, visited + below)
  {
    GroupedConcat(before, visited, below);
    var all := visited + below;
    forall k | 0 <= k < |all| ensures all[k] < n && depths'[all[k]] == Depth(all[k]) <= height' {
      if k < |visited| {
        assert all[k] == visited[k];
      } else {
        assert all[k] == below[k - |visited|];
      }
    }
  }

  /** Starting at the root, every node is recorded, and the height is the depth of the last node. */
  lemma {:induction false} RecordedAll(
    n: nat, depths: seq<nat>, table: map<nat, seq<nat>>, height: nat, visited: seq<nat>, deepest: nat)
    requires n >= 1 && visited == Preorder(n, 0) && Recorded(n, depths, table, height, map[], visited)
    requires height == 0 || (deepest < n && height == Depth(deepest))
    ensures height == MaxDepth(n) && forall i :: 0 <= i < n ==> depths[i] == Depth(i)
  {
    PreorderVisitsEach(n);
    forall i | 0 <= i < n ensures depths[i] == Depth(i) <= height {
      assert i in multiset(visited);
      assert i in visited;
    }
    forall i | 0 <= i < n ensures Depth(i) <= MaxDepth(n) {
      MaxDepthIsHeight(n, i);
    }
  }

  /** What computeDepth(id, _) visits: the node, then its first child's subtree, then its second's. */
  lemma {:induction false} PreorderByChildren(n: nat, id: nat, first: seq<nat>, second: seq<nat>)
    requires id < n
    requires first == (if |Children(n, id)| >= 1 then Preorder(n, Children(n, id)[0]) else [])
    requires second == (if |Children(n, id)| >= 2 then Preorder(n, Children(n, id)[1]) else [])
    ensures [id] + first + second == Preorder(n, id)
  {
  }

  lemma NextPart(id: nat, first: seq<nat>, second: seq<nat>, below: seq<nat>)
    ensures second == [] ==> ([id] + first + second) + below == [id] + first + below
    ensures first == [] && second == [] ==> ([id] + first + second) + below == [id] + below + second
    ensures [id] == [id] + [] + []
  {
  }
}
