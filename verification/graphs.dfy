// The image graph as a value: nodes are numbered, edges are lists of numbers
// in the order in which the program appends to them.
module Graphs {

  datatype Graph = Graph(children: seq<seq<nat>>, parents: seq<seq<nat>>, roots: seq<nat>) {
    function Size(): nat { |children| }

    // Edges stay inside the graph, both directions agree, roots are the parentless nodes.
    ghost predicate Valid() {
      && |parents| == |children|
      && (forall n :: 0 <= n < Size() ==> Within(children[n], Size()) && Within(parents[n], Size()))
      && (forall n: nat, m: nat {:trigger children[n], parents[m]} ::
            n < Size() && m < Size() ==> (m in children[n] <==> n in parents[m]))
      && Within(roots, Size())
      && (forall n: nat :: n < Size() ==> (n in roots <==> parents[n] == []))
    }
  }

  predicate Within(ns: seq<nat>, size: nat) {
    forall i :: 0 <= i < |ns| ==> ns[i] < size
  }

  function Elems(s: seq<nat>): set<nat> { set x | x in s }

  ghost predicate Distinct(s: seq<nat>) {
    forall i, j :: 0 <= i < j < |s| ==> s[i] != s[j]
  }

  lemma ElemsConcat(s: seq<nat>, t: seq<nat>)
    ensures Elems(s + t) == Elems(s) + Elems(t)
  {
    forall x: nat ensures x in Elems(s + t) <==> x in Elems(s) + Elems(t) {
      assert x in s + t <==> x in s || x in t;
    }
  }

  lemma TwiceIn<T>(s: seq<T>, i: nat, j: nat)
    requires i < j < |s|
    ensures s[i] == s[j] ==> multiset(s)[s[i]] >= 2
  {
    assert s == s[..i] + [s[i]] + s[i+1..j] + [s[j]] + s[j+1..];
  }

  // The unfolding of a node list: each node with the unfolding of its children.
  // A finite one exists exactly when no cycle can be reached from the list.
  datatype Forest = Nil | Cons(node: nat, kids: Forest, rest: Forest)

  function Heads(f: Forest): seq<nat> {
    if f.Nil? then [] else [f.node] + Heads(f.rest)
  }

  function Nodes(f: Forest): set<nat> {
    if f.Nil? then {} else {f.node} + Nodes(f.kids) + Nodes(f.rest)
  }

  function Count(f: Forest): nat {
    if f.Nil? then 0 else 1 + Count(f.kids) + Count(f.rest)
  }

  // Below every occurrence of a node hang exactly its children, in order.
  predicate Matches(g: Graph, f: Forest) {
    f.Cons? ==>
      && f.node < g.Size()
      && Heads(f.kids) == g.children[f.node]
      && Matches(g, f.kids)
      && Matches(g, f.rest)
  }

  ghost predicate Unfolds(g: Graph, f: Forest) {
    Matches(g, f) && Heads(f) == g.roots
  }

  lemma {:induction false} UnfoldingUnique(g: Graph, f: Forest, f': Forest)
    requires Matches(g, f) && Matches(g, f') && Heads(f) == Heads(f')
    ensures f == f'
  {
    if f.Cons? {
      assert Heads(f)[0] == Heads(f')[0] && Heads(f)[1..] == Heads(f.rest) && Heads(f')[1..] == Heads(f'.rest);
      UnfoldingUnique(g, f.kids, f'.kids);
      UnfoldingUnique(g, f.rest, f'.rest);
    }
  }

  // The descendants of any node met in an unfolding are met there too.
  lemma {:induction false} NodesClosed(g: Graph, f: Forest, n: nat, k: Forest)
    requires Matches(g, f) && Matches(g, k) && n in Nodes(f) && n < g.Size() && Heads(k) == g.children[n]
    ensures Nodes(k) <= Nodes(f) && Count(k) < Count(f)
  {
    if n == f.node {
      UnfoldingUnique(g, f.kids, k);
    } else if n in Nodes(f.kids) {
      NodesClosed(g, f.kids, n, k);
    } else {
      NodesClosed(g, f.rest, n, k);
    }
  }

  lemma {:induction false} NodesWithin(g: Graph, f: Forest, n: nat)
    requires Matches(g, f) && n in Nodes(f)
    ensures n < g.Size()
  {
    if n != f.node {
      if n in Nodes(f.kids) { NodesWithin(g, f.kids, n); } else { NodesWithin(g, f.rest, n); }
    }
  }

  lemma {:induction false} HeadsAreNodes(f: Forest, n: nat)
    requires n in Heads(f)
    ensures n in Nodes(f)
  {
    if n != f.node { HeadsAreNodes(f.rest, n); }
  }

  function Top(s: seq<nat>): (t: nat)
    ensures forall i :: 0 <= i < |s| ==> s[i] <= t
  {
    if s == [] then 0
    else
      var t := Top(s[..|s|-1]);
      if s[|s|-1] > t then s[|s|-1] else t
  }

  // A rank that grows along every edge.
  ghost predicate Ranked(g: Graph, rank: seq<nat>) {
    && g.Valid()
    && |rank| == g.Size()
    && (forall n, i :: 0 <= n < g.Size() && 0 <= i < |g.children[n]| ==> rank[n] < rank[g.children[n][i]])
  }

  lemma ParentsRankLower(g: Graph, rank: seq<nat>, n: nat, p: nat)
    requires Ranked(g, rank) && n < g.Size() && p in g.parents[n]
    ensures p < g.Size() && rank[p] < rank[n]
  {
    var i :| 0 <= i < |g.parents[n]| && g.parents[n][i] == p;
    assert n in g.children[p];
  }

  // With a rank, an unfolding exists: the acyclicity used by the traversals follows from it.
  lemma {:induction false} RankedUnfolds(g: Graph, rank: seq<nat>, low: nat, ns: seq<nat>) returns (f: Forest)
    requires Ranked(g, rank) && Within(ns, g.Size())
    requires forall i :: 0 <= i < |ns| ==> low <= rank[ns[i]]
    ensures Matches(g, f) && Heads(f) == ns
    decreases Top(rank) + 1 - low, |ns|
  {
    if ns == [] {
      f := Nil;
    } else {
      var kids := RankedUnfolds(g, rank, rank[ns[0]] + 1, g.children[ns[0]]);
      var rest := RankedUnfolds(g, rank, low, ns[1..]);
      f := Cons(ns[0], kids, rest);
    }
  }

  // When the roots are the parentless nodes, the unfolding of the roots misses no node.
  lemma {:induction false} EveryNodeUnfolded(g: Graph, rank: seq<nat>, f: Forest, n: nat)
    requires Ranked(g, rank) && Unfolds(g, f) && n < g.Size()
    ensures n in Nodes(f)
    decreases rank[n]
  {
    if g.parents[n] == [] {
      HeadsAreNodes(f, n);
    } else {
      var p := g.parents[n][0];
      ParentsRankLower(g, rank, n, p);
      EveryNodeUnfolded(g, rank, f, p);
      assert n in g.children[p];
      ChildrenUnfolded(g, f, p, n);
    }
  }

  lemma {:induction false} ChildrenUnfolded(g: Graph, f: Forest, p: nat, n: nat)
    requires Matches(g, f) && p in Nodes(f) && p < g.Size() && n in g.children[p]
    ensures n in Nodes(f)
  {
    if p == f.node {
      HeadsAreNodes(f.kids, n);
    } else if p in Nodes(f.kids) {
      ChildrenUnfolded(g, f.kids, p, n);
    } else {
      ChildrenUnfolded(g, f.rest, p, n);
    }
  }

  // ---- How often a node occurs in an unfolding

  function Times(s: seq<nat>, n: nat): nat { multiset(s)[n] }

  function Occurrences(f: Forest, n: nat): nat {
    if f.Nil? then 0 else (if f.node == n then 1 else 0) + Occurrences(f.kids, n) + Occurrences(f.rest, n)
  }

  // Links to n out of all the nodes that occur in f.
  function EdgesInto(g: Graph, f: Forest, n: nat): nat {
    if f.Nil? then 0
    else
      (if f.node < g.Size() then Times(g.children[f.node], n) else 0)
      + EdgesInto(g, f.kids, n) + EdgesInto(g, f.rest, n)
  }

  // Every link appears on both of its sides, and every root once.
  ghost predicate Balanced(g: Graph) {
    && |g.parents| == g.Size() && Distinct(g.roots)
    && forall p: nat, c: nat :: p < g.Size() && c < g.Size() ==> Times(g.children[p], c) == Times(g.parents[c], p)
  }

  lemma {:induction false} OccursInNodes(f: Forest, n: nat)
    ensures Occurrences(f, n) > 0 <==> n in Nodes(f)
  {
    if f.Cons? { OccursInNodes(f.kids, n); OccursInNodes(f.rest, n); }
  }

  lemma {:induction false} OccursByEdges(g: Graph, f: Forest, n: nat)
    requires Matches(g, f)
    ensures Occurrences(f, n) == Times(Heads(f), n) + EdgesInto(g, f, n)
  {
    if f.Cons? {
      OccursByEdges(g, f.kids, n);
      OccursByEdges(g, f.rest, n);
      assert Heads(f) == [f.node] + Heads(f.rest);
    }
  }

  lemma TimesOf(s: seq<nat>, n: nat)
    ensures Times(s, n) > 0 <==> n in s
    ensures Distinct(s) ==> Times(s, n) <= 1
  {
    if Distinct(s) && n in s {
      var i :| 0 <= i < |s| && s[i] == n;
      assert s == s[..i] + [n] + s[i+1..];
      assert n !in s[..i] && n !in s[i+1..];
    }
  }

  // All links to n come from p.
  lemma {:induction false} EdgesFromOne(g: Graph, f: Forest, n: nat, p: nat, d: nat)
    requires Matches(g, f)
    requires forall m: nat :: m < g.Size() ==> Times(g.children[m], n) == if m == p then d else 0
    ensures EdgesInto(g, f, n) == d * Occurrences(f, p)
  {
    if f.Cons? {
      EdgesFromOne(g, f.kids, n, p, d);
      EdgesFromOne(g, f.rest, n, p, d);
      var a, b, c := if f.node == p then 1 else 0, Occurrences(f.kids, p), Occurrences(f.rest, p);
      Distribute(d, a, b, c);
    }
  }

  lemma Distribute(d: nat, a: nat, b: nat, c: nat)
    ensures d * (a + b + c) == d * a + d * b + d * c
  {}

  // Links from p and from another node q.
  lemma {:induction false} EdgesFromTwo(g: Graph, f: Forest, n: nat, p: nat, q: nat)
    requires Matches(g, f) && p < g.Size() && q < g.Size()
    requires p == q ==> Times(g.children[p], n) >= 2
    requires Times(g.children[p], n) >= 1 && Times(g.children[q], n) >= 1
    ensures EdgesInto(g, f, n) >= Occurrences(f, p) + Occurrences(f, q)
  {
    if f.Cons? {
      EdgesFromTwo(g, f.kids, n, p, q);
      EdgesFromTwo(g, f.rest, n, p, q);
    }
  }

  lemma ParentTimes(s: seq<nat>)
    requires |s| >= 2
    ensures if s[0] == s[1] then Times(s, s[0]) >= 2 else Times(s, s[0]) >= 1 && Times(s, s[1]) >= 1
  {
    assert s == [s[0], s[1]] + s[2..];
  }

  // A node has links from its parents only.
  lemma LinksFrom(g: Graph, n: nat, p: nat, m: nat)
    requires Balanced(g) && n < g.Size() && m < g.Size()
    ensures g.parents[n] == [] ==> Times(g.children[m], n) == 0
    ensures g.parents[n] == [p] ==> Times(g.children[m], n) == if m == p then 1 else 0
  {
    assert Times(g.children[m], n) == Times(g.parents[n], m);
  }

  // A root occurs once, and a node with one parent entry as often as its parent.
  lemma OccursAsParent(g: Graph, rank: seq<nat>, f: Forest, n: nat)
    requires Ranked(g, rank) && Balanced(g) && Unfolds(g, f) && n < g.Size() && |g.parents[n]| <= 1
    ensures g.parents[n] == [] ==> Occurrences(f, n) == 1
    ensures g.parents[n] != [] ==> Occurrences(f, n) == Occurrences(f, g.parents[n][0])
  {
    OccursByEdges(g, f, n);
    TimesOf(g.roots, n);
    if g.parents[n] == [] {
      forall m: nat | m < g.Size() ensures Times(g.children[m], n) == 0 { LinksFrom(g, n, 0, m); }
      EdgesFromOne(g, f, n, 0, 0);
    } else {
      var p := g.parents[n][0];
      assert g.parents[n] == [p];
      forall m: nat | m < g.Size() ensures Times(g.children[m], n) == if m == p then 1 else 0 { LinksFrom(g, n, p, m); }
      EdgesFromOne(g, f, n, p, 1);
    }
  }

  lemma {:induction false} SingleParentsOnce(g: Graph, rank: seq<nat>, f: Forest, n: nat)
    requires Ranked(g, rank) && Balanced(g) && Unfolds(g, f) && n < g.Size()
    requires forall m: nat :: m < g.Size() ==> |g.parents[m]| <= 1
    ensures Occurrences(f, n) == 1
    decreases rank[n]
  {
    OccursAsParent(g, rank, f, n);
    if g.parents[n] != [] {
      ParentsRankLower(g, rank, n, g.parents[n][0]);
      SingleParentsOnce(g, rank, f, g.parents[n][0]);
    }
  }

  lemma TwoParentsTwice(g: Graph, rank: seq<nat>, f: Forest, n: nat)
    requires Ranked(g, rank) && Balanced(g) && Unfolds(g, f) && n < g.Size() && |g.parents[n]| >= 2
    ensures Occurrences(f, n) >= 2
  {
    var p, q := g.parents[n][0], g.parents[n][1];
    ParentsRankLower(g, rank, n, p);
    ParentsRankLower(g, rank, n, q);
    ParentTimes(g.parents[n]);
    OccursByEdges(g, f, n);
    EdgesFromTwo(g, f, n, p, q);
    EveryNodeUnfolded(g, rank, f, p);
    EveryNodeUnfolded(g, rank, f, q);
    OccursInNodes(f, p);
    OccursInNodes(f, q);
  }

  // Every node occurs once iff none has two parent entries.
  lemma OnceIff(g: Graph, rank: seq<nat>, f: Forest)
    requires Ranked(g, rank) && Balanced(g) && Unfolds(g, f)
    ensures (forall n: nat :: n < g.Size() ==> Occurrences(f, n) == 1) <==>
      forall n: nat :: n < g.Size() ==> |g.parents[n]| <= 1
  {
    if forall n: nat :: n < g.Size() ==> |g.parents[n]| <= 1 {
      forall n: nat | n < g.Size() ensures Occurrences(f, n) == 1 { SingleParentsOnce(g, rank, f, n); }
    } else {
      var n: nat :| n < g.Size() && |g.parents[n]| > 1;
      TwoParentsTwice(g, rank, f, n);
    }
  }
}
