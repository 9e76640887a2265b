// The sequential traversals of pkg/dag. A traversal maps the sequence of nodes visited so far,
// which is also the memory of the unique visitor, to the sequence visited when it returns.
module Walks {
  import opened Wrappers
  import opened Graphs

  // The unique visitor: a node already visited is ignored.
  function Visit(n: nat, t: seq<nat>): seq<nat> {
    if n in t then t else t + [n]
  }

  // walk: visit a node, then recurse into its children even when the visit was ignored.
  function Walk(f: Forest, t: seq<nat>): seq<nat> {
    if f.Nil? then t else Walk(f.rest, Walk(f.kids, Visit(f.node, t)))
  }

  // The textbook pre-order search: a visited node is not entered again.
  function Dfs(f: Forest, t: seq<nat>): seq<nat> {
    if f.Nil? then t
    else if f.node in t then Dfs(f.rest, t)
    else Dfs(f.rest, Dfs(f.kids, t + [f.node]))
  }

  // walkErr: like walk, but returns the error of the first node whose visitor fails. errs holds the nodes on which it
  // does, with their errors.
  function WalkErr(f: Forest, t: seq<nat>, errs: map<nat, string>): (seq<nat>, Option<string>) {
    if f.Nil? then (t, None)
    else if f.node !in t && f.node in errs then (Visit(f.node, t), Some(errs[f.node]))
    else
      var (below, err) := WalkErr(f.kids, Visit(f.node, t), errs);
      if err.Some? then (below, err) else WalkErr(f.rest, below, errs)
  }

  // walkInDepth: the children first, then the node.
  function WalkInDepth(f: Forest, t: seq<nat>): seq<nat> {
    if f.Nil? then t else WalkInDepth(f.rest, Visit(f.node, WalkInDepth(f.kids, t)))
  }

  // The prefix of t up to and including its first element in bad; all of t when there is none.
  function Cut(t: seq<nat>, bad: set<nat>): seq<nat> {
    if t == [] then [] else if t[0] in bad then [t[0]] else [t[0]] + Cut(t[1..], bad)
  }

  lemma VisitGrows(n: nat, t: seq<nat>)
    ensures t <= Visit(n, t) && Elems(Visit(n, t)) == Elems(t) + {n}
    ensures Distinct(t) ==> Distinct(Visit(n, t))
  {
    ElemsConcat(t, [n]);
  }

  // ---- Walk and Dfs

  lemma {:induction false} WalkOnce(f: Forest, t: seq<nat>)
    ensures t <= Walk(f, t) && Elems(Walk(f, t)) == Elems(t) + Nodes(f)
    ensures Distinct(t) ==> Distinct(Walk(f, t))
  {
    if f.Cons? {
      VisitGrows(f.node, t);
      var below := Walk(f.kids, Visit(f.node, t));
      WalkOnce(f.kids, Visit(f.node, t));
      WalkOnce(f.rest, below);
    }
  }

  // Visited nodes have only visited nodes below them, wherever they hang in f.
  ghost predicate ClosedIn(f: Forest, seen: set<nat>) {
    f.Cons? ==>
      && (f.node in seen ==> Nodes(f.kids) <= seen)
      && ClosedIn(f.kids, seen)
      && ClosedIn(f.rest, seen)
  }

  lemma {:induction false} ClosedEmpty(f: Forest)
    ensures ClosedIn(f, {})
  {
    if f.Cons? { ClosedEmpty(f.kids); ClosedEmpty(f.rest); }
  }

  lemma {:induction false} ClosedAddAbsent(f: Forest, seen: set<nat>, n: nat)
    requires ClosedIn(f, seen) && n !in Nodes(f)
    ensures ClosedIn(f, seen + {n})
  {
    if f.Cons? { ClosedAddAbsent(f.kids, seen, n); ClosedAddAbsent(f.rest, seen, n); }
  }

  lemma {:induction false} ClosedAddTree(g: Graph, f: Forest, seen: set<nat>, n: nat, k: Forest)
    requires ClosedIn(f, seen) && Matches(g, f)
    requires n < g.Size() && Matches(g, k) && Heads(k) == g.children[n]
    ensures ClosedIn(f, seen + {n} + Nodes(k))
  {
    if f.Cons? {
      ClosedAddTree(g, f.kids, seen, n, k);
      ClosedAddTree(g, f.rest, seen, n, k);
      if f.node == n {
        UnfoldingUnique(g, f.kids, k);
      } else if f.node in Nodes(k) {
        NodesClosed(g, k, f.node, f.kids);
      }
    }
  }

  lemma {:induction false} SilentWalk(f: Forest, t: seq<nat>)
    requires Nodes(f) <= Elems(t)
    ensures Walk(f, t) == t
  {
    if f.Cons? {
      assert f.node in Elems(t);
      SilentWalk(f.kids, t);
      SilentWalk(f.rest, t);
    }
  }

  // Re-entering visited nodes is harmless: everything below them was visited before.
  lemma {:induction false} WalkIsDfs(g: Graph, f: Forest, t: seq<nat>)
    requires Matches(g, f) && ClosedIn(f, Elems(t))
    ensures Walk(f, t) == Dfs(f, t)
  {
    if f.Cons? {
      if f.node in t {
        SilentWalk(f.kids, t);
        WalkIsDfs(g, f.rest, t);
      } else {
        var t' := t + [f.node];
        VisitGrows(f.node, t);
        if f.node in Nodes(f.kids) { NodesClosed(g, f.kids, f.node, f.kids); }
        ClosedAddAbsent(f.kids, Elems(t), f.node);
        WalkIsDfs(g, f.kids, t');
        WalkOnce(f.kids, t');
        ClosedAddTree(g, f.rest, Elems(t), f.node, f.kids);
        WalkIsDfs(g, f.rest, Walk(f.kids, t'));
      }
    }
  }

  ghost predicate HasEarlierParent(g: Graph, t: seq<nat>, i: nat)
    requires i < |t|
  {
    exists j :: 0 <= j < i && t[j] < g.Size() && t[i] in g.children[t[j]]
  }

  ghost predicate ParentFirst(g: Graph, t: seq<nat>) {
    forall i :: 0 <= i < |t| ==> t[i] in g.roots || HasEarlierParent(g, t, i)
  }

  ghost predicate Introduced(g: Graph, t: seq<nat>, n: nat) {
    n in g.roots || exists j :: 0 <= j < |t| && t[j] < g.Size() && n in g.children[t[j]]
  }

  lemma VisitParentFirst(g: Graph, n: nat, t: seq<nat>)
    requires ParentFirst(g, t) && Introduced(g, t, n)
    ensures ParentFirst(g, Visit(n, t))
  {
    var t' := Visit(n, t);
    forall i | 0 <= i < |t'| ensures t'[i] in g.roots || HasEarlierParent(g, t', i) {
      if i < |t| {
        if HasEarlierParent(g, t, i) {
          var j :| 0 <= j < i && t[j] < g.Size() && t[i] in g.children[t[j]];
          assert t'[j] == t[j];
        }
      } else if n !in g.roots {
        var j :| 0 <= j < |t| && t[j] < g.Size() && n in g.children[t[j]];
        assert t'[j] == t[j];
      }
    }
  }

  lemma {:induction false} WalkParentFirst(g: Graph, f: Forest, t: seq<nat>)
    requires Matches(g, f) && ParentFirst(g, t)
    requires forall i :: 0 <= i < |Heads(f)| ==> Introduced(g, t, Heads(f)[i])
    ensures ParentFirst(g, Walk(f, t))
  {
    if f.Cons? {
      var t1 := Visit(f.node, t);
      assert Heads(f)[0] == f.node;
      VisitParentFirst(g, f.node, t);
      VisitGrows(f.node, t);
      assert f.node in Elems(t1);
      var j :| 0 <= j < |t1| && t1[j] == f.node;
      assert forall i :: 0 <= i < |Heads(f.kids)| ==> Introduced(g, t1, Heads(f.kids)[i]);
      WalkParentFirst(g, f.kids, t1);
      var t2 := Walk(f.kids, t1);
      WalkOnce(f.kids, t1);
      forall i | 0 <= i < |Heads(f.rest)| ensures Introduced(g, t2, Heads(f.rest)[i]) {
        assert Heads(f)[i+1] == Heads(f.rest)[i];
        IntroducedStays(g, t, t2, Heads(f.rest)[i]);
      }
      WalkParentFirst(g, f.rest, t2);
    }
  }

  lemma IntroducedStays(g: Graph, t: seq<nat>, t': seq<nat>, n: nat)
    requires Introduced(g, t, n) && t <= t'
    ensures Introduced(g, t', n)
  {
    if n !in g.roots {
      var j :| 0 <= j < |t| && t[j] < g.Size() && n in g.children[t[j]];
      assert t'[j] == t[j];
    }
  }

  // Walk: the pruned pre-order search; every reachable node once; a parent before every non-root.
  lemma WalkVisits(g: Graph, f: Forest)
    requires Unfolds(g, f)
    ensures Walk(f, []) == Dfs(f, [])
    ensures Distinct(Walk(f, [])) && Elems(Walk(f, [])) == Nodes(f)
    ensures ParentFirst(g, Walk(f, []))
  {
    ClosedEmpty(f);
    assert Elems([]) == {};
    WalkIsDfs(g, f, []);
    WalkOnce(f, []);
    WalkParentFirst(g, f, []);
  }

  // Only one parent is promised: here node 2 has parents 0 and 1 and is visited before 1.
  lemma WalkBeforeOtherParent()
    ensures exists g: Graph, f: Forest ::
      g.Valid() && g.Size() == 3 && Unfolds(g, f) && 1 in g.parents[2] && Walk(f, []) == [0, 2, 1]
  {
    var g := Graph([[2], [2], []], [[], [], [0, 1]], [0, 1]);
    var leaf := Cons(2, Nil, Nil);
    var f := Cons(0, leaf, Cons(1, leaf, Nil));
    assert Heads(leaf) == [2] && Heads(f.rest) == [1];
    assert Unfolds(g, f);
    assert Walk(leaf, [0]) == [0, 2] && Walk(leaf, [0, 2, 1]) == [0, 2, 1];
    assert Walk(f.rest, [0, 2]) == [0, 2, 1];
  }

  // All parents of a node are the same one.
  ghost predicate OneParent(g: Graph, n: nat)
    requires n < |g.parents|
  {
    forall i, j :: 0 <= i < j < |g.parents[n]| ==> g.parents[n][i] == g.parents[n][j]
  }

  // When no node has two different parents, every node comes after all of them.
  lemma WalkTopological(g: Graph, f: Forest, i: nat, p: nat)
    requires g.Valid() && Unfolds(g, f) && (forall n: nat :: n < g.Size() ==> OneParent(g, n))
    requires i < |Walk(f, [])| && Walk(f, [])[i] < g.Size() && p in g.parents[Walk(f, [])[i]]
    ensures p in Walk(f, [])[..i]
  {
    var t := Walk(f, []);
    var n := t[i];
    WalkVisits(g, f);
    assert n in g.roots || HasEarlierParent(g, t, i);
    var j :| 0 <= j < i && t[j] < g.Size() && n in g.children[t[j]];
    assert t[j] in g.parents[n];
    SameParent(g, n, p, t[j]);
  }

  lemma SameParent(g: Graph, n: nat, p: nat, q: nat)
    requires n < |g.parents| && OneParent(g, n) && p in g.parents[n] && q in g.parents[n]
    ensures p == q
  {
    var i :| 0 <= i < |g.parents[n]| && g.parents[n][i] == p;
    var j :| 0 <= j < |g.parents[n]| && g.parents[n][j] == q;
    assert i < j ==> g.parents[n][i] == g.parents[n][j];
    assert j < i ==> g.parents[n][j] == g.parents[n][i];
  }

  // Where a node first occurs in the forest, in pre-order, all its parents are among the nodes above it. above holds
  // the nodes above f, seen those that occur before f.
  ghost predicate FirstsBelowParents(g: Graph, f: Forest, above: set<nat>, seen: set<nat>) {
    f.Cons? && f.node < |g.parents| ==>
      && (f.node !in seen ==> Elems(g.parents[f.node]) <= above)
      && FirstsBelowParents(g, f.kids, above + {f.node}, seen + {f.node})
      && FirstsBelowParents(g, f.rest, above, seen + {f.node} + Nodes(f.kids))
  }

  ghost predicate ParentsBefore(g: Graph, t: seq<nat>, i: nat)
    requires i < |t|
  {
    t[i] < |g.parents| ==> Elems(g.parents[t[i]]) <= Elems(t[..i])
  }

  // From position i on, every node comes after all its parents.
  ghost predicate TopologicalFrom(g: Graph, t: seq<nat>, i: nat) {
    forall k :: i <= k < |t| ==> ParentsBefore(g, t, k)
  }

  // Of the nodes seen, only those above have children that are not.
  ghost predicate OpenAbove(g: Graph, seen: set<nat>, above: set<nat>) {
    above <= seen && forall x :: x in seen && x < g.Size() && x !in above ==> Elems(g.children[x]) <= seen
  }

  lemma {:induction false} HeadsBelow(f: Forest)
    ensures Elems(Heads(f)) <= Nodes(f)
  {
    forall n | n in Elems(Heads(f)) ensures n in Nodes(f) { HeadsAreNodes(f, n); }
  }

  // A new node has all its parents seen iff it has them above.
  lemma SeenIsAbove(g: Graph, n: nat, seen: set<nat>, above: set<nat>)
    requires g.Valid() && n < g.Size() && n !in seen && OpenAbove(g, seen, above)
    ensures Elems(g.parents[n]) <= seen <==> Elems(g.parents[n]) <= above
  {
    forall p | p in Elems(g.parents[n]) && p in seen ensures p in above {
      assert n in g.children[p];
      assert n in Elems(g.children[p]);
    }
  }

  lemma TopologicalSplit(g: Graph, t: seq<nat>, t': seq<nat>, i: nat)
    requires t <= t' && i <= |t|
    ensures TopologicalFrom(g, t', i) <==> TopologicalFrom(g, t, i) && TopologicalFrom(g, t', |t|)
  {
    forall k | i <= k < |t| ensures ParentsBefore(g, t', k) <==> ParentsBefore(g, t, k) { assert t'[..k] == t[..k]; }
  }

  lemma TopologicalVisit(g: Graph, n: nat, t: seq<nat>, above: set<nat>)
    requires g.Valid() && n < g.Size() && OpenAbove(g, Elems(t), above)
    ensures TopologicalFrom(g, Visit(n, t), |t|) <==> (n !in Elems(t) ==> Elems(g.parents[n]) <= above)
    ensures OpenAbove(g, Elems(Visit(n, t)), above + {n})
  {
    VisitGrows(n, t);
    if n !in t {
      assert Visit(n, t)[..|t|] == t;
      SeenIsAbove(g, n, Elems(t), above);
      assert TopologicalFrom(g, t + [n], |t|) <==> ParentsBefore(g, t + [n], |t|);
    }
  }

  lemma {:induction false} WalkAbove(g: Graph, f: Forest, t: seq<nat>, above: set<nat>)
    requires g.Valid() && Matches(g, f) && OpenAbove(g, Elems(t), above)
    ensures TopologicalFrom(g, Walk(f, t), |t|) <==> FirstsBelowParents(g, f, above, Elems(t))
    ensures OpenAbove(g, Elems(Walk(f, t)), above)
    decreases f
  {
    if f.Cons? {
      var t1 := Visit(f.node, t);
      var t2 := Walk(f.kids, t1);
      VisitGrows(f.node, t);
      TopologicalVisit(g, f.node, t, above);
      WalkAbove(g, f.kids, t1, above + {f.node});
      WalkOnce(f.kids, t1);
      HeadsBelow(f.kids);
      WalkOnce(f.rest, t2);
      WalkAbove(g, f.rest, t2, above);
      TopologicalSplit(g, t1, t2, |t|);
      TopologicalSplit(g, t2, Walk(f, t), |t|);
    }
  }

  // Exactly then does Walk visit every node after all its parents.
  lemma WalkTopologicalIff(g: Graph, f: Forest)
    requires g.Valid() && Unfolds(g, f)
    ensures (forall i :: 0 <= i < |Walk(f, [])| ==> ParentsBefore(g, Walk(f, []), i)) <==>
      FirstsBelowParents(g, f, {}, {})
  {
    assert Elems([]) == {};
    WalkAbove(g, f, [], {});
  }

  // ---- WalkErr

  ghost predicate Meets(t: seq<nat>, bad: set<nat>) {
    exists x :: x in t && x in bad
  }

  lemma {:induction false} CutExtended(s: seq<nat>, t: seq<nat>, bad: set<nat>)
    requires s <= t && Meets(s, bad)
    ensures Cut(t, bad) == Cut(s, bad) && Meets(t, bad)
  {
    if s[0] !in bad {
      assert forall x :: x in s <==> x == s[0] || x in s[1..];
      CutExtended(s[1..], t[1..], bad);
    }
    assert forall x :: x in s ==> x in t;
  }

  lemma {:induction false} CutLast(s: seq<nat>, n: nat, bad: set<nat>)
    requires !Meets(s, bad) && n in bad
    ensures Cut(s + [n], bad) == s + [n] && Meets(s + [n], bad)
  {
    assert n in s + [n];
    if s != [] {
      assert (s + [n])[1..] == s[1..] + [n];
      assert forall x :: x in s[1..] ==> x in s;
      CutLast(s[1..], n, bad);
      assert s[0] in s;
    } else {
      assert s + [n] == [n];
    }
  }

  // The error is that of the last node visited.
  ghost predicate LastErr(r: (seq<nat>, Option<string>), errs: map<nat, string>) {
    r.1.Some? ==> r.0 != [] && r.0[|r.0|-1] in errs && r.1.value == errs[r.0[|r.0|-1]]
  }

  // Stopped at the first failing node of the walk, or not at all.
  lemma {:induction false} WalkErrIsCut(f: Forest, t: seq<nat>, errs: map<nat, string>)
    requires !Meets(t, errs.Keys)
    ensures WalkErr(f, t, errs).1.Some? <==> Meets(Walk(f, t), errs.Keys)
    ensures WalkErr(f, t, errs).0 == if Meets(Walk(f, t), errs.Keys) then Cut(Walk(f, t), errs.Keys) else Walk(f, t)
    ensures LastErr(WalkErr(f, t, errs), errs)
  {
    var bad := errs.Keys;
    if f.Cons? {
      var t1 := Visit(f.node, t);
      var t2 := Walk(f.kids, t1);
      WalkOnce(f.kids, t1);
      WalkOnce(f.rest, t2);
      if f.node !in t && f.node in bad {
        CutLast(t, f.node, bad);
        CutExtended(t1, Walk(f, t), bad);
      } else {
        assert forall x :: x in t1 ==> x in t || x == f.node;
        assert !Meets(t1, bad);
        WalkErrIsCut(f.kids, t1, errs);
        if Meets(t2, bad) {
          CutExtended(t2, Walk(f, t), bad);
        } else {
          WalkErrIsCut(f.rest, t2, errs);
        }
      }
    }
  }

  // Cut without its recursion: the only prefix of t that is bad at most at its end,
  // and is shorter than t only because it ends in a bad node.
  lemma {:induction false} CutUnique(t: seq<nat>, bad: set<nat>, c: seq<nat>)
    ensures c == Cut(t, bad) <==>
      && c <= t
      && (forall i :: 0 <= i < |c| - 1 ==> c[i] !in bad)
      && (c == t || (c != [] && c[|c|-1] in bad))
  {
    if t != [] {
      if c != [] && c[0] == t[0] {
        CutUnique(t[1..], bad, c[1..]);
        assert c == [c[0]] + c[1..] && t == [t[0]] + t[1..];
        assert c <= t <==> c[1..] <= t[1..];
        if t[0] !in bad {
          assert forall i :: 0 <= i < |c[1..]| ==> c[1..][i] == c[i+1];
        }
      }
    }
  }

  // WalkErr visits the search order up to and including its first failing node, fails iff one exists, and returns the
  // error of that node.
  lemma WalkErrVisits(g: Graph, f: Forest, errs: map<nat, string>)
    requires Unfolds(g, f)
    ensures WalkErr(f, [], errs).1.Some? <==> exists n :: n in Nodes(f) && n in errs
    ensures WalkErr(f, [], errs).0 == if WalkErr(f, [], errs).1.Some? then Cut(Dfs(f, []), errs.Keys) else Dfs(f, [])
    ensures LastErr(WalkErr(f, [], errs), errs)
  {
    WalkErrIsCut(f, [], errs);
    WalkVisits(g, f);
    assert forall x :: x in Walk(f, []) <==> x in Elems(Walk(f, []));
  }

  // ---- WalkInDepth

  lemma {:induction false} InDepthOnce(f: Forest, t: seq<nat>)
    ensures t <= WalkInDepth(f, t) && Elems(WalkInDepth(f, t)) == Elems(t) + Nodes(f)
    ensures Distinct(t) ==> Distinct(WalkInDepth(f, t))
  {
    if f.Cons? {
      var below := WalkInDepth(f.kids, t);
      InDepthOnce(f.kids, t);
      VisitGrows(f.node, below);
      InDepthOnce(f.rest, Visit(f.node, below));
    }
  }

  // Everything below the node at position i was visited before position i.
  ghost predicate BelowFirst(g: Graph, t: seq<nat>, i: nat)
    requires i < |t|
  {
    forall k :: t[i] < g.Size() && Matches(g, k) && Heads(k) == g.children[t[i]] ==> Nodes(k) <= Elems(t[..i])
  }

  lemma {:induction false} InDepthOrder(g: Graph, f: Forest, t: seq<nat>)
    requires Matches(g, f)
    requires forall i :: 0 <= i < |t| ==> BelowFirst(g, t, i)
    ensures forall i :: 0 <= i < |WalkInDepth(f, t)| ==> BelowFirst(g, WalkInDepth(f, t), i)
  {
    if f.Cons? {
      var below := WalkInDepth(f.kids, t);
      InDepthOrder(g, f.kids, t);
      InDepthOnce(f.kids, t);
      var t' := Visit(f.node, below);
      forall i | 0 <= i < |t'| ensures BelowFirst(g, t', i) {
        if i < |below| {
          assert BelowFirst(g, below, i);
          assert t'[..i] == below[..i];
        } else {
          forall k | Matches(g, k) && Heads(k) == g.children[f.node] ensures Nodes(k) <= Elems(t'[..i]) {
            UnfoldingUnique(g, f.kids, k);
            assert t'[..i] == below;
          }
        }
      }
      InDepthOrder(g, f.rest, t');
    }
  }

  // Siblings are visited in the order of the list.
  lemma InDepthExample(f: Forest)
    requires f == Cons(0, Cons(1, Cons(2, Nil, Nil), Cons(3, Nil, Nil)), Cons(4, Nil, Nil))
    ensures WalkInDepth(f, []) == [2, 1, 3, 0, 4] && Dfs(f, []) == [0, 1, 2, 3, 4]
  {
    assert WalkInDepth(f.kids.kids, []) == [2];
    assert WalkInDepth(f.kids.rest, [2, 1]) == [2, 1, 3];
    assert WalkInDepth(f.kids, []) == [2, 1, 3];
    assert WalkInDepth(f.rest, [2, 1, 3, 0]) == [2, 1, 3, 0, 4];
    DfsLeaf(2, [0, 1]);
    DfsLeaf(3, [0, 1, 2]);
    DfsLeaf(4, [0, 1, 2, 3]);
    assert Dfs(f.kids, [0]) == [0, 1, 2, 3];
    assert [] + [0] == [0];
  }

  lemma DfsLeaf(n: nat, t: seq<nat>)
    requires n !in t
    ensures Dfs(Cons(n, Nil, Nil), t) == t + [n]
  {
  }

  // WalkInDepth: every reachable node once, and all descendants of a node strictly before it.
  lemma WalkInDepthVisits(g: Graph, f: Forest)
    requires Unfolds(g, f)
    ensures Distinct(WalkInDepth(f, [])) && Elems(WalkInDepth(f, [])) == Nodes(f)
    ensures forall i :: 0 <= i < |WalkInDepth(f, [])| ==> BelowFirst(g, WalkInDepth(f, []), i)
  {
    InDepthOnce(f, []);
    InDepthOrder(g, f, []);
  }
}
