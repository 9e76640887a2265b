// Plan: which images are rebuilt and tested.
module Planning {
  import opened Wrappers
  import opened Graphs
  import opened Dag
  import opened Refs
  import Async = AsyncWalk
  import Walks

  // ---- refExistsMapForTag: the visitor asks the registry, which may fail, then stores the answer

  function RefConfig(size: nat): Async.Config {
    Async.Config(seq(size, _ => [true, false]), false, {})
  }

  // The call to the registry can fail, with any error; storing its answer cannot.
  lemma OnlyRegistryFails(size: nat, n: nat, k: nat, s: Async.Shared, e: string)
    requires n < size
    ensures var s' := s.(log := s.log + [Async.Failed(n, k, e)]);
      Async.VisitStep(RefConfig(size), n, Async.Ops(k), s, Async.Done(Some(e)), s') <==> k == 0
  {
    assert |s.log + [Async.Failed(n, k, e)]| == |s.log| + 1;
    assert RefConfig(size).ops[n] == [true, false];
  }

  // The shared map after the operations of log; registry holds the refs that exist.
  function RefMap(log: seq<Async.Event>, refs: seq<string>, registry: set<string>): map<string, bool> {
    if log == [] then map[]
    else
      var ev, m := log[|log|-1], RefMap(log[..|log|-1], refs, registry);
      if ev.Did? && ev.k == 1 && ev.n < |refs| then m[refs[ev.n] := refs[ev.n] in registry] else m
  }

  ghost predicate Asked(log: seq<Async.Event>, refs: seq<string>, r: string) {
    exists n: nat :: n < |refs| && refs[n] == r && Async.Did(n, 1) in log
  }

  // The map holds exactly the refs asked for, with the registry's answer, however often and in whatever order.
  lemma {:induction false} RefMapExact(log: seq<Async.Event>, refs: seq<string>, registry: set<string>, r: string)
    ensures r in RefMap(log, refs, registry) <==> Asked(log, refs, r)
    ensures r in RefMap(log, refs, registry) ==> (RefMap(log, refs, registry)[r] <==> r in registry)
  {
    if log != [] {
      var ev, front := log[|log|-1], log[..|log|-1];
      RefMapExact(front, refs, registry, r);
      assert log == front + [ev];
      if ev.Did? && ev.k == 1 && ev.n < |refs| && refs[ev.n] == r { assert ev == Async.Did(ev.n, 1) && ev in log; }
    }
  }

  // What refExistsMapForTag returns after some complete run of its walk.
  ghost predicate RefAnswer(refs: seq<string>, registry: set<string>, f: Forest, run: seq<Async.State>,
                            answer: Result<map<string, bool>, string>)
  {
    && Async.Run(RefConfig(|refs|), f, run) && Async.Final(Async.Last(run))
    && answer == (match Async.Last(run).err
                  case Some(e) => Err(e)
                  case None => Ok(RefMap(Async.Last(run).shared.log, refs, registry)))
  }

  // In every run: an error exactly when some call to the registry failed, and then the error of such a call.
  // Otherwise the map answers for every reachable node, although Load and Store of the unique visitor are not atomic.
  lemma RefAnswerExact(refs: seq<string>, registry: set<string>, f: Forest, run: seq<Async.State>,
                       answer: Result<map<string, bool>, string>)
    requires RefAnswer(refs, registry, f, run, answer) && forall n :: n in Nodes(f) ==> n < |refs|
    ensures answer.Err? <==> Async.AnyFailed(Async.Last(run).shared.log)
    ensures answer.Err? ==> Async.ErrIn(Async.Last(run).shared.log, answer.error)
    ensures answer.Ok? ==> forall n :: n in Nodes(f) ==>
      refs[n] in answer.value && (answer.value[refs[n]] <==> refs[n] in registry)
  {
    var c, log := RefConfig(|refs|), Async.Last(run).shared.log;
    Async.WalkResult(c, f, run);
    if answer.Ok? {
      forall n | n in Nodes(f) ensures refs[n] in answer.value && (answer.value[refs[n]] <==> refs[n] in registry) {
        assert Async.Complete(c, log, n) && |c.ops[n]| == 2;
        assert Async.Did(n, 1) in log;
        RefMapExact(log, refs, registry, refs[n]);
      }
    }
  }

  // ---- The methods on the graph

  function Ref(img: Image): string
    reads img`hash
  {
    DockerRef(img.name, img.hash)
  }

  function Images(nodes: seq<Node>): set<Image> { set n | n in nodes :: n.image }

  function RefsOf(nodes: seq<Node>): (refs: seq<string>)
    reads Images(nodes)
  {
    seq(|nodes|, i requires 0 <= i < |nodes| reads Images(nodes) => Ref(nodes[i].image))
  }

  // The graph's objects are nodes, linked like g; its roots unfold to f.
  ghost predicate Represents(graph: DAG, nodes: seq<Node>, g: Graph, f: Forest)
    reads graph, nodes
  {
    Models(nodes, g) && Unfolds(g, f) && Linked(nodes, graph.nodes, g.roots)
  }

  lemma RepresentsHangs(graph: DAG, nodes: seq<Node>, g: Graph, f: Forest)
    requires Represents(graph, nodes, g, f)
    ensures Hangs(set n | 0 <= n < |nodes| :: nodes[n], graph.nodes, f)
    ensures forall n :: n in Nodes(f) ==> n < |nodes|
    ensures Elems(Walks.Walk(f, [])) == Nodes(f)
  {
    ModelsHang(nodes, g, graph.nodes, f);
    Walks.WalkVisits(g, f);
    forall n | n in Nodes(f) ensures n < |nodes| { NodesWithin(g, f, n); }
  }

  // The nodes on which the visitor of checkNeedsRebuild fails, with its errors.
  function Unknown(refs: seq<string>, known: map<string, bool>): map<nat, string> {
    map n: nat | n < |refs| && refs[n] !in known :: "could not check if " + refs[n] + " exists"
  }

  predicate Missing(refs: seq<string>, known: map<string, bool>, n: nat) {
    n < |refs| && refs[n] in known && !known[refs[n]]
  }

  // The effect of the visitor, in the order of the visits.
  method MarkMissing(nodes: seq<Node>, trace: seq<nat>, refs: seq<string>, known: map<string, bool>)
    requires DistinctImages(nodes) && Within(trace, |nodes|) && |refs| == |nodes|
    modifies Images(nodes)`needsRebuild
    ensures forall n: nat :: n < |nodes| ==>
      (nodes[n].image.needsRebuild <==> old(nodes[n].image.needsRebuild) || (n in trace && Missing(refs, known, n)))
  {
    for i := 0 to |trace|
      invariant forall n: nat :: n < |nodes| ==>
        (nodes[n].image.needsRebuild <==>
           old(nodes[n].image.needsRebuild) || (n in trace[..i] && Missing(refs, known, n)))
    {
      var n := trace[i];
      assert trace[..i+1] == trace[..i] + [n];
      if refs[n] in known && !known[refs[n]] { nodes[n].image.needsRebuild := true; }
    }
    assert trace[..|trace|] == trace;
  }

  // Marks the images visited up to the first one the map does not know; fails, naming its ref, iff there is such a one.
  method CheckNeedsRebuild(graph: DAG, nodes: seq<Node>, refs: seq<string>, known: map<string, bool>, ghost g: Graph,
                           ghost f: Forest)
    returns (err: Option<string>)
    requires Represents(graph, nodes, g, f) && refs == RefsOf(nodes)
    modifies Images(nodes)`needsRebuild
    ensures err.Some? <==> exists n :: n in Nodes(f) && n in Unknown(refs, known)
    ensures err == Walks.WalkErr(f, [], Unknown(refs, known)).1
    ensures err.Some? ==> NamesUnknown(f, refs, known, err.value)
    ensures forall n: nat :: n < |nodes| ==> (nodes[n].image.needsRebuild <==>
      old(nodes[n].image.needsRebuild) || Marks(refs, known, f, n))
  {
    var errs := Unknown(refs, known);
    var trace;
    err, trace := VisitsErr(graph, nodes, errs, g, f);
    ErrNames(g, f, refs, known);
    MarkMissing(nodes, trace, refs, known);
  }

  // The error names the ref of a reachable image of which the map knows nothing.
  ghost predicate NamesUnknown(f: Forest, refs: seq<string>, known: map<string, bool>, error: string) {
    exists n :: n in Nodes(f) && n < |refs| && refs[n] !in known && error == "could not check if " + refs[n] + " exists"
  }

  lemma ErrNames(g: Graph, f: Forest, refs: seq<string>, known: map<string, bool>)
    requires Unfolds(g, f)
    ensures var err := Walks.WalkErr(f, [], Unknown(refs, known)).1;
            err.Some? ==> NamesUnknown(f, refs, known, err.value)
  {
    var errs := Unknown(refs, known);
    var r := Walks.WalkErr(f, [], errs);
    Walks.WalkErrVisits(g, f, errs);
    ErrTraceWithin(g, f, errs);
    if r.1.Some? {
      var n := r.0[|r.0|-1];
      assert n in Elems(r.0) && n in errs;
    }
  }

  ghost predicate Marks(refs: seq<string>, known: map<string, bool>, f: Forest, n: nat) {
    n in Walks.WalkErr(f, [], Unknown(refs, known)).0 && Missing(refs, known, n)
  }

  // The nodes that a walk with these failing visitors visits, and its error.
  method VisitsErr(graph: DAG, ghost nodes: seq<Node>, errs: map<nat, string>, ghost g: Graph, ghost f: Forest)
    returns (err: Option<string>, trace: seq<nat>)
    requires Represents(graph, nodes, g, f)
    ensures (trace, err) == Walks.WalkErr(f, [], errs) && Within(trace, |nodes|)
    ensures err.Some? <==> exists n :: n in Nodes(f) && n in errs
  {
    RepresentsHangs(graph, nodes, g, f);
    var v := new Visitor();
    err := graph.WalkErr(v, errs, set n | 0 <= n < |nodes| :: nodes[n], f);
    trace := v.trace;
    Walks.WalkErrVisits(g, f, errs);
    ErrTraceWithin(g, f, errs);
  }

  lemma ErrTraceWithin(g: Graph, f: Forest, errs: map<nat, string>)
    requires Unfolds(g, f)
    ensures Elems(Walks.WalkErr(f, [], errs).0) <= Nodes(f)
    ensures Within(Walks.WalkErr(f, [], errs).0, g.Size())
    ensures Walks.WalkErr(f, [], errs).1.None? ==> Elems(Walks.WalkErr(f, [], errs).0) == Nodes(f)
  {
    var t, r := Walks.Walk(f, []), Walks.WalkErr(f, [], errs);
    Walks.WalkVisits(g, f);
    Walks.WalkErrVisits(g, f, errs);
    Walks.CutUnique(t, errs.Keys, Walks.Cut(t, errs.Keys));
    forall i | 0 <= i < |r.0| ensures r.0[i] in Nodes(f) && r.0[i] < g.Size() {
      assert r.0[i] == t[i] && t[i] in Elems(t);
      NodesWithin(g, f, t[i]);
    }
  }

  // With an answer for every reachable image, checkNeedsRebuild does not fail and marks exactly the missing ones.
  method CheckKnown(graph: DAG, nodes: seq<Node>, refs: seq<string>, known: map<string, bool>,
                    ghost registry: set<string>, ghost g: Graph, ghost f: Forest)
    returns (err: Option<string>)
    requires Represents(graph, nodes, g, f) && refs == RefsOf(nodes)
    requires forall n :: n in Nodes(f) ==> n < |refs| && refs[n] in known && (known[refs[n]] <==> refs[n] in registry)
    modifies Images(nodes)`needsRebuild
    ensures err.None?
    ensures forall n: nat :: n < |nodes| ==>
      (nodes[n].image.needsRebuild <==> old(nodes[n].image.needsRebuild) || (n in Nodes(f) && refs[n] !in registry))
  {
    ghost var errs := Unknown(refs, known);
    ghost var visited := Walks.WalkErr(f, [], errs).0;
    ErrTraceWithin(g, f, errs);
    Walks.WalkErrVisits(g, f, errs);
    err := CheckNeedsRebuild(graph, nodes, refs, known, g, f);
    assert forall n: nat :: n in visited <==> n in Elems(visited);
  }

  method MarkForced(nodes: seq<Node>, trace: seq<nat>, noTests: bool)
    requires DistinctImages(nodes) && Within(trace, |nodes|)
    modifies Images(nodes)`needsRebuild, Images(nodes)`needsTests
    ensures forall n: nat :: n < |nodes| ==>
      && nodes[n].image.needsRebuild == (n in trace || old(nodes[n].image.needsRebuild))
      && nodes[n].image.needsTests == (if n in trace then !noTests else old(nodes[n].image.needsTests))
  {
    for i := 0 to |trace|
      invariant forall n: nat :: n < |nodes| ==>
        && nodes[n].image.needsRebuild == (n in trace[..i] || old(nodes[n].image.needsRebuild))
        && nodes[n].image.needsTests == (if n in trace[..i] then !noTests else old(nodes[n].image.needsTests))
    {
      assert trace[..i+1] == trace[..i] + [trace[i]];
      nodes[trace[i]].image.needsRebuild := true;
      nodes[trace[i]].image.needsTests := !noTests;
    }
    assert trace[..|trace|] == trace;
  }

  method MarkTests(nodes: seq<Node>, trace: seq<nat>)
    requires DistinctImages(nodes) && Within(trace, |nodes|)
    modifies Images(nodes)`needsTests
    ensures forall n: nat :: n < |nodes| ==>
      nodes[n].image.needsTests == (old(nodes[n].image.needsTests) || (n in trace && nodes[n].image.needsRebuild))
  {
    for i := 0 to |trace|
      invariant forall n: nat :: n < |nodes| ==>
        nodes[n].image.needsTests
        == (old(nodes[n].image.needsTests) || (n in trace[..i] && nodes[n].image.needsRebuild))
    {
      assert trace[..i+1] == trace[..i] + [trace[i]];
      if nodes[trace[i]].image.needsRebuild { nodes[trace[i]].image.needsTests := true; }
    }
    assert trace[..|trace|] == trace;
  }

  // The order in which a walk visits the graph.
  method Visits(graph: DAG, ghost nodes: seq<Node>, ghost g: Graph, ghost f: Forest) returns (trace: seq<nat>)
    requires Represents(graph, nodes, g, f)
    ensures Within(trace, |nodes|) && Elems(trace) == Nodes(f)
  {
    RepresentsHangs(graph, nodes, g, f);
    var v := new Visitor();
    graph.Walk(v, set n | 0 <= n < |nodes| :: nodes[n], f);
    trace := v.trace;
    forall i | 0 <= i < |trace| ensures trace[i] < |nodes| { assert trace[i] in Elems(trace); }
  }

  ghost predicate RegistryError(log: seq<Async.Event>, message: string) {
    exists e :: Async.ErrIn(log, e) && message == "error during api call to check registry if tag exists: " + e
  }

  // The part of Plan after the registry has answered.
  method PlanMissing(graph: DAG, nodes: seq<Node>, noTests: bool, refs: seq<string>, known: map<string, bool>,
                     trace: seq<nat>, ghost registry: set<string>, ghost g: Graph, ghost f: Forest)
    returns (err: Option<string>)
    requires Represents(graph, nodes, g, f) && refs == RefsOf(nodes)
    requires Within(trace, |nodes|) && Elems(trace) == Nodes(f)
    requires forall n :: n in Nodes(f) ==> n < |refs| && refs[n] in known && (known[refs[n]] <==> refs[n] in registry)
    modifies Images(nodes)`needsRebuild, Images(nodes)`needsTests
    ensures err.None?
    ensures forall n: nat :: n < |nodes| ==>
      && nodes[n].image.needsRebuild == (old(nodes[n].image.needsRebuild) || (n in Nodes(f) && refs[n] !in registry))
      && nodes[n].image.needsTests ==
           (old(nodes[n].image.needsTests) || (n in Nodes(f) && nodes[n].image.needsRebuild && !noTests))
  {
    assert forall n: nat :: n in trace <==> n in Elems(trace);
    err := CheckKnown(graph, nodes, refs, known, registry, g, f);
    if err.Some? { return; }
    if noTests { return; }
    MarkTests(nodes, trace);
  }

  // Without force, Plan fails exactly when some call to the registry failed, with the error of such a call, and then
  // marks nothing; that a ref could not be checked is never its error. Otherwise it marks for a rebuild exactly the
  // reachable images whose ref is missing, and for tests, when they are enabled, those marked for a rebuild. With force
  // it marks every reachable image. Marks are never taken back, but for tests under force.
  method Plan(graph: DAG, nodes: seq<Node>, force: bool, noTests: bool, answer: Result<map<string, bool>, string>,
              ghost registry: set<string>, ghost run: seq<Async.State>, ghost g: Graph, ghost f: Forest)
    returns (err: Option<string>)
    requires Represents(graph, nodes, g, f) && (!force ==> RefAnswer(RefsOf(nodes), registry, f, run, answer))
    modifies Images(nodes)`needsRebuild, Images(nodes)`needsTests
    ensures err.Some? <==> !force && Async.AnyFailed(Async.Last(run).shared.log)
    ensures err.Some? ==> RegistryError(Async.Last(run).shared.log, err.value)
    ensures forall n: nat :: n < |nodes| && (err.Some? || n !in Nodes(f)) ==>
      nodes[n].image.needsRebuild == old(nodes[n].image.needsRebuild) &&
      nodes[n].image.needsTests == old(nodes[n].image.needsTests)
    ensures err.None? && !force ==> forall n: nat :: n < |nodes| && n in Nodes(f) ==>
      && (nodes[n].image.needsRebuild <==>
            old(nodes[n].image.needsRebuild) || nodes[n].image.name + ":" + nodes[n].image.hash !in registry)
      && (nodes[n].image.needsTests <==>
            old(nodes[n].image.needsTests) || (nodes[n].image.needsRebuild && !noTests))
    ensures force ==> forall n: nat :: n < |nodes| && n in Nodes(f) ==>
      nodes[n].image.needsRebuild && (nodes[n].image.needsTests <==> !noTests)
  {
    var refs := RefsOf(nodes);
    RepresentsHangs(graph, nodes, g, f);
    var trace := Visits(graph, nodes, g, f);
    if force {
      assert forall n: nat :: n in trace <==> n in Elems(trace);
      MarkForced(nodes, trace, noTests);
      return None;
    }
    RefAnswerExact(refs, registry, f, run, answer);
    if answer.Err? { return Some("error during api call to check registry if tag exists: " + answer.error); }
    err := PlanMissing(graph, nodes, noTests, refs, answer.value, trace, registry, g, f);
    assert forall n: nat :: n < |nodes| ==> refs[n] == nodes[n].image.name + ":" + nodes[n].image.hash;
  }
}
