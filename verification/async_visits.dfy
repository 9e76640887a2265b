// How often WalkAsyncErr can visit a node: once for each of its occurrences below the roots, and no more.
module AsyncVisits {
  import opened Wrappers
  import opened Graphs
  import opened AsyncWalk

  // How often operation k of node n was performed.
  function Count(log: seq<Event>, n: nat, k: nat): nat { multiset(log)[Did(n, k)] }

  // ---- At most once for each occurrence

  predicate Passed(v: Visit, k: nat) { v.Done? || (v.Ops? && v.k > k) }

  // The visitors of n that are through with operation k, by performing it or without.
  function Through(ts: Tasks, n: nat, k: nat): nat {
    if ts.Nil? then 0
    else (if ts.node == n && Passed(ts.visit, k) then 1 else 0) + Through(ts.kids, n, k) + Through(ts.rest, n, k)
  }

  lemma {:induction false} ThroughBound(ts: Tasks, n: nat, k: nat)
    ensures Through(ts, n, k) <= Occurrences(Skeleton(ts), n)
  {
    if ts.Cons? { ThroughBound(ts.kids, n, k); ThroughBound(ts.rest, n, k); }
  }

  lemma {:induction false} StartThrough(ts: Tasks, n: nat, k: nat)
    requires HasNew(ts)
    ensures Through(StartNext(ts), n, k) == Through(ts, n, k) && Skeleton(StartNext(ts)) == Skeleton(ts)
  {
    if !ts.phase.New? { StartThrough(ts.rest, n, k); }
  }

  lemma VisitThrough(c: Config, m: nat, v: Visit, s: Shared, v': Visit, s': Shared, n: nat, k: nat)
    requires VisitStep(c, m, v, s, v', s')
    ensures Count(s'.log, n, k) + (if m == n && Passed(v, k) then 1 else 0) <=
            Count(s.log, n, k) + (if m == n && Passed(v', k) then 1 else 0)
  {
    if v.Ops? && s' != s {
      assert s'.log == s.log + [s'.log[|s.log|]];
      assert multiset(s'.log) == multiset(s.log) + multiset{s'.log[|s.log|]};
    }
  }

  lemma {:induction false} ListThrough(c: Config, ts: Tasks, e: Option<string>, s: Shared, ts': Tasks,
                                       e': Option<string>, s': Shared,
                                       n: nat, k: nat)
    requires ListStep(c, ts, e, s, ts', e', s')
    ensures Count(s'.log, n, k) + Through(ts, n, k) <= Count(s.log, n, k) + Through(ts', n, k)
    ensures Skeleton(ts') == Skeleton(ts)
  {
    if HeadStep(c, ts, e, s, ts', e', s') {
      if SpawnStep(ts, e, s, ts', e', s') {
        if !ts.visit.Unspawned? { StartThrough(ts.kids, n, k); }
      } else if VisitStep(c, ts.node, ts.visit, s, ts'.visit, s')
                && ts' == ts.(visit := ts'.visit, err := First(ts.err, ErrOf(ts'.visit))) {
        VisitThrough(c, ts.node, ts.visit, s, ts'.visit, s', n, k);
      } else if ListStep(c, ts.kids, ts.err, s, ts'.kids, ts'.err, s') {
        ListThrough(c, ts.kids, ts.err, s, ts'.kids, ts'.err, s', n, k);
      }
    } else {
      ListThrough(c, ts.rest, e, s, ts'.rest, e', s', n, k);
    }
  }

  lemma {:induction false} PlantThrough(f: Forest, n: nat, k: nat)
    ensures Through(Plant(f), n, k) == 0 && Skeleton(Plant(f)) == f
  {
    if f.Cons? { PlantThrough(f.kids, n, k); PlantThrough(f.rest, n, k); }
  }

  lemma {:induction false} RunThrough(c: Config, f: Forest, run: seq<State>, n: nat, k: nat)
    requires Run(c, f, run)
    ensures Count(Last(run).shared.log, n, k) <= Through(Last(run).tasks, n, k) && Skeleton(Last(run).tasks) == f
  {
    if |run| == 1 {
      PlantThrough(f, n, k);
    } else {
      var i := |run| - 1;
      RunFront(c, f, run);
      RunThrough(c, f, run[..i], n, k);
      assert Step(c, run[i-1], run[i-1+1]);
      if HasNew(run[i-1].tasks) && run[i] == run[i-1].(tasks := StartNext(run[i-1].tasks)) {
        StartThrough(run[i-1].tasks, n, k);
      } else {
        ListThrough(c, run[i-1].tasks, run[i-1].err, run[i-1].shared, run[i].tasks, run[i].err, run[i].shared, n, k);
      }
    }
  }

  lemma RunFront(c: Config, f: Forest, run: seq<State>)
    requires Run(c, f, run) && |run| > 1
    ensures Run(c, f, run[..|run|-1])
  {
    var front := run[..|run|-1];
    forall i: nat | i + 1 < |front| ensures Step(c, front[i], front[i+1]) { assert Step(c, run[i], run[i+1]); }
  }

  // In every run, no operation of a node is performed more often than the node occurs below the roots.
  lemma AtMostOccurrences(c: Config, f: Forest, run: seq<State>, n: nat, k: nat)
    requires Run(c, f, run)
    ensures Count(Last(run).shared.log, n, k) <= Occurrences(f, n)
  {
    RunThrough(c, f, run, n, k);
    ThroughBound(Last(run).tasks, n, k);
  }

  // ---- The unique visitor: who comes after the entry does nothing

  // Between the lookup that found nothing and operation k.
  predicate Admitted(v: Visit, k: nat) { v.Store? || v.Test? || (v.Ops? && v.k <= k) }

  // The visitors of n that can still perform operation k without looking n up.
  function Open(ts: Tasks, n: nat, k: nat): nat {
    if ts.Nil? then 0
    else (if ts.node == n && Admitted(ts.visit, k) then 1 else 0) + Open(ts.kids, n, k) + Open(ts.rest, n, k)
  }

  lemma {:induction false} StartOpen(ts: Tasks, n: nat, k: nat)
    requires HasNew(ts)
    ensures Open(StartNext(ts), n, k) == Open(ts, n, k)
  {
    if !ts.phase.New? { StartOpen(ts.rest, n, k); }
  }

  lemma VisitOpen(c: Config, m: nat, v: Visit, s: Shared, v': Visit, s': Shared, n: nat, k: nat)
    requires VisitStep(c, m, v, s, v', s') && n in s.visited
    ensures n in s'.visited
    ensures Count(s'.log, n, k) + (if m == n && Admitted(v', k) then 1 else 0) <=
            Count(s.log, n, k) + (if m == n && Admitted(v, k) then 1 else 0)
  {
    if v.Ops? && s' != s {
      assert s'.log == s.log + [s'.log[|s.log|]];
      assert multiset(s'.log) == multiset(s.log) + multiset{s'.log[|s.log|]};
    }
  }

  lemma {:induction false} ListOpen(c: Config, ts: Tasks, e: Option<string>, s: Shared, ts': Tasks, e': Option<string>,
                                    s': Shared, n: nat, k: nat)
    requires ListStep(c, ts, e, s, ts', e', s') && n in s.visited
    ensures n in s'.visited && Count(s'.log, n, k) + Open(ts', n, k) <= Count(s.log, n, k) + Open(ts, n, k)
  {
    if HeadStep(c, ts, e, s, ts', e', s') {
      if SpawnStep(ts, e, s, ts', e', s') {
        if !ts.visit.Unspawned? { StartOpen(ts.kids, n, k); }
      } else if VisitStep(c, ts.node, ts.visit, s, ts'.visit, s')
                && ts' == ts.(visit := ts'.visit, err := First(ts.err, ErrOf(ts'.visit))) {
        VisitOpen(c, ts.node, ts.visit, s, ts'.visit, s', n, k);
      } else if ListStep(c, ts.kids, ts.err, s, ts'.kids, ts'.err, s') {
        ListOpen(c, ts.kids, ts.err, s, ts'.kids, ts'.err, s', n, k);
      }
    } else {
      ListOpen(c, ts.rest, e, s, ts'.rest, e', s', n, k);
    }
  }

  // Once n has been entered into the map, only the visitors that looked it up before can still perform anything on it.
  lemma {:induction false} EntryCloses(c: Config, f: Forest, run: seq<State>, i: nat, n: nat, k: nat)
    requires Run(c, f, run) && i < |run| && n in run[i].shared.visited
    ensures n in Last(run).shared.visited
    ensures Count(Last(run).shared.log, n, k) + Open(Last(run).tasks, n, k) <=
            Count(run[i].shared.log, n, k) + Open(run[i].tasks, n, k)
  {
    if i + 1 < |run| {
      var j := |run| - 1;
      RunFront(c, f, run);
      EntryCloses(c, f, run[..j], i, n, k);
      assert Step(c, run[j-1], run[j-1+1]);
      if HasNew(run[j-1].tasks) && run[j] == run[j-1].(tasks := StartNext(run[j-1].tasks)) {
        StartOpen(run[j-1].tasks, n, k);
      } else {
        ListOpen(c, run[j-1].tasks, run[j-1].err, run[j-1].shared, run[j].tasks, run[j].err, run[j].shared, n, k);
      }
    }
  }

  // ---- Runs of a list

  ghost predicate ListRun(c: Config, run: seq<State>) {
    run != [] && forall i: nat {:trigger run[i]} :: i + 1 < |run| ==> Moves(c, run[i], run[i+1])
  }

  predicate Moves(c: Config, s: State, s': State) {
    ListStep(c, s.tasks, s.err, s.shared, s'.tasks, s'.err, s'.shared)
  }

  ghost predicate Leads(c: Config, s: State, s': State) {
    exists run :: ListRun(c, run) && run[0] == s && Last(run) == s'
  }

  lemma LeadsSelf(c: Config, s: State)
    ensures Leads(c, s, s)
  {
    assert ListRun(c, [s]) && Last([s]) == s;
  }

  lemma LeadsOn(c: Config, s: State, s': State, s'': State)
    requires Leads(c, s, s') && Moves(c, s', s'')
    ensures Leads(c, s, s'')
  {
    var run: seq<State> :| ListRun(c, run) && run[0] == s && Last(run) == s';
    var more := run + [s''];
    forall i: nat | i + 1 < |more| ensures Moves(c, more[i], more[i+1]) {
      if i + 1 < |run| { assert Moves(c, run[i], run[i+1]); }
    }
    assert ListRun(c, more) && more[0] == s && Last(more) == s'';
  }

  lemma LeadsThen(c: Config, s: State, s': State, s'': State)
    requires Leads(c, s, s') && Leads(c, s', s'')
    ensures Leads(c, s, s'')
  {
    var a: seq<State> :| ListRun(c, a) && a[0] == s && Last(a) == s';
    var b: seq<State> :| ListRun(c, b) && b[0] == s' && Last(b) == s'';
    var run := a + b[1..];
    forall i: nat | i + 1 < |run| ensures Moves(c, run[i], run[i+1]) {
      if i + 1 < |a| {
        assert Moves(c, a[i], a[i+1]);
      } else {
        assert run[i] == b[i + 1 - |a|] && run[i+1] == b[i + 1 - |a| + 1];
        assert Moves(c, b[i + 1 - |a|], b[i + 1 - |a| + 1]);
      }
    }
    assert ListRun(c, run) && run[0] == s && Last(run) == s'';
  }

  // A goroutine that is running lets its children move, and those behind it in the list.
  function WithKids(ts: Tasks, e: Option<string>, s: State): State
    requires ts.Cons?
  {
    State(ts.(kids := s.tasks, err := s.err), e, s.shared)
  }

  function WithRest(ts: Tasks, s: State): State
    requires ts.Cons?
  {
    State(ts.(rest := s.tasks), s.err, s.shared)
  }

  lemma LeadsKids(c: Config, ts: Tasks, e: Option<string>, s: State, s': State)
    requires ts.Cons? && ts.phase.Running? && Leads(c, s, s')
    ensures Leads(c, WithKids(ts, e, s), WithKids(ts, e, s'))
  {
    var run: seq<State> :| ListRun(c, run) && run[0] == s && Last(run) == s';
    var up := seq(|run|, i requires 0 <= i < |run| => WithKids(ts, e, run[i]));
    forall i: nat | i + 1 < |up| ensures Moves(c, up[i], up[i+1]) {
      assert Moves(c, run[i], run[i+1]);
      assert HeadStep(c, up[i].tasks, e, run[i].shared, up[i+1].tasks, e, run[i+1].shared);
    }
    assert ListRun(c, up) && up[0] == WithKids(ts, e, s) && Last(up) == WithKids(ts, e, s');
  }

  lemma LeadsRest(c: Config, ts: Tasks, s: State, s': State)
    requires ts.Cons? && Leads(c, s, s')
    ensures Leads(c, WithRest(ts, s), WithRest(ts, s'))
  {
    var run: seq<State> :| ListRun(c, run) && run[0] == s && Last(run) == s';
    var up := seq(|run|, i requires 0 <= i < |run| => WithRest(ts, run[i]));
    forall i: nat | i + 1 < |up| ensures Moves(c, up[i], up[i+1]) {
      assert Moves(c, run[i], run[i+1]);
    }
    assert ListRun(c, up) && up[0] == WithRest(ts, s) && Last(up) == WithRest(ts, s');
  }

  // ---- A schedule that first starts everything

  const NONE := Shared({}, [])

  // The first i goroutines of the list have been started.
  function StartFirst(f: Forest, i: nat): Tasks {
    if f.Nil? then Tasks.Nil
    else
      var left := if i > 0 then i - 1 else 0;
      Tasks.Cons(f.node, if i > 0 then Running else New, Unspawned, None, Plant(f.kids), StartFirst(f.rest, left))
  }

  lemma {:induction false} StartFirstNone(f: Forest)
    ensures StartFirst(f, 0) == Plant(f)
  {
    if f.Cons? { StartFirstNone(f.rest); }
  }

  lemma {:induction false} StartFirstNext(f: Forest, i: nat)
    requires i < |Heads(f)|
    ensures HasNew(StartFirst(f, i)) && StartNext(StartFirst(f, i)) == StartFirst(f, i + 1)
  {
    if i > 0 { StartFirstNext(f.rest, i - 1); } else { StartFirstNone(f.rest); }
  }

  function Started(f: Forest): Tasks { StartFirst(f, |Heads(f)|) }

  lemma StartedCons(f: Forest)
    requires f.Cons?
    ensures Started(f) == Tasks.Cons(f.node, Running, Unspawned, None, Plant(f.kids), Started(f.rest))
  {
    assert |Heads(f)| == 1 + |Heads(f.rest)|;
  }

  // Everything is running and every visitor is about to look its node up.
  function Spawned(f: Forest): Tasks {
    if f.Nil? then Tasks.Nil else Tasks.Cons(f.node, Running, Load, None, Spawned(f.kids), Spawned(f.rest))
  }

  function Still(ts: Tasks): State { State(ts, None, NONE) }

  lemma LeadsStarted(c: Config, f: Forest, rest: Tasks, i: nat)
    requires f.Cons? && i <= |Heads(f.kids)|
    ensures Leads(c, Still(Tasks.Cons(f.node, Running, Unspawned, None, Plant(f.kids), rest)),
                     Still(Tasks.Cons(f.node, Running, Load, None, StartFirst(f.kids, i), rest)))
  {
    var s := Still(Tasks.Cons(f.node, Running, Unspawned, None, Plant(f.kids), rest));
    var now := s.tasks.(visit := Load);
    LeadsSelf(c, s);
    assert HeadStep(c, s.tasks, None, NONE, now, None, NONE);
    LeadsOn(c, s, s, Still(now));
    StartFirstNone(f.kids);
    for j := 0 to i
      invariant Leads(c, s, Still(s.tasks.(visit := Load, kids := StartFirst(f.kids, j))))
    {
      var a, b := s.tasks.(visit := Load, kids := StartFirst(f.kids, j)), s.tasks.(visit := Load,
          kids := StartFirst(f.kids, j + 1));
      StartFirstNext(f.kids, j);
      assert HeadStep(c, a, None, NONE, b, None, NONE);
      LeadsOn(c, s, Still(a), Still(b));
    }
  }

  lemma {:induction false} LeadsSpawned(c: Config, f: Forest)
    ensures Leads(c, Still(Started(f)), Still(Spawned(f)))
    decreases f
  {
    if f.Nil? {
      LeadsSelf(c, Still(Started(f)));
    } else {
      StartedCons(f);
      var rest := Started(f.rest);
      LeadsStarted(c, f, rest, |Heads(f.kids)|);
      var a := Tasks.Cons(f.node, Running, Load, None, Started(f.kids), rest);
      LeadsSpawned(c, f.kids);
      LeadsKids(c, a, None, Still(Started(f.kids)), Still(Spawned(f.kids)));
      var b := a.(kids := Spawned(f.kids));
      LeadsThen(c, Still(Started(f)), Still(a), Still(b));
      LeadsSpawned(c, f.rest);
      LeadsRest(c, b, Still(rest), Still(Spawned(f.rest)));
      LeadsThen(c, Still(Started(f)), Still(b), Still(Spawned(f)));
    }
  }

  // ---- The visitors of one node

  predicate AllRunning(ts: Tasks) { ts.Cons? ==> ts.phase.Running? && AllRunning(ts.kids) && AllRunning(ts.rest) }

  function Own(ts: Tasks, n: nat): nat
    requires ts.Cons?
  {
    if ts.node == n then 1 else 0
  }

  function Visitors(ts: Tasks, n: nat): nat {
    if ts.Nil? then 0 else Own(ts, n) + Visitors(ts.kids, n) + Visitors(ts.rest, n)
  }

  function VisitAt(ts: Tasks, n: nat, i: nat): Visit
    requires i < Visitors(ts, n)
  {
    var own, below := Own(ts, n), Visitors(ts.kids, n);
    if i < own then ts.visit
    else if i < own + below then VisitAt(ts.kids, n, i - own)
    else VisitAt(ts.rest, n, i - own - below)
  }

  function SetVisit(ts: Tasks, n: nat, i: nat, v: Visit): Tasks
    requires i < Visitors(ts, n)
  {
    var own, below := Own(ts, n), Visitors(ts.kids, n);
    if i < own then ts.(visit := v)
    else if i < own + below then ts.(kids := SetVisit(ts.kids, n, i - own, v))
    else ts.(rest := SetVisit(ts.rest, n, i - own - below, v))
  }

  lemma {:induction false} SetKeeps(ts: Tasks, n: nat, i: nat, v: Visit)
    requires i < Visitors(ts, n) && AllRunning(ts)
    ensures Visitors(SetVisit(ts, n, i, v), n) == Visitors(ts, n) && AllRunning(SetVisit(ts, n, i, v))
  {
    var own, below := Own(ts, n), Visitors(ts.kids, n);
    if own <= i < own + below {
      SetKeeps(ts.kids, n, i - own, v);
    } else if own + below <= i {
      SetKeeps(ts.rest, n, i - own - below, v);
    }
  }

  lemma {:induction false} SetThenAt(ts: Tasks, n: nat, i: nat, v: Visit, j: nat)
    requires i < Visitors(ts, n) && j < Visitors(ts, n) && AllRunning(ts)
    ensures Visitors(SetVisit(ts, n, i, v), n) == Visitors(ts, n)
    ensures VisitAt(SetVisit(ts, n, i, v), n, j) == if i == j then v else VisitAt(ts, n, j)
    decreases ts, 1
  {
    SetKeeps(ts, n, i, v);
    var own, below := Own(ts, n), Visitors(ts.kids, n);
    if own <= i < own + below {
      SetInKids(ts, n, i, v, j);
    } else if own + below <= i {
      SetInRest(ts, n, i, v, j);
    }
  }

  lemma KidsAt(ts: Tasks, kids: Tasks, n: nat, j: nat)
    requires ts.Cons? && Visitors(kids, n) == Visitors(ts.kids, n) && j < Visitors(ts, n)
    ensures Visitors(ts.(kids := kids), n) == Visitors(ts, n)
    ensures VisitAt(ts.(kids := kids), n, j) ==
      if Own(ts, n) <= j < Own(ts, n) + Visitors(kids, n) then VisitAt(kids, n, j - Own(ts, n)) else VisitAt(ts, n, j)
  {}

  lemma RestAt(ts: Tasks, rest: Tasks, n: nat, j: nat)
    requires ts.Cons? && Visitors(rest, n) == Visitors(ts.rest, n) && j < Visitors(ts, n)
    ensures Visitors(ts.(rest := rest), n) == Visitors(ts, n)
    ensures var before := Own(ts, n) + Visitors(ts.kids, n);
      VisitAt(ts.(rest := rest), n, j) == if before <= j then VisitAt(rest, n, j - before) else VisitAt(ts, n, j)
  {}

  lemma SetInKids(ts: Tasks, n: nat, i: nat, v: Visit, j: nat)
    requires ts.Cons? && i < Visitors(ts, n) && j < Visitors(ts, n) && AllRunning(ts)
    requires Own(ts, n) <= i < Own(ts, n) + Visitors(ts.kids, n)
    ensures Visitors(SetVisit(ts, n, i, v), n) == Visitors(ts, n)
    ensures VisitAt(SetVisit(ts, n, i, v), n, j) == if i == j then v else VisitAt(ts, n, j)
    decreases ts, 0
  {
    var own, below := Own(ts, n), Visitors(ts.kids, n);
    var kids := SetVisit(ts.kids, n, i - own, v);
    SetKeeps(ts.kids, n, i - own, v);
    KidsAt(ts, kids, n, j);
    if own <= j < own + below { SetThenAt(ts.kids, n, i - own, v, j - own); }
  }

  lemma SetInRest(ts: Tasks, n: nat, i: nat, v: Visit, j: nat)
    requires ts.Cons? && i < Visitors(ts, n) && j < Visitors(ts, n) && AllRunning(ts)
    requires Own(ts, n) + Visitors(ts.kids, n) <= i
    ensures Visitors(SetVisit(ts, n, i, v), n) == Visitors(ts, n)
    ensures VisitAt(SetVisit(ts, n, i, v), n, j) == if i == j then v else VisitAt(ts, n, j)
    decreases ts, 0
  {
    var before := Own(ts, n) + Visitors(ts.kids, n);
    var rest := SetVisit(ts.rest, n, i - before, v);
    SetKeeps(ts.rest, n, i - before, v);
    assert SetVisit(ts, n, i, v) == ts.(rest := rest);
    RestAt(ts, rest, n, j);
    if before <= j { SetThenAt(ts.rest, n, i - before, v, j - before); }
  }

  // Any one of them can make its step, wherever it is.
  lemma {:induction false} SetMoves(c: Config, ts: Tasks, e: Option<string>, sh: Shared, n: nat, i: nat, v: Visit,
                                    sh': Shared)
    requires i < Visitors(ts, n) && AllRunning(ts) && VisitStep(c, n, VisitAt(ts, n, i), sh, v, sh') && ErrOf(v).None?
    ensures ListStep(c, ts, e, sh, SetVisit(ts, n, i, v), e, sh')
  {
    var own, below := Own(ts, n), Visitors(ts.kids, n);
    var ts' := SetVisit(ts, n, i, v);
    if i < own {
      assert ts' == ts.(visit := v, err := First(ts.err, ErrOf(v)));
      assert HeadStep(c, ts, e, sh, ts', e, sh');
    } else if i < own + below {
      SetMoves(c, ts.kids, ts.err, sh, n, i - own, v, sh');
      assert HeadStep(c, ts, e, sh, ts', e, sh');
    } else {
      SetMoves(c, ts.rest, e, sh, n, i - own - below, v, sh');
    }
  }

  lemma {:induction false} SpawnedVisits(f: Forest, n: nat)
    ensures AllRunning(Spawned(f)) && Visitors(Spawned(f), n) == Occurrences(f, n)
    ensures forall i: nat :: i < Occurrences(f, n) ==> VisitAt(Spawned(f), n, i) == Load
  {
    if f.Cons? { SpawnedVisits(f.kids, n); SpawnedVisits(f.rest, n); }
  }

  // ---- All visitors of a node, one after the other, through the same step

  function Iterate(next: Shared -> Shared, i: nat, sh: Shared): Shared {
    if i == 0 then sh else next(Iterate(next, i - 1, sh))
  }

  ghost predicate AllAt(s: State, n: nat, m: nat, v: Visit) {
    AllRunning(s.tasks) && Visitors(s.tasks, n) == m && forall i: nat :: i < m ==> VisitAt(s.tasks, n, i) == v
  }

  ghost predicate SomeAt(s: State, n: nat, m: nat, i: nat, a: Visit, b: Visit) {
    && AllRunning(s.tasks) && Visitors(s.tasks, n) == m
    && (forall j: nat :: j < m ==> VisitAt(s.tasks, n, j) == if j < i then b else a)
  }

  // From a to b, while the shared state satisfies good.
  ghost predicate Goes(c: Config, n: nat, a: Visit, b: Visit, next: Shared -> Shared, good: Shared -> bool) {
    ErrOf(b).None? && forall sh :: good(sh) ==> good(next(sh)) && VisitStep(c, n, a, sh, b, next(sh))
  }

  lemma OneMore(s: State, s': State, n: nat, m: nat, i: nat, a: Visit, b: Visit)
    requires SomeAt(s, n, m, i, a, b) && i < m && s'.tasks == SetVisit(s.tasks, n, i, b)
    ensures SomeAt(s', n, m, i + 1, a, b)
  {
    SetKeeps(s.tasks, n, i, b);
    forall j: nat | j < m ensures VisitAt(s'.tasks, n, j) == if j < i + 1 then b else a {
      SetThenAt(s.tasks, n, i, b, j);
    }
  }

  lemma AllGo(c: Config, s: State, n: nat, m: nat, a: Visit, b: Visit, next: Shared -> Shared,
              good: Shared -> bool) returns (s': State)
    requires AllAt(s, n, m, a) && good(s.shared) && Goes(c, n, a, b, next, good)
    ensures Leads(c, s, s') && AllAt(s', n, m, b) && good(s'.shared) && s'.shared == Iterate(next, m, s.shared)
  {
    s' := s;
    LeadsSelf(c, s);
    for i := 0 to m
      invariant Leads(c, s, s') && SomeAt(s', n, m, i, a, b) && good(s'.shared)
      invariant s'.shared == Iterate(next, i, s.shared)
    {
      var now := State(SetVisit(s'.tasks, n, i, b), s'.err, next(s'.shared));
      SetMoves(c, s'.tasks, s'.err, s'.shared, n, i, b, next(s'.shared));
      LeadsOn(c, s, s', now);
      OneMore(s', now, n, m, i, a, b);
      s' := now;
    }
  }

  lemma {:induction false} IterateSame(i: nat, sh: Shared)
    ensures Iterate(Same(), i, sh) == sh
  {
    if i > 0 { IterateSame(i - 1, sh); }
  }

  function Entered(n: nat): Shared -> Shared { (sh: Shared) => sh.(visited := sh.visited + {n}) }

  function Performs(n: nat): Shared -> Shared { (sh: Shared) => sh.(log := sh.log + [Did(n, 0)]) }

  lemma {:induction false} IteratePerforms(n: nat, i: nat, sh: Shared)
    ensures Count(Iterate(Performs(n), i, sh).log, n, 0) == Count(sh.log, n, 0) + i
  {
    if i > 0 {
      IteratePerforms(n, i - 1, sh);
      var log := Iterate(Performs(n), i - 1, sh).log;
      assert multiset(log + [Did(n, 0)]) == multiset(log) + multiset{Did(n, 0)};
    }
  }

  // The visitor of n does something when it is called.
  predicate Works(c: Config, n: nat) { n < |c.ops| && c.ops[n] != [] && !(c.guarded && n in c.done) }

  function Unseen(n: nat): Shared -> bool { (sh: Shared) => n !in sh.visited && sh.log == [] }

  function Unlogged(): Shared -> bool { (sh: Shared) => sh.log == [] }

  function Any(): Shared -> bool { (sh: Shared) => true }

  function Same(): Shared -> Shared { (sh: Shared) => sh }

  lemma Transitions(c: Config, n: nat)
    requires Works(c, n)
    ensures Goes(c, n, Load, Store, Same(), Unseen(n)) && Goes(c, n, Store, Test, Entered(n), Unlogged())
    ensures Goes(c, n, Test, Ops(0), Same(), Unlogged()) && Goes(c, n, Ops(0), Ops(1), Performs(n), Any())
  {}

  lemma AllEnter(c: Config, s: State, n: nat, m: nat) returns (s': State)
    requires Works(c, n) && AllAt(s, n, m, Load) && s.shared == NONE
    ensures Leads(c, s, s') && AllAt(s', n, m, Ops(0)) && s'.shared.log == []
  {
    Transitions(c, n);
    var s1 := AllGo(c, s, n, m, Load, Store, Same(), Unseen(n));
    IterateSame(m, NONE);
    var s2 := AllGo(c, s1, n, m, Store, Test, Entered(n), Unlogged());
    LeadsThen(c, s, s1, s2);
    s' := AllGo(c, s2, n, m, Test, Ops(0), Same(), Unlogged());
    LeadsThen(c, s, s2, s');
  }

  lemma AllPerform(c: Config, f: Forest, n: nat) returns (s: State)
    requires Works(c, n)
    ensures Leads(c, Still(Spawned(f)), s) && Count(s.shared.log, n, 0) == Occurrences(f, n)
  {
    var m, start := Occurrences(f, n), Still(Spawned(f));
    SpawnedVisits(f, n);
    Transitions(c, n);
    var ready := AllEnter(c, start, n, m);
    s := AllGo(c, ready, n, m, Ops(0), Ops(1), Performs(n), Any());
    LeadsThen(c, start, ready, s);
    IteratePerforms(n, m, ready.shared);
  }

  lemma RunOnLeads(c: Config, f: Forest, run: seq<State>, s: State) returns (run': seq<State>)
    requires Run(c, f, run) && Leads(c, Last(run), s)
    ensures Run(c, f, run') && Last(run') == s
  {
    var tail: seq<State> :| ListRun(c, tail) && tail[0] == Last(run) && Last(tail) == s;
    run' := run + tail[1..];
    forall i: nat | i + 1 < |run'| ensures Step(c, run'[i], run'[i+1]) {
      if i + 1 < |run| {
        assert Step(c, run[i], run[i+1]);
      } else {
        assert run'[i] == tail[i + 1 - |run|] && run'[i+1] == tail[i + 1 - |run| + 1];
        assert Moves(c, tail[i + 1 - |run|], tail[i + 1 - |run| + 1]);
      }
    }
  }

  lemma StartRun(c: Config, f: Forest) returns (run: seq<State>)
    ensures Run(c, f, run) && Last(run) == Still(Started(f))
  {
    StartFirstNone(f);
    run := [Init(f)];
    for i := 0 to |Heads(f)|
      invariant Run(c, f, run) && Last(run) == Still(StartFirst(f, i))
    {
      StartFirstNext(f, i);
      RunOn(c, f, run, Still(StartFirst(f, i + 1)));
      run := run + [Still(StartFirst(f, i + 1))];
    }
  }

  // The bound is met: some run performs the first operation of a node once for each of its occurrences.
  lemma OccurrencesReached(c: Config, f: Forest, n: nat) returns (run: seq<State>)
    requires Works(c, n)
    ensures Run(c, f, run) && Count(Last(run).shared.log, n, 0) == Occurrences(f, n)
  {
    run := StartRun(c, f);
    LeadsSpawned(c, f);
    var s := AllPerform(c, f, n);
    LeadsThen(c, Still(Started(f)), Still(Spawned(f)), s);
    run := RunOnLeads(c, f, run, s);
  }

  // ---- Exactly when nothing is done twice

  // In every run, no operation of n is performed twice.
  ghost predicate OnceOnly(c: Config, f: Forest, n: nat) {
    forall run, k: nat :: Run(c, f, run) ==> Count(Last(run).shared.log, n, k) <= 1
  }

  lemma OnceOnlyIff(c: Config, f: Forest, n: nat)
    requires Works(c, n) && n in Nodes(f)
    ensures OnceOnly(c, f, n) <==> Occurrences(f, n) == 1
  {
    OccursInNodes(f, n);
    if Occurrences(f, n) == 1 {
      forall run, k: nat | Run(c, f, run) ensures Count(Last(run).shared.log, n, k) <= 1 {
        AtMostOccurrences(c, f, run, n, k);
      }
    } else {
      var run := OccurrencesReached(c, f, n);
      assert Count(Last(run).shared.log, n, 0) > 1;
    }
  }

  // For all nodes of a graph at once: iff no node has two parent entries.
  lemma OnceOnlyGraph(c: Config, g: Graph, rank: seq<nat>, f: Forest)
    requires Ranked(g, rank) && Balanced(g) && Unfolds(g, f) && forall n: nat :: n < g.Size() ==> Works(c, n)
    ensures (forall n: nat :: n < g.Size() ==> OnceOnly(c, f, n)) <==>
      forall n: nat :: n < g.Size() ==> |g.parents[n]| <= 1
  {
    OnceIff(g, rank, f);
    if forall n: nat :: n < g.Size() ==> |g.parents[n]| <= 1 {
      forall n: nat | n < g.Size() ensures OnceOnly(c, f, n) { NodeOnceIff(c, g, rank, f, n); }
    } else {
      var n: nat :| n < g.Size() && Occurrences(f, n) != 1;
      NodeOnceIff(c, g, rank, f, n);
    }
  }

  lemma NodeOnceIff(c: Config, g: Graph, rank: seq<nat>, f: Forest, n: nat)
    requires Ranked(g, rank) && Unfolds(g, f) && n < g.Size() && Works(c, n)
    ensures OnceOnly(c, f, n) <==> Occurrences(f, n) == 1
  {
    EveryNodeUnfolded(g, rank, f, n);
    OnceOnlyIff(c, f, n);
  }
}
