// WalkAsyncErr: one goroutine per visit and per recursive call, an error group around each list of them,
// and a unique visitor whose Load and Store are two separate steps.
module AsyncWalk {
  import opened Wrappers
  import opened Graphs

  // The visitor of node n performs the operations ops[n] in order; the flag says whether one can fail.
  // A guarded visitor returns early on an image whose done flag is set, and sets that flag by its last operation;
  // done holds the nodes whose flag was set before the walk.
  datatype Config = Config(ops: seq<seq<bool>>, guarded: bool, done: set<nat>)

  datatype Event = Did(n: nat, k: nat) | Failed(n: nat, k: nat, error: string)

  // What the goroutines share: the map of the unique visitor and the operations performed so far.
  datatype Shared = Shared(visited: set<nat>, log: seq<Event>)

  datatype Visit =
    | Unspawned
    | Load                       // about to look the node up
    | Store                      // not found: about to enter it
    | Test                       // about to read the done flag
    | Ops(k: nat)                // about to perform operation k, or through with all
    | Done(err: Option<string>)

  datatype Phase = New | Running | Ended

  // A list of walkAsyncErr calls. err is the first error reported to the group around visit and kids.
  datatype Tasks = Nil | Cons(node: nat, phase: Phase, visit: Visit, err: Option<string>, kids: Tasks, rest: Tasks)

  function Plant(f: Forest): Tasks {
    if f.Nil? then Tasks.Nil else Tasks.Cons(f.node, New, Unspawned, None, Plant(f.kids), Plant(f.rest))
  }

  function Skeleton(ts: Tasks): Forest {
    if ts.Nil? then Forest.Nil else Forest.Cons(ts.node, Skeleton(ts.kids), Skeleton(ts.rest))
  }

  predicate HasNew(ts: Tasks) { ts.Cons? && (ts.phase.New? || HasNew(ts.rest)) }

  predicate AllEnded(ts: Tasks) { ts.Cons? ==> ts.phase.Ended? && AllEnded(ts.rest) }

  // The loop over the list starts the next goroutine.
  function StartNext(ts: Tasks): Tasks
    requires HasNew(ts)
  {
    if ts.phase.New? then ts.(phase := Running) else ts.(rest := StartNext(ts.rest))
  }

  function First(e: Option<string>, e': Option<string>): Option<string> { if e.Some? then e else e' }

  predicate Flagged(c: Config, log: seq<Event>, n: nat)
    requires n < |c.ops|
  {
    c.guarded && (n in c.done || (c.ops[n] != [] && Did(n, |c.ops[n]| - 1) in log))
  }

  predicate VisitStep(c: Config, n: nat, v: Visit, s: Shared, v': Visit, s': Shared) {
    n < |c.ops| &&
    match v
    case Load => s' == s && v' == if n in s.visited then Done(None) else Store
    case Store => s' == s.(visited := s.visited + {n}) && v' == Test
    case Test => s' == s && v' == if Flagged(c, s.log, n) then Done(None) else Ops(0)
    case Ops(k) =>
      if k >= |c.ops[n]| then s' == s && v' == Done(None)
      else || (s' == s.(log := s.log + [Did(n, k)]) && v' == Ops(k + 1))
           || (c.ops[n][k] && v'.Done? && v'.err.Some? && s' == s.(log := s.log + [Failed(n, k, v'.err.value)]))
    case _ => false
  }

  function ErrOf(v: Visit): Option<string> { if v.Done? then v.err else None }

  // One step of some goroutine of the list; e is the first error of the group around the list.
  predicate ListStep(c: Config, ts: Tasks, e: Option<string>, s: Shared, ts': Tasks, e': Option<string>, s': Shared)
    decreases ts, 1
  {
    && ts.Cons? && ts'.Cons?
    && (|| HeadStep(c, ts, e, s, ts', e', s')
        || (ts' == ts.(rest := ts'.rest) && ListStep(c, ts.rest, e, s, ts'.rest, e', s')))
  }

  // One step of the first goroutine of the list or of one it has started.
  predicate HeadStep(c: Config, ts: Tasks, e: Option<string>, s: Shared, ts': Tasks, e': Option<string>, s': Shared)
    requires ts.Cons? && ts'.Cons?
    decreases ts, 0
  {
    && ts.phase.Running?
    && (|| SpawnStep(ts, e, s, ts', e', s')
        || (VisitStep(c, ts.node, ts.visit, s, ts'.visit, s') && e' == e &&
            ts' == ts.(visit := ts'.visit, err := First(ts.err, ErrOf(ts'.visit))))
        || (ListStep(c, ts.kids, ts.err, s, ts'.kids, ts'.err, s') && e' == e &&
            ts' == ts.(kids := ts'.kids, err := ts'.err))
        || EndStep(ts, e, s, ts', e', s'))
  }

  // The visitor is started first, then the children one by one.
  predicate SpawnStep(ts: Tasks, e: Option<string>, s: Shared, ts': Tasks, e': Option<string>, s': Shared)
    requires ts.Cons?
  {
    && e' == e && s' == s
    && if ts.visit.Unspawned? then ts' == ts.(visit := Load)
       else HasNew(ts.kids) && ts' == ts.(kids := StartNext(ts.kids))
  }

  // Wait returns only when everything in the group has ended.
  predicate EndStep(ts: Tasks, e: Option<string>, s: Shared, ts': Tasks, e': Option<string>, s': Shared)
    requires ts.Cons?
  {
    ts.visit.Done? && AllEnded(ts.kids) && ts' == ts.(phase := Ended) && e' == First(e, ts.err) && s' == s
  }

  datatype State = State(tasks: Tasks, err: Option<string>, shared: Shared)

  function Init(f: Forest): State { State(Plant(f), None, Shared({}, [])) }

  predicate Step(c: Config, s: State, s': State) {
    || (HasNew(s.tasks) && s' == s.(tasks := StartNext(s.tasks)))
    || ListStep(c, s.tasks, s.err, s.shared, s'.tasks, s'.err, s'.shared)
  }

  // WalkAsyncErr has returned, with err as its result.
  predicate Final(s: State) { AllEnded(s.tasks) }

  ghost predicate Run(c: Config, f: Forest, run: seq<State>) {
    run != [] && run[0] == Init(f) && forall i: nat {:trigger run[i]} :: i + 1 < |run| ==> Step(c, run[i], run[i+1])
  }

  function Last(run: seq<State>): State
    requires run != []
  {
    run[|run|-1]
  }

  ghost predicate Covers(c: Config, f: Forest) { forall n :: n in Nodes(f) ==> n < |c.ops| }

  // ---- What a walk guarantees about the operations performed

  ghost predicate Complete(c: Config, log: seq<Event>, n: nat)
    requires n < |c.ops|
  {
    (c.guarded && n in c.done) || forall k :: 0 <= k < |c.ops[n]| ==> Did(n, k) in log
  }

  // Every operation performed belongs to a node of f and follows the one before it on the same node.
  ghost predicate Ordered(c: Config, f: Forest, log: seq<Event>) {
    forall i :: 0 <= i < |log| && log[i].Did? ==>
      log[i].n in Nodes(f) && log[i].n < |c.ops| && log[i].k < |c.ops[log[i].n]| &&
      (log[i].k > 0 ==> Did(log[i].n, log[i].k - 1) in log[..i])
  }

  ghost predicate ErrIn(log: seq<Event>, e: string) {
    exists i :: 0 <= i < |log| && log[i].Failed? && log[i].error == e
  }

  ghost predicate AnyFailed(log: seq<Event>) { exists i :: 0 <= i < |log| && log[i].Failed? }

  ghost predicate FailedOf(log: seq<Event>, n: nat) { exists i :: 0 <= i < |log| && log[i].Failed? && log[i].n == n }

  // ---- The invariant of a list

  predicate VisitGood(c: Config, n: nat, v: Visit, s: Shared) {
    && n < |c.ops|
    && (v.Test? || v.Ops? || v.Done? ==> n in s.visited)
    && (v.Ops? ==> v.k <= |c.ops[n]| && forall j :: 0 <= j < v.k ==> Did(n, j) in s.log)
  }

  ghost predicate Good(c: Config, ts: Tasks, e: Option<string>, s: Shared) {
    ts.Cons? ==>
      && VisitGood(c, ts.node, ts.visit, s)
      && (ts.phase.Ended? ==> ts.visit.Done? && AllEnded(ts.kids) && (ts.err.Some? ==> e.Some?))
      && (ErrOf(ts.visit).Some? ==> ts.err.Some? && FailedOf(s.log, ts.node))
      && (ts.err.Some? ==> ErrIn(s.log, ts.err.value))
      && Good(c, ts.kids, ts.err, s)
      && Good(c, ts.rest, e, s)
  }

  ghost predicate Extends(s: Shared, s': Shared) { s.visited <= s'.visited && s.log <= s'.log }

  lemma {:induction false} GoodKept(c: Config, ts: Tasks, e: Option<string>, s: Shared, e': Option<string>, s': Shared)
    requires Good(c, ts, e, s) && Extends(s, s') && (e.Some? ==> e'.Some?)
    ensures Good(c, ts, e', s')
  {
    if ts.Cons? {
      if ts.err.Some? { ErrKept(s.log, s'.log, ts.err.value); }
      FailedKept(s.log, s'.log, ts.node);
      GoodKept(c, ts.kids, ts.err, s, ts.err, s');
      GoodKept(c, ts.rest, e, s, e', s');
    }
  }

  lemma ErrKept(log: seq<Event>, log': seq<Event>, e: string)
    requires ErrIn(log, e) && log <= log'
    ensures ErrIn(log', e)
  {
    var i :| 0 <= i < |log| && log[i].Failed? && log[i].error == e;
    assert log'[i] == log[i];
  }

  lemma FailedKept(log: seq<Event>, log': seq<Event>, n: nat)
    requires log <= log'
    ensures FailedOf(log, n) ==> FailedOf(log', n)
  {
    if FailedOf(log, n) {
      var i :| 0 <= i < |log| && log[i].Failed? && log[i].n == n;
      assert log'[i] == log[i];
    }
  }

  lemma {:induction false} StartKeeps(c: Config, ts: Tasks, e: Option<string>, s: Shared)
    requires HasNew(ts) && Good(c, ts, e, s)
    ensures Good(c, StartNext(ts), e, s) && Skeleton(StartNext(ts)) == Skeleton(ts)
  {
    if !ts.phase.New? { StartKeeps(c, ts.rest, e, s); }
  }

  lemma VisitKeeps(c: Config, n: nat, v: Visit, s: Shared, v': Visit, s': Shared)
    requires VisitGood(c, n, v, s) && VisitStep(c, n, v, s, v', s')
    ensures VisitGood(c, n, v', s') && Extends(s, s')
    ensures ErrOf(v').Some? ==> ErrIn(s'.log, ErrOf(v').value) && FailedOf(s'.log, n)
  {
    if ErrOf(v').Some? { assert s'.log[|s.log|].Failed?; }
  }

  ghost predicate ErrGood(e: Option<string>, log: seq<Event>) { e.Some? ==> ErrIn(log, e.value) }

  lemma {:induction false} ListKeeps(c: Config, ts: Tasks, e: Option<string>, s: Shared, ts': Tasks, e': Option<string>,
                                     s': Shared)
    requires ListStep(c, ts, e, s, ts', e', s') && Good(c, ts, e, s) && ErrGood(e, s.log)
    ensures Good(c, ts', e', s') && ErrGood(e', s'.log) && Extends(s, s') && (e.Some? ==> e' == e)
    ensures Skeleton(ts') == Skeleton(ts)
    decreases ts, 1
  {
    if HeadStep(c, ts, e, s, ts', e', s') {
      HeadKeeps(c, ts, e, s, ts', e', s');
    } else {
      ListKeeps(c, ts.rest, e, s, ts'.rest, e', s');
      if ts.err.Some? { ErrKept(s.log, s'.log, ts.err.value); }
      FailedKept(s.log, s'.log, ts.node);
      GoodKept(c, ts.kids, ts.err, s, ts.err, s');
    }
  }

  lemma {:induction false} HeadKeeps(c: Config, ts: Tasks, e: Option<string>, s: Shared, ts': Tasks, e': Option<string>,
                                     s': Shared)
    requires ts.Cons? && ts'.Cons? && HeadStep(c, ts, e, s, ts', e', s') && Good(c, ts, e, s) && ErrGood(e, s.log)
    ensures Good(c, ts', e', s') && ErrGood(e', s'.log) && Extends(s, s') && (e.Some? ==> e' == e)
    ensures Skeleton(ts') == Skeleton(ts)
    decreases ts, 0
  {
    if SpawnStep(ts, e, s, ts', e', s') {
      if !ts.visit.Unspawned? { StartKeeps(c, ts.kids, ts.err, s); }
    } else if EndStep(ts, e, s, ts', e', s') {
      GoodKept(c, ts.rest, e, s, e', s');
    } else {
      if VisitStep(c, ts.node, ts.visit, s, ts'.visit, s')
         && ts' == ts.(visit := ts'.visit, err := First(ts.err, ErrOf(ts'.visit))) {
        VisitKeeps(c, ts.node, ts.visit, s, ts'.visit, s');
        GoodKept(c, ts.kids, ts.err, s, ts'.err, s');
      } else {
        ListKeeps(c, ts.kids, ts.err, s, ts'.kids, ts'.err, s');
      }
      if ts.err.Some? { ErrKept(s.log, s'.log, ts.err.value); }
      FailedKept(s.log, s'.log, ts.node);
      if e.Some? { ErrKept(s.log, s'.log, e.value); }
      GoodKept(c, ts.rest, e, s, e', s');
    }
  }

  // ---- The operations performed are ordered

  lemma Append(c: Config, f: Forest, log: seq<Event>, ev: Event)
    requires Ordered(c, f, log)
    requires ev.Did? ==>
      ev.n in Nodes(f) && ev.n < |c.ops| && ev.k < |c.ops[ev.n]| && (ev.k > 0 ==> Did(ev.n, ev.k - 1) in log)
    ensures Ordered(c, f, log + [ev])
  {
    var log' := log + [ev];
    forall i | 0 <= i < |log'| && log'[i].Did? && log'[i].k > 0 ensures Did(log'[i].n, log'[i].k - 1) in log'[..i] {
      assert log'[..i] == log[..i];
    }
  }

  lemma {:induction false} ListOrdered(c: Config, f: Forest, ts: Tasks, e: Option<string>, s: Shared, ts': Tasks,
                                       e': Option<string>, s': Shared)
    requires ListStep(c, ts, e, s, ts', e', s') && Good(c, ts, e, s) && Ordered(c, f, s.log)
    requires Nodes(Skeleton(ts)) <= Nodes(f)
    ensures Ordered(c, f, s'.log)
  {
    if HeadStep(c, ts, e, s, ts', e', s') {
      if VisitStep(c, ts.node, ts.visit, s, ts'.visit, s') {
        if s' != s && ts.visit.Ops? { Append(c, f, s.log, s'.log[|s.log|]); }
      } else if ListStep(c, ts.kids, ts.err, s, ts'.kids, ts'.err, s') {
        ListOrdered(c, f, ts.kids, ts.err, s, ts'.kids, ts'.err, s');
      }
    } else {
      ListOrdered(c, f, ts.rest, e, s, ts'.rest, e', s');
    }
  }

  lemma {:induction false} EarlierToo(c: Config, f: Forest, log: seq<Event>, n: nat, k: nat, j: nat)
    requires Ordered(c, f, log) && Did(n, k) in log && j <= k
    ensures Did(n, j) in log
  {
    if j < k {
      var i :| 0 <= i < |log| && log[i] == Did(n, k);
      assert Did(n, k - 1) in log[..i];
      EarlierToo(c, f, log, n, k - 1, j);
    }
  }

  // ---- Whoever entered a node into the map is still at work, has failed, or has done everything

  predicate AtWork(v: Visit) { v.Test? || v.Ops? || ErrOf(v).Some? }

  predicate Pending(ts: Tasks, n: nat) {
    ts.Cons? && ((ts.node == n && AtWork(ts.visit)) || Pending(ts.kids, n) || Pending(ts.rest, n))
  }

  predicate HasError(ts: Tasks) {
    ts.Cons? && (ErrOf(ts.visit).Some? || HasError(ts.kids) || HasError(ts.rest))
  }

  lemma {:induction false} StartKeepsPending(ts: Tasks, n: nat)
    requires HasNew(ts)
    ensures Pending(StartNext(ts), n) <==> Pending(ts, n)
    ensures HasError(StartNext(ts)) <==> HasError(ts)
  {
    if !ts.phase.New? { StartKeepsPending(ts.rest, n); }
  }

  lemma CompleteKept(c: Config, log: seq<Event>, log': seq<Event>, n: nat)
    requires n < |c.ops| && Complete(c, log, n) && log <= log'
    ensures Complete(c, log', n)
  {
    forall k | 0 <= k < |c.ops[n]| && !(c.guarded && n in c.done) ensures Did(n, k) in log' {
      var i :| 0 <= i < |log| && log[i] == Did(n, k);
      assert log'[i] == Did(n, k);
    }
  }

  lemma VisitPending(c: Config, f: Forest, n: nat, v: Visit, s: Shared, v': Visit, s': Shared)
    requires VisitGood(c, n, v, s) && VisitStep(c, n, v, s, v', s') && Ordered(c, f, s.log)
    ensures AtWork(v) ==> AtWork(v') || Complete(c, s'.log, n)
    ensures n in s'.visited && n !in s.visited ==> AtWork(v')
    ensures AnyFailed(s'.log) && !AnyFailed(s.log) ==> ErrOf(v').Some?
  {
    if v.Test? && Flagged(c, s.log, n) && !(c.guarded && n in c.done) {
      forall k | 0 <= k < |c.ops[n]| ensures Did(n, k) in s.log { EarlierToo(c, f, s.log, n, |c.ops[n]| - 1, k); }
    }
    if AnyFailed(s'.log) {
      var i :| 0 <= i < |s'.log| && s'.log[i].Failed?;
      assert i < |s.log| ==> s.log[i].Failed?;
    }
  }

  lemma {:induction false} ListPending(c: Config, f: Forest, ts: Tasks, e: Option<string>, s: Shared, ts': Tasks,
                                       e': Option<string>, s': Shared, n: nat)
    requires ListStep(c, ts, e, s, ts', e', s') && Good(c, ts, e, s) && Ordered(c, f, s.log) && n < |c.ops|
    ensures Pending(ts, n) ==> Pending(ts', n) || Complete(c, s'.log, n)
    ensures n in s'.visited && n !in s.visited ==> Pending(ts', n)
    ensures HasError(ts) ==> HasError(ts')
    ensures AnyFailed(s'.log) && !AnyFailed(s.log) ==> HasError(ts')
  {
    if HeadStep(c, ts, e, s, ts', e', s') {
      if SpawnStep(ts, e, s, ts', e', s') {
        if !ts.visit.Unspawned? { StartKeepsPending(ts.kids, n); }
      } else if VisitStep(c, ts.node, ts.visit, s, ts'.visit, s') {
        VisitPending(c, f, ts.node, ts.visit, s, ts'.visit, s');
      } else if ListStep(c, ts.kids, ts.err, s, ts'.kids, ts'.err, s') {
        ListPending(c, f, ts.kids, ts.err, s, ts'.kids, ts'.err, s', n);
      }
    } else {
      ListPending(c, f, ts.rest, e, s, ts'.rest, e', s', n);
    }
  }

  // ---- The invariant of the whole walk

  ghost predicate Accounted(c: Config, s: State) {
    && (forall n :: n in s.shared.visited && n < |c.ops| ==> Pending(s.tasks, n) || Complete(c, s.shared.log, n))
    && (AnyFailed(s.shared.log) ==> HasError(s.tasks))
  }

  ghost predicate Inv(c: Config, f: Forest, s: State) {
    && Good(c, s.tasks, s.err, s.shared) && ErrGood(s.err, s.shared.log)
    && Skeleton(s.tasks) == f
    && Ordered(c, f, s.shared.log)
    && Accounted(c, s)
  }

  lemma {:induction false} InitGood(c: Config, f: Forest)
    requires Covers(c, f)
    ensures Good(c, Plant(f), None, Shared({}, [])) && Skeleton(Plant(f)) == f
  {
    if f.Cons? {
      assert Nodes(f) == {f.node} + Nodes(f.kids) + Nodes(f.rest);
      InitGood(c, f.kids);
      InitGood(c, f.rest);
    }
  }

  lemma StepInv(c: Config, f: Forest, s: State, s': State)
    requires Inv(c, f, s) && Step(c, s, s')
    ensures Inv(c, f, s')
  {
    if HasNew(s.tasks) && s' == s.(tasks := StartNext(s.tasks)) {
      StartKeeps(c, s.tasks, s.err, s.shared);
      forall n ensures Pending(s'.tasks, n) <==> Pending(s.tasks, n) { StartKeepsPending(s.tasks, n); }
      StartKeepsPending(s.tasks, 0);
    } else {
      ListKeeps(c, s.tasks, s.err, s.shared, s'.tasks, s'.err, s'.shared);
      ListOrdered(c, f, s.tasks, s.err, s.shared, s'.tasks, s'.err, s'.shared);
      StepAccounted(c, f, s, s');
    }
  }

  lemma StepAccounted(c: Config, f: Forest, s: State, s': State)
    requires Inv(c, f, s) && ListStep(c, s.tasks, s.err, s.shared, s'.tasks, s'.err, s'.shared)
    requires Extends(s.shared, s'.shared)
    ensures Accounted(c, s')
  {
    forall n | n in s'.shared.visited && n < |c.ops| ensures Pending(s'.tasks, n) || Complete(c, s'.shared.log, n) {
      ListPending(c, f, s.tasks, s.err, s.shared, s'.tasks, s'.err, s'.shared, n);
      if n in s.shared.visited && Complete(c, s.shared.log, n) { CompleteKept(c, s.shared.log, s'.shared.log, n); }
    }
    if AnyFailed(s'.shared.log) && |c.ops| > 0 {
      ListPending(c, f, s.tasks, s.err, s.shared, s'.tasks, s'.err, s'.shared, 0);
    }
  }

  lemma {:induction false} RunInv(c: Config, f: Forest, run: seq<State>)
    requires Covers(c, f) && Run(c, f, run)
    ensures Inv(c, f, Last(run))
  {
    if |run| == 1 {
      InitGood(c, f);
    } else {
      var k := |run| - 1;
      assert Run(c, f, run[..k]) by {
        forall i: nat | i + 1 < k ensures Step(c, run[..k][i], run[..k][i+1]) { assert Step(c, run[i], run[i+1]); }
      }
      RunInv(c, f, run[..k]);
      assert Step(c, run[k-1], run[k-1+1]);
      StepInv(c, f, run[k-1], run[k]);
    }
  }

  // ---- The result

  lemma {:induction false} EndedList(c: Config, ts: Tasks, e: Option<string>, s: Shared, n: nat)
    requires AllEnded(ts) && Good(c, ts, e, s)
    ensures n in Nodes(Skeleton(ts)) ==> n in s.visited
    ensures e.None? ==> !Pending(ts, n) && !HasError(ts)
    ensures Pending(ts, n) ==> FailedOf(s.log, n)
  {
    if ts.Cons? {
      EndedList(c, ts.kids, ts.err, s, n);
      EndedList(c, ts.rest, e, s, n);
    }
  }

  // Whatever the schedule: the result is nil exactly when no operation failed, otherwise the error of an operation that
  // failed. Even then every node of the graph has been entered, and every node none of whose own operations failed has
  // had its visitor complete; after a nil result that is every node.
  lemma WalkResult(c: Config, f: Forest, run: seq<State>)
    requires Covers(c, f) && Run(c, f, run) && Final(Last(run))
    ensures Last(run).err.None? <==> !AnyFailed(Last(run).shared.log)
    ensures Last(run).err.Some? ==> ErrIn(Last(run).shared.log, Last(run).err.value)
    ensures forall n :: n in Nodes(f) ==> n in Last(run).shared.visited
    ensures forall n :: n in Nodes(f) && !FailedOf(Last(run).shared.log, n) ==> Complete(c, Last(run).shared.log, n)
    ensures Last(run).err.None? ==> forall n :: n in Nodes(f) ==> Complete(c, Last(run).shared.log, n)
    ensures Ordered(c, f, Last(run).shared.log)
  {
    var s := Last(run);
    RunInv(c, f, run);
    EndedList(c, s.tasks, s.err, s.shared, 0);
    forall n | n in Nodes(f)
      ensures n in s.shared.visited && (FailedOf(s.shared.log, n) || Complete(c, s.shared.log, n))
      ensures s.err.None? ==> Complete(c, s.shared.log, n)
    {
      EndedList(c, s.tasks, s.err, s.shared, n);
    }
  }

  // ---- Every walk returns

  function VisitWeight(c: Config, n: nat, v: Visit): nat {
    var len := if n < |c.ops| then |c.ops[n]| else 0;
    match v
    case Unspawned => len + 5
    case Load => len + 4
    case Store => len + 3
    case Test => len + 2
    case Ops(k) => if k <= len then len + 1 - k else 1
    case Done(_) => 0
  }

  function Weight(c: Config, ts: Tasks): nat {
    if ts.Nil? then 0
    else
      VisitWeight(c, ts.node, ts.visit) + (match ts.phase case New => 2 case Running => 1 case Ended => 0) +
      Weight(c, ts.kids) + Weight(c, ts.rest)
  }

  lemma {:induction false} StartDrops(c: Config, ts: Tasks)
    requires HasNew(ts)
    ensures Weight(c, StartNext(ts)) < Weight(c, ts)
  {
    if !ts.phase.New? { StartDrops(c, ts.rest); }
  }

  lemma {:induction false} ListDrops(c: Config, ts: Tasks, e: Option<string>, s: Shared, ts': Tasks, e': Option<string>,
                                     s': Shared)
    requires ListStep(c, ts, e, s, ts', e', s')
    ensures Weight(c, ts') < Weight(c, ts)
  {
    if HeadStep(c, ts, e, s, ts', e', s') {
      if SpawnStep(ts, e, s, ts', e', s') {
        if !ts.visit.Unspawned? { StartDrops(c, ts.kids); }
      } else if VisitStep(c, ts.node, ts.visit, s, ts'.visit, s') {
      } else if ListStep(c, ts.kids, ts.err, s, ts'.kids, ts'.err, s') {
        ListDrops(c, ts.kids, ts.err, s, ts'.kids, ts'.err, s');
      }
    } else {
      ListDrops(c, ts.rest, e, s, ts'.rest, e', s');
    }
  }

  lemma {:induction false} WalksAreShort(c: Config, f: Forest, run: seq<State>)
    requires Run(c, f, run)
    ensures |run| + Weight(c, Last(run).tasks) <= Weight(c, Plant(f)) + 1
  {
    if |run| > 1 {
      var k := |run| - 1;
      assert Run(c, f, run[..k]) by {
        forall i: nat | i + 1 < k ensures Step(c, run[..k][i], run[..k][i+1]) { assert Step(c, run[i], run[i+1]); }
      }
      WalksAreShort(c, f, run[..k]);
      assert Step(c, run[k-1], run[k-1+1]);
      if HasNew(run[k-1].tasks) && run[k] == run[k-1].(tasks := StartNext(run[k-1].tasks)) {
        StartDrops(c, run[k-1].tasks);
      } else {
        ListDrops(c, run[k-1].tasks, run[k-1].err, run[k-1].shared, run[k].tasks, run[k].err, run[k].shared);
      }
    }
  }

  lemma {:induction false} ListMoves(c: Config, ts: Tasks, e: Option<string>, s: Shared)
    returns (ts': Tasks, e': Option<string>, s': Shared)
    requires Good(c, ts, e, s) && !HasNew(ts) && !AllEnded(ts)
    ensures ListStep(c, ts, e, s, ts', e', s')
  {
    if ts.phase.Ended? {
      var rest;
      rest, e', s' := ListMoves(c, ts.rest, e, s);
      ts' := ts.(rest := rest);
    } else if ts.visit.Unspawned? {
      ts', e', s' := ts.(visit := Load), e, s;
    } else if HasNew(ts.kids) {
      ts', e', s' := ts.(kids := StartNext(ts.kids)), e, s;
    } else if !ts.visit.Done? {
      var v;
      v, s' := VisitMoves(c, ts.node, ts.visit, s);
      ts', e' := ts.(visit := v, err := First(ts.err, ErrOf(v))), e;
    } else if AllEnded(ts.kids) {
      ts', e', s' := ts.(phase := Ended), First(e, ts.err), s;
    } else {
      var kids, err;
      kids, err, s' := ListMoves(c, ts.kids, ts.err, s);
      ts', e' := ts.(kids := kids, err := err), e;
    }
  }

  lemma VisitMoves(c: Config, n: nat, v: Visit, s: Shared) returns (v': Visit, s': Shared)
    requires VisitGood(c, n, v, s) && !v.Unspawned? && !v.Done?
    ensures VisitStep(c, n, v, s, v', s')
  {
    match v
    case Load => v', s' := if n in s.visited then Done(None) else Store, s;
    case Store => v', s' := Test, s.(visited := s.visited + {n});
    case Test => v', s' := if Flagged(c, s.log, n) then Done(None) else Ops(0), s;
    case Ops(k) =>
      if k == |c.ops[n]| { v', s' := Done(None), s; } else { v', s' := Ops(k + 1), s.(log := s.log + [Did(n, k)]); }
  }

  // A walk that has not returned can always go on; with WalksAreShort, every walk returns.
  lemma WalkProgress(c: Config, f: Forest, run: seq<State>) returns (s': State)
    requires Covers(c, f) && Run(c, f, run) && !Final(Last(run))
    ensures Step(c, Last(run), s')
  {
    var s := Last(run);
    RunInv(c, f, run);
    if HasNew(s.tasks) {
      s' := s.(tasks := StartNext(s.tasks));
    } else {
      var ts, e, sh := ListMoves(c, s.tasks, s.err, s.shared);
      s' := State(ts, e, sh);
    }
  }

  // ---- At least once is all: the same operation can be performed twice

  // Node 0 with a child 1 linked twice; a and b are the two visitors of node 1.
  function Twins(a: Visit, b: Visit, sh: Shared): State {
    var kids := Tasks.Cons(1, Running, a, None, Tasks.Nil, Tasks.Cons(1, Running, b, None, Tasks.Nil, Tasks.Nil));
    State(Tasks.Cons(0, Running, Load, None, kids, Tasks.Nil), None, sh)
  }

  lemma TwinStep(c: Config, a: Visit, b: Visit, sh: Shared, v: Visit, sh': Shared)
    requires !v.Done?
    ensures VisitStep(c, 1, a, sh, v, sh') || (a.Unspawned? && v.Load? && sh' == sh) ==>
      Step(c, Twins(a, b, sh), Twins(v, b, sh'))
    ensures VisitStep(c, 1, b, sh, v, sh') || (b.Unspawned? && v.Load? && sh' == sh) ==>
      Step(c, Twins(a, b, sh), Twins(a, v, sh'))
  {
    var ts := Twins(a, b, sh).tasks;
    var first, second := Twins(v, b, sh').tasks, Twins(a, v, sh').tasks;
    if VisitStep(c, 1, a, sh, v, sh') || (a.Unspawned? && v.Load? && sh' == sh) {
      assert HeadStep(c, ts.kids, None, sh, first.kids, None, sh');
      assert HeadStep(c, ts, None, sh, first, None, sh');
    }
    if VisitStep(c, 1, b, sh, v, sh') || (b.Unspawned? && v.Load? && sh' == sh) {
      assert HeadStep(c, ts.kids.rest, None, sh, second.kids.rest, None, sh');
      assert ListStep(c, ts.kids.rest, None, sh, second.kids.rest, None, sh');
      assert ListStep(c, ts.kids, None, sh, second.kids, None, sh');
      assert HeadStep(c, ts, None, sh, second, None, sh');
    }
  }

  function TwinForest(): Forest {
    Forest.Cons(0, Forest.Cons(1, Forest.Nil, Forest.Cons(1, Forest.Nil, Forest.Nil)), Forest.Nil)
  }

  // Up to the point where both visitors of node 1 have been called.
  function TwinStart(): seq<State> {
    var sh := Shared({}, []);
    var kid := (p: Phase, rest: Tasks) => Tasks.Cons(1, p, Unspawned, None, Tasks.Nil, rest);
    var root := (v: Visit, p: Phase, q: Phase) =>
      State(Tasks.Cons(0, Running, v, None, kid(p, kid(q, Tasks.Nil)), Tasks.Nil), None, sh);
    [Init(TwinForest()), root(Unspawned, New, New), root(Load, New, New), root(Load, Running, New),
     Twins(Unspawned, Unspawned, sh)]
  }

  lemma TwinStartRuns(c: Config)
    ensures Run(c, TwinForest(), TwinStart())
  {
    var run := TwinStart();
    assert Plant(TwinForest()) == Tasks.Cons(0, New, Unspawned, None, Plant(TwinForest().kids), Tasks.Nil);
    assert HeadStep(c, run[1].tasks, None, run[1].shared, run[2].tasks, None, run[2].shared);
    assert HeadStep(c, run[2].tasks, None, run[2].shared, run[3].tasks, None, run[3].shared);
    assert HeadStep(c, run[3].tasks, None, run[3].shared, run[4].tasks, None, run[4].shared);
  }

  lemma RunOn(c: Config, f: Forest, run: seq<State>, s: State)
    requires Run(c, f, run) && Step(c, Last(run), s)
    ensures Run(c, f, run + [s])
  {
    forall i: nat | i + 1 < |run + [s]| ensures Step(c, (run + [s])[i], (run + [s])[i+1]) {
      if i + 1 < |run| { assert Step(c, run[i], run[i+1]); }
    }
  }

  // How the two visitors then move, one at a time.
  function TwinPath(): seq<(Visit, Visit, Shared)> {
    var s0, s1, s2, s3 := Shared({}, []), Shared({1}, []), Shared({1}, [Did(1, 0)]),
                          Shared({1}, [Did(1, 0), Did(1, 0)]);
    [(Unspawned, Unspawned, s0), (Load, Unspawned, s0), (Load, Load, s0), (Store, Load, s0), (Store, Store, s0),
     (Test, Store, s1), (Test, Test, s1), (Ops(0), Test, s1), (Ops(0), Ops(0), s1), (Ops(1), Ops(0), s2),
     (Ops(1), Ops(1), s3)]
  }

  function TwinAt(i: nat): State
    requires i < |TwinPath()|
  {
    Twins(TwinPath()[i].0, TwinPath()[i].1, TwinPath()[i].2)
  }

  lemma TwinPathStep(c: Config, i: nat)
    requires c == Config([[], [false]], true, {}) && i + 1 < |TwinPath()|
    ensures Step(c, TwinAt(i), TwinAt(i + 1))
  {
    var p, q := TwinPath()[i], TwinPath()[i+1];
    TwinStep(c, p.0, p.1, p.2, if q.0 == p.0 then q.1 else q.0, q.2);
  }

  // Both visitors look the node up before either enters it, and both go on to perform the operation.
  lemma DoubleVisit(c: Config) returns (run: seq<State>)
    requires c == Config([[], [false]], true, {})
    ensures Run(c, TwinForest(), run) && Last(run).shared.log == [Did(1, 0), Did(1, 0)]
  {
    TwinStartRuns(c);
    run := TwinStart();
    for i := 1 to |TwinPath()|
      invariant Run(c, TwinForest(), run) && Last(run) == TwinAt(i - 1)
    {
      TwinPathStep(c, i - 1);
      RunOn(c, TwinForest(), run, TwinAt(i));
      run := run + [TwinAt(i)];
    }
  }
}
