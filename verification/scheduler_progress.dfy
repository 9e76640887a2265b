// The concurrent build never gets stuck and never runs forever.
module SchedulerProgress {
  import opened Graphs
  import opened Scheduler
  import opened SchedulerInvariant

  // ---- Some step is enabled until RebuildGraph returns

  lemma {:induction false} LowestUnfinished(c: Config, s: State, n: nat) returns (m: nat)
    requires c.Valid() && Shape(c, s) && n < c.Size() && !s.pcs[n].Ended?
    ensures m < c.Size() && !s.pcs[m].Ended?
    ensures forall i :: 0 <= i < |c.g.parents[m]| ==> s.pcs[c.g.parents[m][i]].Ended?
    decreases c.rank[n]
  {
    if i :| 0 <= i < |c.g.parents[n]| && !s.pcs[c.g.parents[n][i]].Ended? {
      ParentsRankLower(c.g, c.rank, n, c.g.parents[n][i]);
      m := LowestUnfinished(c, s, c.g.parents[n][i]);
    } else {
      m := n;
    }
  }

  // A lock that is not free but whose node is not between Start and Ended is held for a moment only.
  lemma HolderMoves(c: Config, v: seq<bool>, s: State, m: nat) returns (a: Actor)
    requires c.Valid() && |v| == c.Size() && Inv(c, v, s) && m < c.Size()
    requires s.lock[m].Some? && !HoldsOwn(s.pcs[m])
    ensures Enabled(c, s, a)
  {
    var o := s.lock[m].value;
    assert o < c.Size();
    assert Holds(c, s.pcs[o], o, m);
    a := Goroutine(o);
  }

  lemma {:induction false} SomeoneBuilds(pcs: seq<PC>) returns (n: nat)
    requires CountBuilding(pcs) > 0
    ensures n < |pcs| && pcs[n].Building?
  {
    if pcs[|pcs|-1].Building? { n := |pcs| - 1; } else { n := SomeoneBuilds(pcs[..|pcs|-1]); }
  }

  // A free permit can be had, or nobody asks for one.
  ghost predicate PermitsSuffice(c: Config, v: seq<bool>)
    requires c.Valid() && |v| == c.Size()
  {
    c.concurrency >= 1 || forall n: nat :: n < c.Size() ==> !Builds(c, v, n)
  }

  lemma NodeProgress(c: Config, v: seq<bool>, s: State, n: nat) returns (a: Actor)
    requires c.Valid() && |v| == c.Size() && Inv(c, v, s) && PermitsSuffice(c, v)
    requires n < c.Size() && !s.pcs[n].Ended? && !s.pcs[n].Idle? && !s.reporter.Exited?
    requires forall i :: 0 <= i < |c.g.parents[n]| ==> s.pcs[c.g.parents[n][i]].Ended?
    ensures Enabled(c, s, a)
  {
    var pc, ps := s.pcs[n], c.g.parents[n];
    assert NodeInv(c, v, s, n);
    a := Goroutine(n);
    if !NodeEnabled(c, s, n) {
      match pc
      case Start => a := HolderMoves(c, v, s, n);
      case AtParent(i) => ParentIsOther(c, n, i); a := HolderMoves(c, v, s, ps[i]);
      case Woken(i) => ParentIsOther(c, n, i); a := HolderMoves(c, v, s, ps[i]);
      case Acquire =>
        var b := SomeoneBuilds(s.pcs);
        a := Goroutine(b);
      case Building => CountUpdate(s.pcs, n, Ended);
      case Send(_) => a := Reporter;
      case _ =>
    }
  }

  lemma Progress(c: Config, v: seq<bool>, s: State) returns (a: Actor)
    requires c.Valid() && |v| == c.Size() && Inv(c, v, s) && PermitsSuffice(c, v) && !Final(s)
    ensures Enabled(c, s, a)
  {
    if s.reporter.Busy? || s.closed {
      a := Reporter;
    } else if Enabled(c, s, Main) {
      a := Main;
    } else {
      var n: nat :| n < c.Size() && !s.pcs[n].Ended?;
      var m := LowestUnfinished(c, s, n);
      assert m in c.order;
      a := NodeProgress(c, v, s, m);
    }
  }

  // ---- Every run is finite

  // An upper bound on the steps left for a goroutine with k parents; seen tells whether the parent it looks at is done.
  function Left(pc: PC, k: nat, seen: bool): int {
    match pc
    case Idle => 7 * k + 14
    case Start => 7 * k + 13
    case AtParent(i) => 12 + k + 6 * (k - i)
    case Check(i) => 12 + k + 6 * (k - i - 1) + if seen then 1 else 5
    case Enlist(i) => 12 + k + 6 * (k - i - 1) + 4
    case Waiting(i) => 12 + k + 6 * (k - i - 1) + 3
    case Woken(i) => 12 + k + 6 * (k - i - 1) + 2
    case Decide => 11 + k
    case Scan(i) => 10 + k - i
    case Acquire => 9
    case Building => 8
    case Testing => 7
    case Send(_) => 6
    case Finish => 3
    case Broadcast => 2
    case Unlock => 1
    case Ended => 0
  }

  function LeftOf(c: Config, s: State, n: nat): nat
    requires c.Valid() && Shape(c, s) && n < c.Size()
  {
    var pc, ps := s.pcs[n], c.g.parents[n];
    Left(pc, |ps|, pc.Check? && s.done[ps[pc.i]])
  }

  function Lefts(c: Config, s: State): seq<nat>
    requires c.Valid() && Shape(c, s)
  {
    seq(c.Size(), n requires 0 <= n < c.Size() => LeftOf(c, s, n))
  }

  function Sum(ks: seq<nat>): nat { if ks == [] then 0 else Sum(ks[..|ks|-1]) + ks[|ks|-1] }

  function LeftOfReporter(r: ReporterState): nat {
    match r case Busy(_) => 2 case Ready => 1 case Exited => 0
  }

  // An upper bound on the number of steps any schedule can still make.
  function Measure(c: Config, s: State): nat
    requires c.Valid() && Shape(c, s)
  {
    Sum(Lefts(c, s)) + LeftOfReporter(s.reporter) +
    (if s.main <= |c.order| then |c.order| + 1 - s.main else 0) + if s.closed then 0 else 1
  }

  lemma {:induction false} SumDrops(before: seq<nat>, after: seq<nat>, n: nat, d: nat)
    requires |before| == |after| && forall m :: 0 <= m < |before| ==> after[m] + (if m == n then d else 0) <= before[m]
    ensures Sum(after) + (if n < |before| then d else 0) <= Sum(before)
  {
    if before != [] { SumDrops(before[..|before|-1], after[..|after|-1], n, d); }
  }

  lemma OwnLeftDrops(c: Config, v: seq<bool>, s: State, n: nat)
    requires c.Valid() && |v| == c.Size() && Inv(c, v, s) && n < c.Size() && NodeEnabled(c, s, n)
    requires Shape(c, NodeApply(c, s, n))
    ensures LeftOf(c, NodeApply(c, s, n), n) + (if s.pcs[n].Send? then 2 else 1) <= LeftOf(c, s, n)
  {
    var s', pc := NodeApply(c, s, n), Next(c, s, n).pc;
    Places(c, s, n, n);
    if s.pcs[n].Woken? {
      ParentIsOther(c, n, s.pcs[n].i);
      assert NodeInv(c, v, s, n);
    } else {
      NextLeftDrops(c, s, n, pc.Check? && s'.done[c.g.parents[n][pc.i]]);
    }
  }

  lemma NextLeftDrops(c: Config, s: State, n: nat, seen: bool)
    requires c.Valid() && Shape(c, s) && n < c.Size() && NodeEnabled(c, s, n) && !s.pcs[n].Woken?
    ensures Left(Next(c, s, n).pc, |c.g.parents[n]|, seen) + (if s.pcs[n].Send? then 2 else 1) <= LeftOf(c, s, n)
  {}

  lemma OtherLeftKept(c: Config, s: State, n: nat, m: nat)
    requires c.Valid() && Shape(c, s) && n < c.Size() && m < c.Size() && m != n && NodeEnabled(c, s, n)
    requires Shape(c, NodeApply(c, s, n))
    ensures LeftOf(c, NodeApply(c, s, n), m) <= LeftOf(c, s, m)
  {
    Places(c, s, n, m);
  }

  lemma NodeLeftsDrop(c: Config, v: seq<bool>, s: State, n: nat)
    requires c.Valid() && |v| == c.Size() && Inv(c, v, s) && n < c.Size() && NodeEnabled(c, s, n)
    requires Shape(c, NodeApply(c, s, n))
    ensures Sum(Lefts(c, NodeApply(c, s, n))) + (if s.pcs[n].Send? then 2 else 1) <= Sum(Lefts(c, s))
  {
    var s' := NodeApply(c, s, n);
    OwnLeftDrops(c, v, s, n);
    forall m: nat | m < c.Size() ensures LeftOf(c, s', m) <= LeftOf(c, s, m) {
      if m != n { OtherLeftKept(c, s, n, m); }
    }
    SumDrops(Lefts(c, s), Lefts(c, s'), n, if s.pcs[n].Send? then 2 else 1);
  }

  // A node's step touches nothing else that counts, but for what it sends.
  lemma NodeRestKept(c: Config, s: State, n: nat)
    requires c.Valid() && n < c.Size() && Shape(c, s) && NodeEnabled(c, s, n)
    ensures var s' := NodeApply(c, s, n);
      && s'.main == s.main && s'.closed == s.closed
      && LeftOfReporter(s'.reporter) <= LeftOfReporter(s.reporter) + if s.pcs[n].Send? then 1 else 0
  {}

  lemma NodeMeasureDrops(c: Config, v: seq<bool>, s: State, n: nat)
    requires c.Valid() && |v| == c.Size() && Inv(c, v, s) && n < c.Size() && NodeEnabled(c, s, n)
    requires Shape(c, NodeApply(c, s, n))
    ensures Measure(c, NodeApply(c, s, n)) < Measure(c, s)
  {
    NodeLeftsDrop(c, v, s, n);
    NodeRestKept(c, s, n);
  }

  lemma SpawnDrops(c: Config, s: State)
    requires c.Valid() && Shape(c, s) && Walker(c, s) && s.main < |c.order| && Shape(c, Apply(c, s, Main))
    ensures Measure(c, Apply(c, s, Main)) < Measure(c, s)
  {
    var s', n := Apply(c, s, Main), c.order[s.main];
    assert s.pcs[n].Idle?;
    forall m: nat | m < c.Size() ensures Lefts(c, s')[m] + (if m == n then 1 else 0) <= Lefts(c, s)[m] {}
    SumDrops(Lefts(c, s), Lefts(c, s'), n, 1);
  }

  lemma MeasureDrops(c: Config, v: seq<bool>, s: State, a: Actor)
    requires c.Valid() && Verdict(c, v) && Inv(c, v, s) && Enabled(c, s, a)
    ensures Inv(c, v, Apply(c, s, a)) && Measure(c, Apply(c, s, a)) < Measure(c, s)
  {
    StepInv(c, v, s, a);
    var s' := Apply(c, s, a);
    if a.Goroutine? {
      NodeMeasureDrops(c, v, s, a.n);
    } else if a.Main? && s.main < |c.order| {
      SpawnDrops(c, s);
    } else {
      assert Lefts(c, s') == Lefts(c, s);
    }
  }

  // No schedule from s is longer than Measure(s).
  lemma {:induction false} RunsAreShort(c: Config, v: seq<bool>, s: State, schedule: seq<Actor>, s': State)
    requires c.Valid() && Verdict(c, v) && Inv(c, v, s) && Runs(c, s, schedule, s')
    ensures |schedule| <= Measure(c, s)
    decreases |schedule|
  {
    if schedule != [] {
      MeasureDrops(c, v, s, schedule[0]);
      RunsAreShort(c, v, Apply(c, s, schedule[0]), schedule[1..], s');
    }
  }

  lemma {:induction false} CompleteRun(c: Config, v: seq<bool>, s: State) returns (schedule: seq<Actor>, s': State)
    requires c.Valid() && Verdict(c, v) && Inv(c, v, s) && PermitsSuffice(c, v)
    ensures Runs(c, s, schedule, s') && Final(s')
    decreases Measure(c, s)
  {
    if Final(s) {
      schedule, s' := [], s;
    } else {
      var a := Progress(c, v, s);
      MeasureDrops(c, v, s, a);
      schedule, s' := CompleteRun(c, v, Apply(c, s, a));
      schedule := [a] + schedule;
    }
  }

  // ---- Without permits, a build that is wanted blocks forever

  predicate BeforePermit(pc: PC) {
    !pc.Building? && !pc.Testing? && !pc.Send? && !Returned(pc)
  }

  lemma BlockedStep(c: Config, v: seq<bool>, s: State, n: nat, a: Actor)
    requires c.Valid() && Verdict(c, v) && Inv(c, v, s) && Enabled(c, s, a)
    requires c.concurrency == 0 && n < c.Size() && Builds(c, v, n) && BeforePermit(s.pcs[n])
    ensures Shape(c, Apply(c, s, a)) && BeforePermit(Apply(c, s, a).pcs[n])
  {
    StepInv(c, v, s, a);
    if a.Goroutine? {
      Places(c, s, a.n, n);
      assert NodeInv(c, v, s, n);
      if a.n == n && s.pcs[n].Scan? && s.pcs[n].i < |c.g.parents[n]| {
        ParentIsOther(c, n, s.pcs[n].i);
        assert NodeInv(c, v, s, c.g.parents[n][s.pcs[n].i]);
      }
    }
  }

  lemma {:induction false} BlockedRun(c: Config, v: seq<bool>, s: State, n: nat, schedule: seq<Actor>, s': State)
    requires c.Valid() && Verdict(c, v) && Inv(c, v, s) && Runs(c, s, schedule, s')
    requires c.concurrency == 0 && n < c.Size() && Builds(c, v, n) && BeforePermit(s.pcs[n])
    ensures !Final(s')
    decreases |schedule|
  {
    if schedule != [] {
      StepInv(c, v, s, schedule[0]);
      BlockedStep(c, v, s, n, schedule[0]);
      BlockedRun(c, v, Apply(c, s, schedule[0]), n, schedule[1..], s');
    }
  }

  // The build can return iff there is at least one permit or no image wants the builder.
  lemma ReturnsIffPermits(c: Config, v: seq<bool>)
    requires c.Valid() && Verdict(c, v)
    ensures (exists s :: Reachable(c, s) && Final(s)) <==> PermitsSuffice(c, v)
  {
    InitInv(c, v);
    if PermitsSuffice(c, v) {
      var schedule, s := CompleteRun(c, v, Init(c));
      assert Reachable(c, s);
    } else if s :| Reachable(c, s) && Final(s) {
      var schedule :| Runs(c, Init(c), schedule, s);
      var n: nat :| n < c.Size() && Builds(c, v, n);
      BlockedRun(c, v, Init(c), n, schedule, s);
    }
  }

  // From every reachable state: done, or some step is enabled, and no run is longer than the initial measure.
  lemma NeverStuck(c: Config, v: seq<bool>, s: State, schedule: seq<Actor>)
    requires c.Valid() && Verdict(c, v) && PermitsSuffice(c, v) && Runs(c, Init(c), schedule, s)
    ensures Inv(c, v, s) && (Final(s) || exists a :: Enabled(c, s, a))
    ensures |schedule| <= Measure(c, Init(c))
  {
    InitInv(c, v);
    RunInv(c, v, Init(c), schedule, s);
    RunsAreShort(c, v, Init(c), schedule, s);
    if !Final(s) { var a := Progress(c, v, s); }
  }
}
