// Which images the concurrent build calls the builder and the test runners for, on every schedule.
module SchedulerCalls {
  import opened Graphs
  import opened Scheduler
  import opened SchedulerInvariant
  import opened SchedulerOutcome

  // The two calls that the visitor makes to the outside.
  datatype Call = Builder | Tests

  predicate MakesCall(pc: PC, call: Call) { if call.Builder? then pc.Building? else pc.Testing? }

  // The nodes for which the call was made, in the order of the schedule.
  ghost function Calls(c: Config, s: State, schedule: seq<Actor>, s': State, call: Call): seq<nat>
    requires c.Valid() && Runs(c, s, schedule, s')
    decreases |schedule|
  {
    if schedule == [] then []
    else
      var a, rest := schedule[0], Calls(c, Apply(c, s, schedule[0]), schedule[1..], s', call);
      if a.Goroutine? && MakesCall(s.pcs[a.n], call) then [a.n] + rest else rest
  }

  // The call is due for n: v says which images fail.
  predicate Due(c: Config, v: seq<bool>, n: nat, call: Call)
    requires c.Valid() && |v| == c.Size() && n < c.Size()
  {
    if call.Builder? then Builds(c, v, n)
    else c.images[n].needsTests && !ParentFailed(c, v, n) && !(c.images[n].needsRebuild && c.buildErr[n].Some?)
  }

  // n is past the point at which the call is made.
  predicate Past(c: Config, v: seq<bool>, pc: PC, n: nat, call: Call)
    requires c.Valid() && |v| == c.Size() && n < c.Size()
  {
    Due(c, v, n, call) && (pc.Send? || Returned(pc) || (call.Builder? && pc.Testing?))
  }

  function PastOne(c: Config, v: seq<bool>, pc: PC, n: nat, call: Call): nat
    requires c.Valid() && |v| == c.Size() && n < c.Size()
  {
    if Past(c, v, pc, n, call) then 1 else 0
  }

  // A goroutine passes the point exactly by making the call.
  lemma OwnCall(c: Config, v: seq<bool>, s: State, n: nat, call: Call)
    requires c.Valid() && Verdict(c, v) && Inv(c, v, s) && n < c.Size() && NodeEnabled(c, s, n)
    ensures PastOne(c, v, Next(c, s, n).pc, n, call)
         == PastOne(c, v, s.pcs[n], n, call) + if MakesCall(s.pcs[n], call) then 1 else 0
  {
    assert NodeInv(c, v, s, n);
    if s.pcs[n].Scan? && s.pcs[n].i < |c.g.parents[n]| {
      var p := c.g.parents[n][s.pcs[n].i];
      assert p < c.Size() && NodeInv(c, v, s, p);
      assert s.failed[p] == v[p];
    }
  }

  lemma StepCall(c: Config, v: seq<bool>, s: State, a: Actor, n: nat, call: Call)
    requires c.Valid() && Verdict(c, v) && Inv(c, v, s) && n < c.Size() && Enabled(c, s, a)
    ensures |Apply(c, s, a).pcs| == c.Size()
    ensures PastOne(c, v, Apply(c, s, a).pcs[n], n, call)
         == PastOne(c, v, s.pcs[n], n, call) + if a == Goroutine(n) && MakesCall(s.pcs[n], call) then 1 else 0
  {
    if a.Goroutine? {
      Places(c, s, a.n, n);
      if a.n == n { OwnCall(c, v, s, n, call); }
    } else if a.Main? && s.main < |c.order| {
      assert s.pcs[c.order[s.main]].Idle?;
    }
  }

  lemma {:induction false} CallsCount(c: Config, v: seq<bool>, s: State, schedule: seq<Actor>, s': State, n: nat,
                                      call: Call)
    requires c.Valid() && Verdict(c, v) && Inv(c, v, s) && n < c.Size() && Runs(c, s, schedule, s')
    ensures Inv(c, v, s')
    ensures multiset(Calls(c, s, schedule, s', call))[n] + PastOne(c, v, s.pcs[n], n, call)
         == PastOne(c, v, s'.pcs[n], n, call)
    decreases |schedule|
  {
    if schedule != [] {
      var a := schedule[0];
      StepInv(c, v, s, a);
      StepCall(c, v, s, a, n, call);
      CallsCount(c, v, Apply(c, s, a), schedule[1..], s', n, call);
    }
  }

  lemma {:induction false} CallsWithin(c: Config, v: seq<bool>, s: State, schedule: seq<Actor>, s': State, call: Call)
    requires c.Valid() && |v| == c.Size() && Runs(c, s, schedule, s')
    ensures Within(Calls(c, s, schedule, s', call), c.Size())
    decreases |schedule|
  {
    if schedule != [] { CallsWithin(c, v, Apply(c, s, schedule[0]), schedule[1..], s', call); }
  }

  // On every schedule that returns: the builder is called, once, for exactly the images marked for a rebuild that have
  // no failed parent; the tests are run, once, for exactly those marked for tests that have no failed parent and on
  // which the builder did not fail.
  lemma CallsExact(c: Config, schedule: seq<Actor>, s: State, n: nat)
    requires c.Valid() && Runs(c, Init(c), schedule, s) && Final(s) && n < c.Size()
    ensures |s.failed| == c.Size()
    ensures
      var clear := forall i :: 0 <= i < |c.g.parents[n]| ==> !s.failed[c.g.parents[n][i]];
      && multiset(Calls(c, Init(c), schedule, s, Builder))[n] == (if c.images[n].needsRebuild && clear then 1 else 0)
      && multiset(Calls(c, Init(c), schedule, s, Tests))[n] ==
           if c.images[n].needsTests && clear && !(c.images[n].needsRebuild && c.buildErr[n].Some?) then 1 else 0
    ensures forall call :: Within(Calls(c, Init(c), schedule, s, call), c.Size())
  {
    var v := VerdictOf(c);
    InitInv(c, v);
    assert Reachable(c, s);
    FinalOutcome(c, v, s);
    CallsCount(c, v, Init(c), schedule, s, n, Builder);
    CallsCount(c, v, Init(c), schedule, s, n, Tests);
    ParentsClear(c, v, n);
    assert s.pcs[n].Ended?;
    forall call ensures Within(Calls(c, Init(c), schedule, s, call), c.Size()) {
      CallsWithin(c, v, Init(c), schedule, s, call);
    }
  }
}
