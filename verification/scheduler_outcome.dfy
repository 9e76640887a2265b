// What the concurrent build has done when it returns, whatever the schedule was.
module SchedulerOutcome {
  import opened Wrappers
  import opened Graphs
  import opened Scheduler
  import opened SchedulerInvariant
  import Walks

  // ---- The verdict exists and is unique

  predicate FailedBelow(c: Config, n: nat)
    requires c.Valid() && n < c.Size()
    decreases c.rank[n]
  {
    && c.images[n].NeedsWork()
    && (|| c.images[n].rebuildFailed
        || (c.images[n].needsRebuild && c.buildErr[n].Some?)
        || exists i :: 0 <= i < |c.g.parents[n]| &&
             (ParentsRankLower(c.g, c.rank, n, c.g.parents[n][i]); FailedBelow(c, c.g.parents[n][i])))
  }

  function VerdictOf(c: Config): (v: seq<bool>)
    requires c.Valid()
    ensures Verdict(c, v)
  {
    seq(c.Size(), n requires 0 <= n < c.Size() => FailedBelow(c, n))
  }

  lemma {:induction false} VerdictUnique(c: Config, v: seq<bool>, v': seq<bool>, n: nat)
    requires c.Valid() && Verdict(c, v) && Verdict(c, v') && n < c.Size()
    ensures v[n] == v'[n]
    decreases c.rank[n]
  {
    forall i | 0 <= i < |c.g.parents[n]| ensures v[c.g.parents[n][i]] == v'[c.g.parents[n][i]] {
      ParentsRankLower(c.g, c.rank, n, c.g.parents[n][i]);
      VerdictUnique(c, v, v', c.g.parents[n][i]);
    }
    assert v[n] <==> FailsGiven(c, v, n);
    assert v'[n] <==> FailsGiven(c, v', n);
  }

  // A failed image that was clear at the start has a chain of failed parents up to a build error or a stale flag.
  lemma {:induction false} FailureHasCause(c: Config, v: seq<bool>, n: nat) returns (m: nat)
    requires c.Valid() && Verdict(c, v) && n < c.Size() && v[n]
    ensures m < c.Size() && v[m] && !ParentFailed(c, v, m)
    ensures c.images[m].rebuildFailed || (c.images[m].needsRebuild && c.buildErr[m].Some?)
    decreases c.rank[n]
  {
    assert FailsGiven(c, v, n);
    if i :| 0 <= i < |c.g.parents[n]| && v[c.g.parents[n][i]] {
      ParentsRankLower(c.g, c.rank, n, c.g.parents[n][i]);
      m := FailureHasCause(c, v, c.g.parents[n][i]);
    } else {
      m := n;
    }
  }

  // ---- The goroutines started are those of the walk: all nodes, each once

  lemma SpawnOrder(g: Graph, rank: seq<nat>, f: Forest)
    requires Ranked(g, rank) && Unfolds(g, f)
    ensures Distinct(Walks.Walk(f, [])) && Within(Walks.Walk(f, []), g.Size())
    ensures forall n: nat :: n < g.Size() ==> n in Walks.Walk(f, [])
  {
    var t := Walks.Walk(f, []);
    Walks.WalkVisits(g, f);
    forall n: nat | n < g.Size() ensures n in t {
      EveryNodeUnfolded(g, rank, f, n);
      assert n in Elems(t);
    }
    forall i | 0 <= i < |t| ensures t[i] < g.Size() {
      assert t[i] in Elems(t);
      NodesWithin(g, f, t[i]);
    }
  }

  // ---- Order and concurrency in every reachable state

  // Once the visitor of n has started, every ancestor of n has ended.
  lemma {:induction false} AncestorsEnded(c: Config, v: seq<bool>, s: State, path: seq<nat>)
    requires c.Valid() && |v| == c.Size() && Inv(c, v, s)
    requires |path| > 1 && Within(path, c.Size()) && Visited(s.pcs[path[|path|-1]])
    requires forall i :: 0 <= i < |path| - 1 ==> path[i] in c.g.parents[path[i+1]]
    ensures s.pcs[path[0]].Ended?
    decreases |path|
  {
    var n := path[|path|-1];
    assert NodeInv(c, v, s, n);
    assert path[|path|-2] in c.g.parents[path[|path|-2+1]];
    var j :| 0 <= j < |c.g.parents[n]| && c.g.parents[n][j] == path[|path|-2];
    assert s.pcs[c.g.parents[n][j]].Ended?;
    if |path| > 2 {
      AncestorsEnded(c, v, s, path[..|path|-1]);
    }
  }

  lemma {:induction false} BuildingCount(pcs: seq<PC>)
    ensures CountBuilding(pcs) == |set n: nat | n < |pcs| && pcs[n].Building?|
  {
    if pcs != [] {
      var k: nat := |pcs| - 1;
      var all, first := set n: nat | n < |pcs| && pcs[n].Building?, set n: nat | n < k && pcs[..k][n].Building?;
      BuildingCount(pcs[..k]);
      if pcs[k].Building? {
        assert all == first + {k};
      } else {
        assert all == first;
      }
    }
  }

  lemma AtMostConcurrencyBuild(c: Config, v: seq<bool>, s: State)
    requires c.Valid() && Verdict(c, v) && Reachable(c, s)
    ensures Shape(c, s) && |set n: nat | n < |s.pcs| && s.pcs[n].Building?| == s.permits <= c.concurrency
  {
    ReachableInv(c, v, s);
    BuildingCount(s.pcs);
  }

  // ---- The reports

  // Only the part of r's node can contain r.
  lemma {:induction false} SentOnce(parts: seq<multiset<Report>>, pcs: seq<PC>, k: nat, r: Report)
    requires k <= |pcs| == |parts| && forall n :: 0 <= n < |pcs| ==> pcs[n].Ended?
    requires forall n :: 0 <= n < |parts| && n != r.node ==> parts[n][r] == 0
    ensures Sent(parts, pcs, k)[r] == if r.node < k then parts[r.node][r] else 0
  {
    if k > 0 { SentOnce(parts, pcs, k - 1, r); }
  }

  lemma SentCount(c: Config, v: seq<bool>, pcs: seq<PC>, r: Report)
    requires c.Valid() && |v| == c.Size() == |pcs|
    requires forall n :: 0 <= n < c.Size() ==> pcs[n].Ended?
    ensures Sent(Parts(c, v), pcs, c.Size())[r] == Expected(c, v, r)
  {
    forall n: nat | n < c.Size() ensures n != r.node ==> Parts(c, v)[n][r] == 0 { ReportNode(c, v, n); }
    SentOnce(Parts(c, v), pcs, c.Size(), r);
  }

  lemma ReportNode(c: Config, v: seq<bool>, n: nat)
    requires c.Valid() && |v| == c.Size() && n < c.Size()
    ensures ReportOf(c, v, n).node == n
  {}

  // How often r must be among the reports.
  function Expected(c: Config, v: seq<bool>, r: Report): nat
    requires c.Valid() && |v| == c.Size()
  {
    if r.node < c.Size() && c.images[r.node].NeedsWork() && r == ReportOf(c, v, r.node) then 1 else 0
  }

  // Every schedule that returns leaves the same flags, exactly one report for each image that needs work and
  // none for the others, no permit held, no lock held, and every visitor called once, parents first.
  lemma FinalOutcome(c: Config, v: seq<bool>, s: State)
    requires c.Valid() && Verdict(c, v) && Reachable(c, s) && Final(s)
    ensures s.failed == v
    ensures forall r: Report :: multiset(s.log)[r] == Expected(c, v, r)
    ensures s.permits == 0 && s.closed && |s.lock| == c.Size() && (forall m: nat :: m < c.Size() ==> s.lock[m].None?)
    ensures Distinct(s.visits) && (forall n: nat :: n in s.visits <==> n < c.Size())
    ensures forall i :: 0 <= i < |s.visits| ==> ParentsBefore(c, s.visits, i)
  {
    ReachableInv(c, v, s);
    forall n: nat | n < c.Size() ensures s.failed[n] == v[n] { assert NodeInv(c, v, s, n); }
    forall r: Report ensures multiset(s.log)[r] == Expected(c, v, r) {
      SentCount(c, v, s.pcs, r);
    }
    NobodyBuilding(s.pcs);
    FinalLocks(c, v, s);
    FinalVisits(c, v, s);
  }

  lemma FinalLocks(c: Config, v: seq<bool>, s: State)
    requires c.Valid() && |v| == c.Size() && Inv(c, v, s) && Final(s)
    ensures forall m: nat :: m < c.Size() ==> s.lock[m].None?
  {
    forall m: nat, o: nat | m < c.Size() && o < c.Size() ensures !Owns(s.lock[m], o) {
      assert Holds(c, s.pcs[o], o, m) <==> s.lock[m] == Some(o);
    }
    forall m: nat | m < c.Size() ensures s.lock[m].None? {
      assert s.lock[m].Some? ==> Owns(s.lock[m], s.lock[m].value);
    }
  }

  predicate Owns(l: Option<nat>, o: nat) { l == Some(o) }

  lemma FinalVisits(c: Config, v: seq<bool>, s: State)
    requires c.Valid() && |v| == c.Size() && Inv(c, v, s) && Final(s)
    ensures forall n: nat :: n in s.visits <==> n < c.Size()
  {
    forall n: nat ensures n in s.visits <==> n < c.Size() {
      if n in s.visits { var i :| 0 <= i < |s.visits| && s.visits[i] == n; }
    }
  }

  lemma Logged(c: Config, v: seq<bool>, s: State, r: Report)
    requires c.Valid() && Verdict(c, v) && Reachable(c, s) && Final(s)
    ensures r in s.log <==> r.node < c.Size() && c.images[r.node].NeedsWork() && r == ReportOf(c, v, r.node)
    ensures multiset(s.log)[r] <= 1
  {
    FinalOutcome(c, v, s);
    assert r in s.log <==> multiset(s.log)[r] > 0;
  }

  lemma ParentsClear(c: Config, v: seq<bool>, n: nat)
    requires c.Valid() && |v| == c.Size() && n < c.Size()
    ensures ParentFailed(c, v, n) <==> !forall i :: 0 <= i < |c.g.parents[n]| ==> !v[c.g.parents[n][i]]
  {}

  // What the flags of a finished build say: an image that needs no work is clear; any other is marked failed iff it was
  // marked before, or one of its parents is, or the builder failed on it.
  lemma FinalFlags(c: Config, s: State, n: nat)
    requires c.Valid() && Reachable(c, s) && Final(s) && n < c.Size()
    ensures |s.failed| == c.Size()
    ensures !c.images[n].needsRebuild && !c.images[n].needsTests ==> !s.failed[n]
    ensures c.images[n].needsRebuild || c.images[n].needsTests ==>
      (s.failed[n] <==>
         || c.images[n].rebuildFailed || (c.images[n].needsRebuild && c.buildErr[n].Some?)
         || exists i :: 0 <= i < |c.g.parents[n]| && s.failed[c.g.parents[n][i]])
  {
    var v := VerdictOf(c);
    FinalOutcome(c, v, s);
    assert v[n] <==> FailsGiven(c, v, n);
  }

  // What a report of a finished build says. An image below a failed one is neither built nor tested.
  lemma ReportTells(c: Config, s: State, r: Report)
    requires c.Valid() && Reachable(c, s) && Final(s) && r in s.log
    ensures r.node < c.Size() == |s.failed| && r.image == c.images[r.node]
    ensures
      var n := r.node;
      var clear := forall i :: 0 <= i < |c.g.parents[n]| ==> !s.failed[c.g.parents[n][i]];
      var tried := c.images[n].needsRebuild && clear;
      var tested := c.images[n].needsTests && clear && !(tried && c.buildErr[n].Some?);
      && (r.build == BuildSuccess <==> tried && c.buildErr[n].None?)
      && (r.build == BuildError <==> tried && c.buildErr[n].Some?)
      && (r.build == BuildSkipped <==> !tried)
      && (r.tests == TestsPassed <==> tested && c.testErr[n].None?)
      && (r.tests == TestsFailed <==> tested && c.testErr[n].Some?)
      && (r.tests == TestsSkipped <==> !tested)
      && r.message == (if tried && c.buildErr[n].Some? then c.buildErr[n].value
                       else if tested && c.testErr[n].Some? then c.testErr[n].value
                       else "")
  {
    var v := VerdictOf(c);
    FinalOutcome(c, v, s);
    Logged(c, v, s, r);
    ParentsClear(c, v, r.node);
  }

  // Every image marked for a build or for tests has one report, and no other image has any.
  lemma ReportedOnce(c: Config, s: State)
    requires c.Valid() && Reachable(c, s) && Final(s)
    ensures forall i, j :: 0 <= i < j < |s.log| ==> s.log[i].node != s.log[j].node
    ensures forall n: nat ::
      Reported(s.log, n) <==> n < c.Size() && (c.images[n].needsRebuild || c.images[n].needsTests)
  {
    var v := VerdictOf(c);
    forall i, j | 0 <= i < j < |s.log| ensures s.log[i].node != s.log[j].node {
      Logged(c, v, s, s.log[i]);
      Logged(c, v, s, s.log[j]);
      TwiceIn(s.log, i, j);
    }
    forall n: nat ensures Reported(s.log, n) <==> n < c.Size() && c.images[n].NeedsWork() {
      if Reported(s.log, n) {
        var r :| r in s.log && r.node == n;
        Logged(c, v, s, r);
      }
      if n < c.Size() && c.images[n].NeedsWork() {
        ReportNode(c, v, n);
        Logged(c, v, s, ReportOf(c, v, n));
        assert ReportOf(c, v, n) in s.log;
      }
    }
  }

  ghost predicate Reported(log: seq<Report>, n: nat) { exists r :: r in log && r.node == n }

  // Reports are kept in the order in which they arrive.
  lemma {:induction false} LogGrows(c: Config, s: State, schedule: seq<Actor>, s': State)
    requires c.Valid() && Runs(c, s, schedule, s')
    ensures s.log <= s'.log
    decreases |schedule|
  {
    if schedule != [] { LogGrows(c, Apply(c, s, schedule[0]), schedule[1..], s'); }
  }

  lemma ScheduleIndependent(c: Config, s: State, s': State)
    requires c.Valid() && Reachable(c, s) && Final(s) && Reachable(c, s') && Final(s')
    ensures s.failed == s'.failed && multiset(s.log) == multiset(s'.log)
  {
    var v := VerdictOf(c);
    FinalOutcome(c, v, s);
    FinalOutcome(c, v, s');
    forall r: Report ensures multiset(s.log)[r] == multiset(s'.log)[r] {}
  }

  // ---- CheckError

  function CheckError(log: seq<Report>): Option<string> {
    if log == [] then None
    else if log[0].build == BuildError then Some("one of the image build failed, see the report for more details")
    else if log[0].tests == TestsFailed then Some("some tests failed, see report for more details")
    else CheckError(log[1..])
  }

  predicate IsFailure(r: Report) { r.build == BuildError || r.tests == TestsFailed }

  lemma {:induction false} CheckErrorScans(log: seq<Report>)
    ensures CheckError(log).Some? <==> exists r :: r in log && IsFailure(r)
  {
    if log != [] {
      CheckErrorScans(log[1..]);
      assert log[0] in log;
      assert forall r :: r in log <==> r == log[0] || r in log[1..];
    }
  }

  // The builder was called for n and failed, or its tests were run and failed.
  predicate SomethingFailed(c: Config, v: seq<bool>, n: nat)
    requires c.Valid() && |v| == c.Size() && n < c.Size()
  {
    && !ParentFailed(c, v, n)
    && if c.images[n].needsRebuild && c.buildErr[n].Some? then true else c.images[n].needsTests && c.testErr[n].Some?
  }

  // CheckError reports an error exactly when some build or some test run failed.
  lemma CheckErrorExact(c: Config, v: seq<bool>, s: State)
    requires c.Valid() && Verdict(c, v) && Reachable(c, s) && Final(s)
    ensures CheckError(s.log).Some? <==> exists n: nat :: n < c.Size() && SomethingFailed(c, v, n)
  {
    FinalOutcome(c, v, s);
    CheckErrorScans(s.log);
    forall r: Report ensures r in s.log <==> multiset(s.log)[r] > 0 {}
    if r :| r in s.log && IsFailure(r) {
      assert multiset(s.log)[r] > 0;
      assert SomethingFailed(c, v, r.node);
    }
    if n: nat :| n < c.Size() && SomethingFailed(c, v, n) {
      var r := ReportOf(c, v, n);
      assert r.node == n && multiset(s.log)[r] == 1 && IsFailure(r);
    }
  }

  // Which of the two errors it is, is decided by the first report of a failure.
  lemma {:induction false} CheckErrorFirst(log: seq<Report>, i: nat)
    requires i < |log| && (log[i].build == BuildError || log[i].tests == TestsFailed)
    requires forall j :: 0 <= j < i ==> log[j].build != BuildError && log[j].tests != TestsFailed
    ensures CheckError(log) == Some(if log[i].build == BuildError
                                    then "one of the image build failed, see the report for more details"
                                    else "some tests failed, see report for more details")
  {
    if i > 0 { CheckErrorFirst(log[1..], i - 1); }
  }

  // Some image is marked failed although nothing that was built or tested failed.
  ghost predicate HiddenFailure(c: Config)
    requires c.Valid()
  {
    exists v :: Verdict(c, v) && (exists n: nat :: n < c.Size() && v[n]) &&
                (forall n: nat :: n < c.Size() ==> !SomethingFailed(c, v, n))
  }

  ghost predicate StaleFlag(c: Config, n: nat)
    requires c.Valid()
  {
    n < c.Size() && c.images[n].NeedsWork() && c.images[n].rebuildFailed
  }

  ghost function WithAnswers(c: Config, be: seq<Option<string>>, te: seq<Option<string>>): (c': Config)
    requires c.Valid() && |be| == |te| == c.Size()
    ensures c'.Valid()
  {
    c.(buildErr := be, testErr := te)
  }

  // Failures always surface, for every answer of builder and tests, iff no image that needs work starts with
  // RebuildFailed set: the flag is cleared only on images without work.
  lemma FailuresSurface(c: Config)
    requires c.Valid()
    ensures (forall be, te | |be| == |te| == c.Size() :: !HiddenFailure(WithAnswers(c, be, te)))
      <==> forall n: nat :: !StaleFlag(c, n)
  {
    if forall n: nat :: !StaleFlag(c, n) {
      forall be, te | |be| == |te| == c.Size() ensures !HiddenFailure(WithAnswers(c, be, te)) {
        var c' := WithAnswers(c, be, te);
        forall v | Verdict(c', v) && exists n: nat :: n < c'.Size() && v[n]
          ensures exists n: nat :: n < c'.Size() && SomethingFailed(c', v, n)
        {
          var n: nat :| n < c'.Size() && v[n];
          var m := FailureHasCause(c', v, n);
          assert FailsGiven(c', v, m) && !StaleFlag(c, m);
          assert SomethingFailed(c', v, m);
        }
      }
    } else {
      var n: nat :| StaleFlag(c, n);
      var none: seq<Option<string>> := seq(c.Size(), _ => None);
      var c' := WithAnswers(c, none, none);
      var v := VerdictOf(c');
      assert FailsGiven(c', v, n);
      assert HiddenFailure(c');
    }
  }
}
