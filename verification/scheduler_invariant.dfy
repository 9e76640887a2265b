// What every step of the concurrent build keeps.
module SchedulerInvariant {
  import opened Wrappers
  import opened Graphs
  import opened Scheduler

  // How many parents the goroutine is through with.
  function Cleared(pc: PC, k: nat): nat {
    match pc
    case Idle => 0
    case Start => 0
    case AtParent(i) => i
    case Check(i) => i
    case Enlist(i) => i
    case Waiting(i) => i
    case Woken(i) => i
    case _ => k
  }

  // The visitor has been called.
  predicate Visited(pc: PC) {
    pc.Scan? || pc.Acquire? || pc.Building? || pc.Testing? || pc.Send? || Returned(pc)
  }

  predicate Returned(pc: PC) { pc.Finish? || Published(pc) }

  predicate Published(pc: PC) { pc.Broadcast? || pc.Unlock? || pc.Ended? }

  predicate HoldsOwn(pc: PC) { !pc.Idle? && !pc.Start? && !pc.Ended? }

  // What the flag, the report in hand and the branch taken must be at each point of the visitor.
  ghost predicate FlagInv(c: Config, v: seq<bool>, failed: bool, pc: PC, n: nat)
    requires c.Valid() && |v| == c.Size() && n < c.Size() && PCShape(pc, |c.g.parents[n]|)
  {
    match pc
    case Scan(i) =>
      && failed == c.images[n].rebuildFailed && c.images[n].NeedsWork()
      && (forall j :: 0 <= j < i ==> !v[c.g.parents[n][j]])
    case Acquire => failed == c.images[n].rebuildFailed && Builds(c, v, n)
    case Building => failed == c.images[n].rebuildFailed && Builds(c, v, n)
    case Testing =>
      && failed == c.images[n].rebuildFailed && c.images[n].needsTests && !ParentFailed(c, v, n)
      && (c.images[n].needsRebuild ==> c.buildErr[n].None?)
    case Send(r) => c.images[n].NeedsWork() && r == ReportOf(c, v, n) && failed == v[n]
    case _ => failed == if Returned(pc) then v[n] else c.images[n].rebuildFailed
  }

  ghost predicate NodeInv(c: Config, v: seq<bool>, s: State, n: nat)
    requires c.Valid() && |v| == c.Size() && Shape(c, s) && n < c.Size()
  {
    var pc, ps := s.pcs[n], c.g.parents[n];
    && (forall j :: 0 <= j < Cleared(pc, |ps|) ==> s.pcs[ps[j]].Ended?)
    && (s.done[n] <==> Published(pc))
    && (pc.Enlist? ==> !s.done[ps[pc.i]])
    && (pc.Waiting? ==> !s.pcs[ps[pc.i]].Unlock? && !s.pcs[ps[pc.i]].Ended?)
    && (pc.Woken? ==> s.done[ps[pc.i]])
    && FlagInv(c, v, s.failed[n], pc, n)
  }

  ghost predicate Nodes(c: Config, v: seq<bool>, s: State)
    requires c.Valid() && |v| == c.Size() && Shape(c, s)
  {
    forall n: nat :: n < c.Size() ==> NodeInv(c, v, s, n)
  }

  predicate Holds(c: Config, pc: PC, o: nat, m: nat)
    requires o < |c.g.parents| && PCShape(pc, |c.g.parents[o]|)
  {
    (m == o && HoldsOwn(pc)) || ((pc.Check? || pc.Enlist?) && c.g.parents[o][pc.i] == m)
  }

  // The owner recorded for a lock is the one goroutine that stands where it holds it.
  ghost predicate Locks(c: Config, s: State)
    requires c.Valid() && Shape(c, s)
  {
    forall m: nat, o: nat {:trigger Holds(c, s.pcs[o], o, m)} :: m < c.Size() && o < c.Size() ==>
      (Holds(c, s.pcs[o], o, m) <==> s.lock[m] == Some(o))
  }

  ghost predicate LockOwners(c: Config, s: State)
    requires Shape(c, s)
  {
    forall m: nat :: m < c.Size() && s.lock[m].Some? ==> s.lock[m].value < c.Size()
  }

  function CountBuilding(pcs: seq<PC>): nat {
    if pcs == [] then 0 else (if pcs[|pcs|-1].Building? then 1 else 0) + CountBuilding(pcs[..|pcs|-1])
  }

  ghost predicate Permits(c: Config, s: State) {
    s.permits == CountBuilding(s.pcs) && s.permits <= c.concurrency
  }

  ghost predicate Walker(c: Config, s: State)
    requires c.Valid() && Shape(c, s)
  {
    && s.main <= |c.order| + 1
    && (s.closed ==> s.main == |c.order| + 1)
    && (s.main == |c.order| + 1 ==> forall n :: 0 <= n < c.Size() ==> s.pcs[n].Ended?)
    && (forall i :: 0 <= i < |c.order| ==> (s.pcs[c.order[i]].Idle? <==> i >= s.main))
    && (s.reporter.Exited? ==> s.closed)
  }

  // What each node reports in the end: one report if it needs work, none otherwise.
  function Parts(c: Config, v: seq<bool>): seq<multiset<Report>>
    requires c.Valid() && |v| == c.Size()
  {
    seq(c.Size(),
        n requires 0 <= n < c.Size() => if c.images[n].NeedsWork() then multiset{ReportOf(c, v, n)} else multiset{})
  }

  // The reports of the first k nodes that have handed theirs over.
  function Sent(parts: seq<multiset<Report>>, pcs: seq<PC>, k: nat): multiset<Report>
    requires k <= |pcs| == |parts|
  {
    if k == 0 then multiset{}
    else Sent(parts, pcs, k - 1) + if Returned(pcs[k-1]) then parts[k-1] else multiset{}
  }

  function InFlight(r: ReporterState): multiset<Report> {
    if r.Busy? then multiset{r.r} else multiset{}
  }

  ghost predicate Reports(c: Config, v: seq<bool>, s: State)
    requires c.Valid() && |v| == c.Size() && Shape(c, s)
  {
    multiset(s.log) + InFlight(s.reporter) == Sent(Parts(c, v), s.pcs, c.Size())
  }

  // The visits so far: each node at most once, its parents before it.
  ghost predicate Visits(c: Config, s: State)
    requires c.Valid() && Shape(c, s)
  {
    && Distinct(s.visits) && Within(s.visits, c.Size())
    && (forall n: nat :: n < c.Size() ==> (n in s.visits <==> Visited(s.pcs[n])))
    && (forall i :: 0 <= i < |s.visits| ==> ParentsBefore(c, s.visits, i))
  }

  ghost predicate ParentsBefore(c: Config, t: seq<nat>, i: nat)
    requires i < |t|
  {
    t[i] < |c.g.parents| && forall p :: p in c.g.parents[t[i]] ==> p in t[..i]
  }

  ghost predicate Inv(c: Config, v: seq<bool>, s: State)
    requires c.Valid() && |v| == c.Size()
  {
    && Shape(c, s) && Nodes(c, v, s) && Locks(c, s) && LockOwners(c, s) && Permits(c, s) && Walker(c, s)
    && Reports(c, v, s) && Visits(c, s)
  }

  // ---- Initially

  lemma {:induction false} NobodyBuilding(pcs: seq<PC>)
    requires forall i :: 0 <= i < |pcs| ==> !pcs[i].Building?
    ensures CountBuilding(pcs) == 0
  {
    if pcs != [] { NobodyBuilding(pcs[..|pcs|-1]); }
  }

  lemma {:induction false} NothingSent(parts: seq<multiset<Report>>, pcs: seq<PC>, k: nat)
    requires k <= |pcs| == |parts|
    requires forall i :: 0 <= i < k ==> !Returned(pcs[i])
    ensures Sent(parts, pcs, k) == multiset{}
  {
    if k > 0 { NothingSent(parts, pcs, k - 1); }
  }

  lemma InitInv(c: Config, v: seq<bool>)
    requires c.Valid() && |v| == c.Size()
    ensures Inv(c, v, Init(c))
  {
    NobodyBuilding(Init(c).pcs);
    NothingSent(Parts(c, v), Init(c).pcs, c.Size());
  }

  // ---- One step

  // A lock taken by a goroutine is not its own, so the parent it waits for is another node.
  lemma ParentIsOther(c: Config, n: nat, i: nat)
    requires c.Valid() && n < c.Size() && i < |c.g.parents[n]|
    ensures c.g.parents[n][i] < c.Size() && c.g.parents[n][i] != n
  {
    ParentsRankLower(c.g, c.rank, n, c.g.parents[n][i]);
  }

  // The counts of a sequence of program counters change by what happens at one place.
  lemma {:induction false} CountUpdate(pcs: seq<PC>, n: nat, pc: PC)
    requires n < |pcs|
    ensures CountBuilding(pcs[n := pc]) + (if pcs[n].Building? then 1 else 0)
         == CountBuilding(pcs) + (if pc.Building? then 1 else 0)
  {
    var k := |pcs| - 1;
    if n == k {
      assert pcs[n := pc][..k] == pcs[..k];
    } else {
      assert pcs[n := pc][..k] == pcs[..k][n := pc];
      CountUpdate(pcs[..k], n, pc);
    }
  }

  lemma {:induction false} CountSame(pcs: seq<PC>, pcs': seq<PC>)
    requires |pcs| == |pcs'| && forall i :: 0 <= i < |pcs| ==> (pcs[i].Building? <==> pcs'[i].Building?)
    ensures CountBuilding(pcs) == CountBuilding(pcs')
  {
    if pcs != [] { CountSame(pcs[..|pcs|-1], pcs'[..|pcs|-1]); }
  }

  lemma {:induction false} SentSame(parts: seq<multiset<Report>>, pcs: seq<PC>, pcs': seq<PC>, k: nat)
    requires k <= |pcs| == |pcs'| == |parts|
    requires forall i :: 0 <= i < k ==> (Returned(pcs[i]) <==> Returned(pcs'[i]))
    ensures Sent(parts, pcs, k) == Sent(parts, pcs', k)
  {
    if k > 0 { SentSame(parts, pcs, pcs', k - 1); }
  }

  lemma {:induction false} SentAdd(parts: seq<multiset<Report>>, pcs: seq<PC>, pc: PC, n: nat, k: nat)
    requires n < k <= |pcs| == |parts|
    requires !Returned(pcs[n]) && Returned(pc)
    ensures Sent(parts, pcs[n := pc], k) == Sent(parts, pcs, k) + parts[n]
  {
    if n == k - 1 {
      SentSame(parts, pcs, pcs[n := pc], n);
    } else {
      SentAdd(parts, pcs, pc, n, k - 1);
    }
  }

  // What a step does to the places of the goroutines.
  lemma Places(c: Config, s: State, n: nat, m: nat)
    requires c.Valid() && Shape(c, s) && n < c.Size() && m < c.Size() && NodeEnabled(c, s, n)
    ensures NodeApply(c, s, n).pcs[m] ==
      if m == n then Next(c, s, n).pc
      else if s.pcs[n].Broadcast? && s.pcs[m].Waiting? && c.g.parents[m][s.pcs[m].i] == n then Woken(s.pcs[m].i)
      else s.pcs[m]
  {
  }

  // The order of places, without what the visitor carries.
  lemma NextPlace(c: Config, s: State, n: nat)
    requires c.Valid() && Shape(c, s) && n < c.Size() && NodeEnabled(c, s, n)
    ensures var pc, pc' := s.pcs[n], Next(c, s, n).pc;
      && PCShape(pc', |c.g.parents[n]|)
      && !pc.Idle? && !pc.Waiting? && !pc.Ended? && !pc'.Idle? && !pc'.Start?
      && (pc'.Building? <==> pc.Acquire?)
      && (Returned(pc') <==> Returned(pc) || pc.Send? || (pc.Decide? && !c.images[n].NeedsWork()))
      && (Visited(pc') <==> Visited(pc) || pc.Decide?)
      && (Published(pc') <==> Published(pc) || pc.Finish?)
      && (pc'.Ended? <==> pc.Unlock?) && (pc'.Unlock? <==> pc.Broadcast?)
  {
  }

  // The order of places while waiting for parents.
  lemma NextClears(c: Config, s: State, n: nat)
    requires c.Valid() && Shape(c, s) && n < c.Size() && NodeEnabled(c, s, n)
    ensures var pc, pc', ps := s.pcs[n], Next(c, s, n).pc, c.g.parents[n];
      && (Cleared(pc', |ps|) == Cleared(pc, |ps|) ||
           (pc.Check? && Cleared(pc', |ps|) == pc.i + 1 && s.done[ps[pc.i]]))
      && (pc'.Enlist? ==> pc == Check(pc'.i) && !s.done[ps[pc'.i]])
      && (pc'.Waiting? ==> pc == Enlist(pc'.i))
      && !pc'.Woken?
  {
  }

  lemma ShapeKept(c: Config, s: State, n: nat)
    requires c.Valid() && Shape(c, s) && n < c.Size() && NodeEnabled(c, s, n)
    ensures Shape(c, NodeApply(c, s, n))
  {
    NextPlace(c, s, n);
    forall m: nat | m < c.Size() ensures PCShape(NodeApply(c, s, n).pcs[m], |c.g.parents[m]|) {
      Places(c, s, n, m);
    }
  }

  // What the node step relies on.
  ghost predicate Inv0(c: Config, v: seq<bool>, s: State)
    requires c.Valid() && |v| == c.Size()
  {
    Shape(c, s) && Nodes(c, v, s) && Locks(c, s)
  }

  lemma OtherNode(c: Config, v: seq<bool>, s: State, n: nat, m: nat)
    requires c.Valid() && |v| == c.Size() && Inv0(c, v, s) && n < c.Size() && m < c.Size() && m != n
    requires NodeEnabled(c, s, n)
    requires Shape(c, NodeApply(c, s, n))
    ensures NodeInv(c, v, NodeApply(c, s, n), m)
  {
    var s', pc, ps := NodeApply(c, s, n), s.pcs[m], c.g.parents[m];
    Places(c, s, n, m);
    Places(c, s, n, n);
    NextPlace(c, s, n);
    assert NodeInv(c, v, s, m) && NodeInv(c, v, s, n);
    forall j | 0 <= j < Cleared(pc, |ps|) ensures s'.pcs[ps[j]].Ended? { Places(c, s, n, ps[j]); }
    if pc.Enlist? {
      assert Holds(c, pc, m, ps[pc.i]);
      if ps[pc.i] == n && HoldsOwn(s.pcs[n]) { assert Holds(c, s.pcs[n], n, n); }
    } else if pc.Waiting? {
      Places(c, s, n, ps[pc.i]);
    }
  }

  lemma SelfNode(c: Config, v: seq<bool>, s: State, n: nat)
    requires c.Valid() && Verdict(c, v) && Inv0(c, v, s) && n < c.Size() && NodeEnabled(c, s, n)
    requires Shape(c, NodeApply(c, s, n))
    ensures NodeInv(c, v, NodeApply(c, s, n), n)
  {
    var s', pc, ps := NodeApply(c, s, n), s.pcs[n], c.g.parents[n];
    assert NodeInv(c, v, s, n);
    Places(c, s, n, n);
    NextPlace(c, s, n);
    NextClears(c, s, n);
    forall j: nat | j < |ps|
      ensures ps[j] < c.Size() && ps[j] != n && s'.done[ps[j]] == s.done[ps[j]]
      ensures s'.pcs[ps[j]].Ended? <==> s.pcs[ps[j]].Ended?
      ensures s'.pcs[ps[j]].Unlock? <==> s.pcs[ps[j]].Unlock?
    {
      ParentIsOther(c, n, j);
      Places(c, s, n, ps[j]);
    }
    if pc.Check? || pc.Enlist? { DoneEnded(c, v, s, n); }
    SelfFlag(c, v, s, n);
  }

  // A goroutine that holds its parent's lock sees a parent that is either not done or through.
  lemma DoneEnded(c: Config, v: seq<bool>, s: State, n: nat)
    requires c.Valid() && |v| == c.Size() && Inv0(c, v, s) && n < c.Size() && (s.pcs[n].Check? || s.pcs[n].Enlist?)
    ensures var p := c.g.parents[n][s.pcs[n].i];
      p < c.Size() && (s.done[p] <==> s.pcs[p].Ended?) && !s.pcs[p].Unlock?
  {
    var p := c.g.parents[n][s.pcs[n].i];
    ParentIsOther(c, n, s.pcs[n].i);
    assert NodeInv(c, v, s, p);
    assert Holds(c, s.pcs[n], n, p);
    assert Holds(c, s.pcs[p], p, p) <==> s.lock[p] == Some(p);
  }

  // The branch the visitor takes agrees with the verdict: while it scans its parents,
  lemma ScanFlag(c: Config, v: seq<bool>, s: State, n: nat)
    requires c.Valid() && Verdict(c, v) && Inv0(c, v, s) && n < c.Size() && NodeEnabled(c, s, n) && s.pcs[n].Scan?
    requires PCShape(Next(c, s, n).pc, |c.g.parents[n]|)
    ensures FlagInv(c, v, Next(c, s, n).failed, Next(c, s, n).pc, n)
  {
    var i, ps := s.pcs[n].i, c.g.parents[n];
    assert NodeInv(c, v, s, n);
    assert v[n] <==> FailsGiven(c, v, n);
    if i < |ps| {
      ParentIsOther(c, n, i);
      assert NodeInv(c, v, s, ps[i]);
      assert v[ps[i]] ==> ParentFailed(c, v, n);
    } else {
      assert !ParentFailed(c, v, n);
    }
  }

  // after the builder and the tests have answered,
  lemma WorkFlag(c: Config, v: seq<bool>, s: State, n: nat)
    requires c.Valid() && Verdict(c, v) && Inv0(c, v, s) && n < c.Size() && NodeEnabled(c, s, n)
    requires s.pcs[n].Acquire? || s.pcs[n].Building? || s.pcs[n].Testing?
    requires PCShape(Next(c, s, n).pc, |c.g.parents[n]|)
    ensures FlagInv(c, v, Next(c, s, n).failed, Next(c, s, n).pc, n)
  {
    assert NodeInv(c, v, s, n);
    assert v[n] <==> FailsGiven(c, v, n);
  }

  // and before and after that.
  lemma SelfFlag(c: Config, v: seq<bool>, s: State, n: nat)
    requires c.Valid() && Verdict(c, v) && Inv0(c, v, s) && n < c.Size() && NodeEnabled(c, s, n)
    requires PCShape(Next(c, s, n).pc, |c.g.parents[n]|)
    ensures FlagInv(c, v, Next(c, s, n).failed, Next(c, s, n).pc, n)
  {
    var pc := s.pcs[n];
    if pc.Scan? {
      ScanFlag(c, v, s, n);
    } else if pc.Acquire? || pc.Building? || pc.Testing? {
      WorkFlag(c, v, s, n);
    } else {
      assert NodeInv(c, v, s, n);
      assert v[n] <==> FailsGiven(c, v, n);
    }
  }

  lemma StepNodes(c: Config, v: seq<bool>, s: State, n: nat)
    requires c.Valid() && Verdict(c, v) && Inv0(c, v, s) && n < c.Size() && NodeEnabled(c, s, n)
    requires Shape(c, NodeApply(c, s, n))
    ensures Nodes(c, v, NodeApply(c, s, n))
  {
    forall m: nat | m < c.Size() ensures NodeInv(c, v, NodeApply(c, s, n), m) {
      if m == n { SelfNode(c, v, s, n); } else { OtherNode(c, v, s, n, m); }
    }
  }

  // A lock is taken only when free and dropped only by its holder.
  lemma NextLock(c: Config, s: State, n: nat)
    requires c.Valid() && Shape(c, s) && n < c.Size() && NodeEnabled(c, s, n)
    ensures var pc, e := s.pcs[n], Next(c, s, n);
      match e.lock
      case Keep => forall m :: Holds(c, pc, n, m) <==> Holds(c, e.pc, n, m)
      case Take(l) => s.lock[l].None? && forall m :: Holds(c, e.pc, n, m) <==> Holds(c, pc, n, m) || m == l
      case Drop(l) => Holds(c, pc, n, l) && forall m :: Holds(c, e.pc, n, m) <==> Holds(c, pc, n, m) && m != l
  {
    forall i: nat | i < |c.g.parents[n]| ensures c.g.parents[n][i] != n { ParentIsOther(c, n, i); }
    NextPlace(c, s, n);
  }

  lemma StepLocks(c: Config, s: State, n: nat)
    requires c.Valid() && Shape(c, s) && Locks(c, s) && LockOwners(c, s) && n < c.Size() && NodeEnabled(c, s, n)
    requires Shape(c, NodeApply(c, s, n))
    ensures Locks(c, NodeApply(c, s, n)) && LockOwners(c, NodeApply(c, s, n))
  {
    var s' := NodeApply(c, s, n);
    NextLock(c, s, n);
    forall m: nat, o: nat | m < c.Size() && o < c.Size()
      ensures Holds(c, s'.pcs[o], o, m) <==> s'.lock[m] == Some(o)
    {
      assert Holds(c, s.pcs[o], o, m) <==> s.lock[m] == Some(o);
      assert Holds(c, s.pcs[n], n, m) <==> s.lock[m] == Some(n);
      Places(c, s, n, o);
    }
  }

  lemma StepPermits(c: Config, s: State, n: nat)
    requires c.Valid() && Shape(c, s) && Permits(c, s) && n < c.Size() && NodeEnabled(c, s, n)
    ensures Permits(c, NodeApply(c, s, n))
  {
    var e := Next(c, s, n);
    var pcs := if s.pcs[n].Broadcast? then Wake(c, s, n) else s.pcs;
    CountSame(s.pcs, pcs);
    CountUpdate(pcs, n, e.pc);
    NextPlace(c, s, n);
  }

  lemma StepReports(c: Config, v: seq<bool>, s: State, n: nat)
    requires c.Valid() && |v| == c.Size() && Shape(c, s) && Nodes(c, v, s) && Reports(c, v, s) && n < c.Size()
    requires NodeEnabled(c, s, n)
    requires Shape(c, NodeApply(c, s, n))
    ensures Reports(c, v, NodeApply(c, s, n))
  {
    var s', parts := NodeApply(c, s, n), Parts(c, v);
    HandedOver(c, v, s, n);
    PlacesReturned(c, s, n);
    if Returned(s'.pcs[n]) && !Returned(s.pcs[n]) {
      SentSame(parts, s.pcs, s'.pcs[n := s.pcs[n]], c.Size());
      SentAdd(parts, s'.pcs[n := s.pcs[n]], s'.pcs[n], n, c.Size());
      assert s'.pcs[n := s.pcs[n]][n := s'.pcs[n]] == s'.pcs;
    } else {
      SentSame(parts, s.pcs, s'.pcs, c.Size());
    }
  }

  // Only the goroutine that steps can return.
  lemma PlacesReturned(c: Config, s: State, n: nat)
    requires c.Valid() && Shape(c, s) && n < c.Size() && NodeEnabled(c, s, n)
    ensures forall m: nat :: m < c.Size() && m != n ==> (Returned(NodeApply(c, s, n).pcs[m]) <==> Returned(s.pcs[m]))
    ensures Returned(NodeApply(c, s, n).pcs[n]) <==>
      Returned(s.pcs[n]) || s.pcs[n].Send? || (s.pcs[n].Decide? && !c.images[n].NeedsWork())
  {
    NextPlace(c, s, n);
    forall m: nat | m < c.Size() && m != n ensures Returned(NodeApply(c, s, n).pcs[m]) <==> Returned(s.pcs[m]) {
      Places(c, s, n, m);
    }
  }

  // What a visitor hands over when it returns, and that nothing is handed over otherwise.
  lemma HandedOver(c: Config, v: seq<bool>, s: State, n: nat)
    requires c.Valid() && |v| == c.Size() && Shape(c, s) && Nodes(c, v, s) && n < c.Size() && NodeEnabled(c, s, n)
    ensures NodeApply(c, s, n).log == s.log && InFlight(NodeApply(c, s, n).reporter) == InFlight(s.reporter) +
      if s.pcs[n].Send? || (s.pcs[n].Decide? && !c.images[n].NeedsWork()) then Parts(c, v)[n] else multiset{}
  {
    assert NodeInv(c, v, s, n);
  }

  lemma StepWalker(c: Config, s: State, n: nat)
    requires c.Valid() && Shape(c, s) && Walker(c, s) && n < c.Size() && NodeEnabled(c, s, n)
    requires Shape(c, NodeApply(c, s, n))
    ensures Walker(c, NodeApply(c, s, n))
  {
    var s' := NodeApply(c, s, n);
    NextPlace(c, s, n);
    forall m: nat | m < c.Size()
      ensures (s'.pcs[m].Idle? <==> s.pcs[m].Idle?) && (s.pcs[m].Ended? ==> s'.pcs[m].Ended?)
    {
      Places(c, s, n, m);
    }
  }

  lemma StepVisits(c: Config, v: seq<bool>, s: State, n: nat)
    requires c.Valid() && |v| == c.Size() && Shape(c, s) && Nodes(c, v, s) && Visits(c, s) && n < c.Size()
    requires NodeEnabled(c, s, n)
    requires Shape(c, NodeApply(c, s, n))
    ensures Visits(c, NodeApply(c, s, n))
  {
    var s', t := NodeApply(c, s, n), s.visits;
    NextPlace(c, s, n);
    forall m: nat | m < c.Size()
      ensures Visited(s'.pcs[m]) <==> Visited(s.pcs[m]) || (m == n && s.pcs[n].Decide?)
    {
      Places(c, s, n, m);
    }
    if s.pcs[n].Decide? { VisitAppended(c, v, s, n); }
  }

  lemma VisitAppended(c: Config, v: seq<bool>, s: State, n: nat)
    requires c.Valid() && |v| == c.Size() && Shape(c, s) && Nodes(c, v, s) && Visits(c, s) && n < c.Size()
    requires s.pcs[n].Decide?
    ensures Distinct(s.visits + [n])
    ensures forall i :: 0 <= i < |s.visits + [n]| ==> ParentsBefore(c, s.visits + [n], i)
  {
    var t := s.visits;
    assert NodeInv(c, v, s, n);
    forall i | 0 <= i < |t + [n]| ensures ParentsBefore(c, t + [n], i) {
      assert (t + [n])[..i] == t[..i];
      if i < |t| {
        assert ParentsBefore(c, t, i);
      } else {
        assert t[..i] == t;
        forall p | p in c.g.parents[n] ensures p in t {
          var j :| 0 <= j < |c.g.parents[n]| && c.g.parents[n][j] == p;
          assert s.pcs[c.g.parents[n][j]].Ended?;
        }
      }
    }
  }

  // ---- All steps

  // The walk starts the next goroutine.
  lemma SpawnNodes(c: Config, v: seq<bool>, s: State)
    requires c.Valid() && |v| == c.Size() && Shape(c, s) && Nodes(c, v, s) && Walker(c, s) && s.main < |c.order|
    ensures Shape(c, Apply(c, s, Main)) && Nodes(c, v, Apply(c, s, Main))
  {
    var s', n := Apply(c, s, Main), c.order[s.main];
    assert s.pcs[n].Idle?;
    forall m: nat | m < c.Size() ensures NodeInv(c, v, s', m) { assert NodeInv(c, v, s, m); }
  }

  lemma SpawnLocks(c: Config, s: State)
    requires c.Valid() && Shape(c, s) && Locks(c, s) && Walker(c, s) && s.main < |c.order|
    requires Shape(c, Apply(c, s, Main))
    ensures Locks(c, Apply(c, s, Main))
  {
    var s', n := Apply(c, s, Main), c.order[s.main];
    assert s.pcs[n].Idle?;
    forall m: nat, o: nat | m < c.Size() && o < c.Size()
      ensures Holds(c, s'.pcs[o], o, m) <==> s'.lock[m] == Some(o)
    {
      assert Holds(c, s.pcs[o], o, m) <==> s.lock[m] == Some(o);
    }
  }

  lemma SpawnCounts(c: Config, v: seq<bool>, s: State)
    requires c.Valid() && |v| == c.Size() && Shape(c, s) && Permits(c, s) && Reports(c, v, s) && Visits(c, s)
    requires Walker(c, s) && s.main < |c.order| && Shape(c, Apply(c, s, Main))
    ensures Permits(c, Apply(c, s, Main)) && Reports(c, v, Apply(c, s, Main)) && Visits(c, Apply(c, s, Main))
  {
    var s', n := Apply(c, s, Main), c.order[s.main];
    assert s.pcs[n].Idle?;
    CountUpdate(s.pcs, n, Start);
    SentSame(Parts(c, v), s.pcs, s'.pcs, c.Size());
  }

  lemma MainStep(c: Config, v: seq<bool>, s: State)
    requires c.Valid() && |v| == c.Size() && Inv(c, v, s) && Enabled(c, s, Main)
    ensures Inv(c, v, Apply(c, s, Main))
  {
    if s.main < |c.order| {
      SpawnNodes(c, v, s);
      SpawnLocks(c, s);
      SpawnCounts(c, v, s);
    } else {
      forall m: nat | m < c.Size() ensures NodeInv(c, v, Apply(c, s, Main), m) { assert NodeInv(c, v, s, m); }
    }
  }

  lemma ReporterStep(c: Config, v: seq<bool>, s: State)
    requires c.Valid() && |v| == c.Size() && Inv(c, v, s) && Enabled(c, s, Reporter)
    ensures Inv(c, v, Apply(c, s, Reporter))
  {
    var s' := Apply(c, s, Reporter);
    forall m: nat | m < c.Size() ensures NodeInv(c, v, s', m) { assert NodeInv(c, v, s, m); }
    if s.reporter.Busy? { assert multiset(s.log + [s.reporter.r]) == multiset(s.log) + multiset{s.reporter.r}; }
  }

  lemma StepInv(c: Config, v: seq<bool>, s: State, a: Actor)
    requires c.Valid() && Verdict(c, v) && Inv(c, v, s) && Enabled(c, s, a)
    ensures Inv(c, v, Apply(c, s, a))
  {
    match a
    case Main => MainStep(c, v, s);
    case Reporter => ReporterStep(c, v, s);
    case Goroutine(n) =>
      ShapeKept(c, s, n);
      StepNodes(c, v, s, n);
      StepLocks(c, s, n);
      StepPermits(c, s, n);
      StepReports(c, v, s, n);
      StepWalker(c, s, n);
      StepVisits(c, v, s, n);
  }

  lemma {:induction false} RunInv(c: Config, v: seq<bool>, s: State, schedule: seq<Actor>, s': State)
    requires c.Valid() && Verdict(c, v) && Inv(c, v, s) && Runs(c, s, schedule, s')
    ensures Inv(c, v, s')
    decreases |schedule|
  {
    if schedule != [] {
      StepInv(c, v, s, schedule[0]);
      RunInv(c, v, Apply(c, s, schedule[0]), schedule[1..], s');
    }
  }

  // Under every schedule, every state reached satisfies the invariant.
  lemma ReachableInv(c: Config, v: seq<bool>, s: State)
    requires c.Valid() && Verdict(c, v) && Reachable(c, s)
    ensures Inv(c, v, s)
  {
    InitInv(c, v);
    var schedule :| Runs(c, Init(c), schedule, s);
    RunInv(c, v, Init(c), schedule, s);
  }
}
