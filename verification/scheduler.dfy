// The concurrent build: WalkParallel with the visitor of rebuildGraph, the rate limiter and the
// report channel, as one transition system. Every goroutine is deterministic; the schedule is not.
module Scheduler {
  import opened Wrappers
  import opened Graphs

  datatype Flags = Flags(needsRebuild: bool, needsTests: bool, rebuildFailed: bool) {
    predicate NeedsWork() { needsRebuild || needsTests }
  }

  datatype BuildStatus = BuildSkipped | BuildSuccess | BuildError
  datatype TestsStatus = TestsSkipped | TestsPassed | TestsFailed

  // The image field is the copy taken when the visitor starts.
  datatype Report = Report(node: nat, image: Flags, build: BuildStatus, tests: TestsStatus, message: string) {
    function WithError(message: string): Report { this.(build := BuildError, message := message) }
  }

  // What does not change during a run. buildErr and testErr are the answers of buildNode and testImage;
  // order is the order in which the walk starts the goroutines.
  datatype Config = Config(g: Graph, rank: seq<nat>, order: seq<nat>, images: seq<Flags>,
                           buildErr: seq<Option<string>>, testErr: seq<Option<string>>, concurrency: nat)
  {
    function Size(): nat { g.Size() }

    ghost predicate Valid() {
      && Ranked(g, rank)
      && |images| == |buildErr| == |testErr| == Size()
      && Within(order, Size()) && Distinct(order)
      && (forall n: nat :: n < Size() ==> n in order)
    }
  }

  // ---- What each image should end with

  // v gives every node's final RebuildFailed. It is determined node by node from the parents' values.
  ghost predicate Verdict(c: Config, v: seq<bool>)
    requires c.Valid()
  {
    && |v| == c.Size()
    && forall n: nat :: n < c.Size() ==> (v[n] <==> FailsGiven(c, v, n))
  }

  predicate FailsGiven(c: Config, v: seq<bool>, n: nat)
    requires c.Valid() && |v| == c.Size() && n < c.Size()
  {
    && c.images[n].NeedsWork()
    && (c.images[n].rebuildFailed || ParentFailed(c, v, n) || (c.images[n].needsRebuild && c.buildErr[n].Some?))
  }

  predicate ParentFailed(c: Config, v: seq<bool>, n: nat)
    requires c.Valid() && |v| == c.Size() && n < c.Size()
  {
    exists i :: 0 <= i < |c.g.parents[n]| && v[c.g.parents[n][i]]
  }

  // The builder is called for the image.
  predicate Builds(c: Config, v: seq<bool>, n: nat)
    requires c.Valid() && |v| == c.Size() && n < c.Size()
  {
    c.images[n].needsRebuild && !ParentFailed(c, v, n)
  }

  function FreshReport(c: Config, n: nat): Report
    requires c.Valid() && n < c.Size()
  {
    Report(n, c.images[n], BuildSkipped, TestsSkipped, "")
  }

  function ReportOf(c: Config, v: seq<bool>, n: nat): Report
    requires c.Valid() && |v| == c.Size() && n < c.Size()
  {
    var r := FreshReport(c, n);
    if ParentFailed(c, v, n) then r
    else if c.images[n].needsRebuild && c.buildErr[n].Some? then r.WithError(c.buildErr[n].value)
    else
      var built := if c.images[n].needsRebuild then r.(build := BuildSuccess) else r;
      if !c.images[n].needsTests then built
      else if c.testErr[n].Some? then built.(tests := TestsFailed, message := c.testErr[n].value)
      else built.(tests := TestsPassed)
  }

  // ---- States and steps

  // Where the goroutine of a node stands. Check and Enlist hold the lock of the parent as well.
  datatype PC =
    | Idle                 // not started by the walk
    | Start                // wants its own lock
    | AtParent(i: nat)     // wants the lock of parent i, or is through with all parents
    | Check(i: nat)        // about to read done of parent i
    | Enlist(i: nat)       // read false: about to enter the wait list, then release the parent's lock
    | Waiting(i: nat)      // on the wait list of parent i
    | Woken(i: nat)        // wants the lock of parent i again
    | Decide               // the visitor starts
    | Scan(i: nat)         // about to read RebuildFailed of parent i
    | Acquire              // wants a permit
    | Building             // holds a permit
    | Testing
    | Send(r: Report)      // wants to hand its report over
    | Finish               // visitor returned: about to set done
    | Broadcast            // about to wake the wait list
    | Unlock               // about to release its own lock
    | Ended

  datatype ReporterState = Ready | Busy(r: Report) | Exited

  // main counts the goroutines started, then one more for the end of waitGroup.Wait.
  // visits is a history of visitor calls.
  datatype State = State(pcs: seq<PC>, lock: seq<Option<nat>>, done: seq<bool>, failed: seq<bool>, permits: nat,
                         main: nat, closed: bool, reporter: ReporterState, log: seq<Report>, visits: seq<nat>)

  datatype Actor = Goroutine(n: nat) | Main | Reporter

  function Init(c: Config): State
    requires c.Valid()
  {
    State(seq(c.Size(), _ => Idle), seq(c.Size(), _ => None), seq(c.Size(), _ => false),
          seq(c.Size(), i requires 0 <= i < c.Size() => c.images[i].rebuildFailed),
          0, 0, false, Ready, [], [])
  }

  predicate Shape(c: Config, s: State) {
    && |c.g.parents| == c.Size()
    && |s.pcs| == |s.lock| == |s.done| == |s.failed| == c.Size()
    && (forall n :: 0 <= n < c.Size() ==> PCShape(s.pcs[n], |c.g.parents[n]|))
  }

  predicate PCShape(pc: PC, k: nat) {
    match pc
    case AtParent(i) => i <= k
    case Scan(i) => i <= k
    case Check(i) => i < k
    case Enlist(i) => i < k
    case Waiting(i) => i < k
    case Woken(i) => i < k
    case _ => true
  }

  predicate Enabled(c: Config, s: State, a: Actor)
    requires c.Valid() && Shape(c, s)
  {
    match a
    case Goroutine(n) => n < c.Size() && NodeEnabled(c, s, n)
    case Main =>
      if s.main < |c.order| then true
      else if s.main == |c.order| then forall n :: 0 <= n < c.Size() ==> s.pcs[n] == Ended
      else !s.closed
    case Reporter => s.reporter.Busy? || (s.reporter.Ready? && s.closed)
  }

  predicate NodeEnabled(c: Config, s: State, n: nat)
    requires c.Valid() && Shape(c, s) && n < c.Size()
  {
    match s.pcs[n]
    case Start => s.lock[n].None?
    case AtParent(i) => i < |c.g.parents[n]| ==> s.lock[c.g.parents[n][i]].None?
    case Woken(i) => s.lock[c.g.parents[n][i]].None?
    case Acquire => s.permits < c.concurrency
    case Building => s.permits > 0
    case Send(_) => s.reporter.Ready?
    case Idle => false
    case Waiting(_) => false
    case Ended => false
    case _ => true
  }

  function Apply(c: Config, s: State, a: Actor): State
    requires c.Valid() && Shape(c, s) && Enabled(c, s, a)
  {
    match a
    case Goroutine(n) => NodeApply(c, s, n)
    case Main =>
      if s.main < |c.order| then s.(pcs := s.pcs[c.order[s.main] := Start], main := s.main + 1)
      else if s.main == |c.order| then s.(main := s.main + 1)
      else s.(closed := true)
    case Reporter =>
      if s.reporter.Busy? then s.(log := s.log + [s.reporter.r], reporter := Ready) else s.(reporter := Exited)
  }

  datatype LockStep = Keep | Take(m: nat) | Drop(m: nat)

  // What one step of a goroutine does to its own place, one lock, its own flag, the permits and the reporter.
  datatype Effect = Effect(pc: PC, lock: LockStep, failed: bool, permits: nat, reporter: ReporterState)

  function Next(c: Config, s: State, n: nat): (e: Effect)
    requires c.Valid() && Shape(c, s) && n < c.Size() && NodeEnabled(c, s, n)
    ensures match e.lock case Keep => true case Take(m) => m < c.Size() case Drop(m) => m < c.Size()
  {
    var img, ps, failed := c.images[n], c.g.parents[n], s.failed[n];
    var at := Effect(Idle, Keep, failed, s.permits, s.reporter);
    match s.pcs[n]
    case Start => at.(pc := AtParent(0), lock := Take(n))
    case AtParent(i) => if i == |ps| then at.(pc := Decide) else at.(pc := Check(i), lock := Take(ps[i]))
    case Check(i) => if s.done[ps[i]] then at.(pc := AtParent(i + 1), lock := Drop(ps[i])) else at.(pc := Enlist(i))
    case Enlist(i) => at.(pc := Waiting(i), lock := Drop(ps[i]))
    case Woken(i) => at.(pc := Check(i), lock := Take(ps[i]))
    case Decide => if img.NeedsWork() then at.(pc := Scan(0)) else at.(pc := Finish, failed := false)
    case Scan(i) =>
      if i == |ps| then at.(pc := if img.needsRebuild then Acquire else Testing)
      else if s.failed[ps[i]] then at.(pc := Send(FreshReport(c, n)), failed := true)
      else at.(pc := Scan(i + 1))
    case Acquire => at.(pc := Building, permits := s.permits + 1)
    case Building =>
      var done := at.(permits := s.permits - 1);
      if c.buildErr[n].Some? then done.(pc := Send(FreshReport(c, n).WithError(c.buildErr[n].value)), failed := true)
      else if !img.needsTests then done.(pc := Send(FreshReport(c, n).(build := BuildSuccess)))
      else done.(pc := Testing)
    case Testing =>
      var r := if img.needsRebuild then FreshReport(c, n).(build := BuildSuccess) else FreshReport(c, n);
      var tested :=
        if c.testErr[n].Some? then r.(tests := TestsFailed, message := c.testErr[n].value)
        else r.(tests := TestsPassed);
      at.(pc := Send(tested))
    case Send(r) => at.(pc := Finish, reporter := Busy(r))
    case Finish => at.(pc := Broadcast)
    case Broadcast => at.(pc := Unlock)
    case _ => at.(pc := Ended, lock := Drop(n))
  }

  // A broadcast moves everyone on the wait list of n.
  function Wake(c: Config, s: State, n: nat): seq<PC>
    requires Shape(c, s)
  {
    seq(|s.pcs|, m requires 0 <= m < |s.pcs| =>
      if s.pcs[m].Waiting? && c.g.parents[m][s.pcs[m].i] == n then Woken(s.pcs[m].i) else s.pcs[m])
  }

  function NodeApply(c: Config, s: State, n: nat): State
    requires c.Valid() && Shape(c, s) && n < c.Size() && NodeEnabled(c, s, n)
  {
    var e := Next(c, s, n);
    var lock := match e.lock case Keep => s.lock case Take(m) => s.lock[m := Some(n)] case Drop(m) => s.lock[m := None];
    State((if s.pcs[n].Broadcast? then Wake(c, s, n) else s.pcs)[n := e.pc], lock,
          s.done[n := s.done[n] || s.pcs[n].Finish?], s.failed[n := e.failed], e.permits,
          s.main, s.closed, e.reporter, s.log, if s.pcs[n].Decide? then s.visits + [n] else s.visits)
  }

  // RebuildGraph has returned.
  predicate Final(s: State) { s.reporter.Exited? }

  ghost predicate Runs(c: Config, s: State, schedule: seq<Actor>, s': State)
    requires c.Valid()
    decreases |schedule|
  {
    if schedule == [] then s == s'
    else Shape(c, s) && Enabled(c, s, schedule[0]) && Runs(c, Apply(c, s, schedule[0]), schedule[1..], s')
  }

  ghost predicate Reachable(c: Config, s: State)
    requires c.Valid()
  {
    exists schedule :: Runs(c, Init(c), schedule, s)
  }
}
