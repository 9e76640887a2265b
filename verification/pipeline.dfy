// Plan, rebuild, check, retag: what a whole successful build leaves behind.
module Pipeline {
  import opened Wrappers
  import opened Graphs
  import opened Refs
  import opened Scheduler
  import opened SchedulerOutcome
  import opened Retagging
  import opened Planning
  import Async = AsyncWalk
  import Dag

  // No error from CheckError and no stale flag: everything to be rebuilt was built, and nothing is marked failed.
  lemma AllBuilt(c: Config, v: seq<bool>, s: State)
    requires c.Valid() && Verdict(c, v) && Reachable(c, s) && Scheduler.Final(s) && CheckError(s.log).None?
    requires forall n: nat :: !StaleFlag(c, n)
    ensures forall n: nat :: n < c.Size() ==> !v[n]
    ensures forall n: nat :: n < c.Size() && c.images[n].needsRebuild ==> Builds(c, v, n) && c.buildErr[n].None?
  {
    CheckErrorExact(c, v, s);
    forall n: nat | n < c.Size() ensures !v[n] {
      if v[n] {
        var m := FailureHasCause(c, v, n);
        assert FailsGiven(c, v, m) && !StaleFlag(c, m);
        assert SomethingFailed(c, v, m);
      }
    }
    forall n: nat | n < c.Size() && c.images[n].needsRebuild ensures Builds(c, v, n) && c.buildErr[n].None? {
      assert !SomethingFailed(c, v, n);
    }
  }

  predicate Pushed(c: Config, v: seq<bool>, n: nat)
    requires c.Valid() && |v| == c.Size()
  {
    n < c.Size() && Builds(c, v, n) && c.buildErr[n].None?
  }

  // A successful build publishes what it built under the image's current ref, and touches no other ref.
  ghost predicate Published(c: Config, v: seq<bool>, imgs: seq<Img>, built: seq<string>, before: Registry,
                            after: Registry)
    requires c.Valid() && |v| == c.Size()
  {
    && |imgs| == |built| == c.Size()
    && (forall n: nat :: Pushed(c, v, n) ==> Stands(after, imgs[n].Current(), built[n]))
    && (forall r :: r in before && !PushedRef(c, v, imgs, r) ==> Stands(after, r, before[r]))
  }

  ghost predicate PushedRef(c: Config, v: seq<bool>, imgs: seq<Img>, r: string)
    requires c.Valid() && |v| == c.Size() == |imgs|
  {
    exists n: nat :: Pushed(c, v, n) && r == imgs[n].Current()
  }

  // The flags that Plan sets on images with clear flags.
  ghost predicate PlannedConfig(c: Config, imgs: seq<Img>, force: bool, noTests: bool, registry: set<string>) {
    && |imgs| == |c.images| == c.Size()
    && forall n: nat :: n < |imgs| ==>
         && (c.images[n].needsRebuild <==> force || imgs[n].Final() !in registry)
         && (c.images[n].needsTests <==> c.images[n].needsRebuild && !noTests)
         && imgs[n].needsRebuild == c.images[n].needsRebuild
         && !c.images[n].rebuildFailed
  }

  // What an image stands for after the build: what was built, or what its ref stood for all along.
  function Content(img: Img, built: string, reg: Registry): string {
    if img.needsRebuild then built else if img.Final() in reg then reg[img.Final()] else built
  }

  function Contents(imgs: seq<Img>, built: seq<string>, reg: Registry): seq<string>
    requires |built| == |imgs|
  {
    seq(|imgs|, n requires 0 <= n < |imgs| => Content(imgs[n], built[n], reg))
  }

  lemma CurrentRefsStand(c: Config, v: seq<bool>, imgs: seq<Img>, o: Options, force: bool, noTests: bool,
                         built: seq<string>, reg: Registry, reg1: Registry)
    requires c.Valid() && |v| == c.Size() && Separate(imgs, o) && PlannedConfig(c, imgs, force, noTests, reg.Keys)
    requires Published(c, v, imgs, built, reg, reg1)
    requires forall n: nat :: n < c.Size() && c.images[n].needsRebuild ==> Pushed(c, v, n)
    ensures CurrentStands(reg1, imgs, Contents(imgs, built, reg))
  {
    forall n: nat | n < |imgs| ensures Stands(reg1, imgs[n].Current(), Contents(imgs, built, reg)[n]) {
      if !imgs[n].needsRebuild {
        var r := imgs[n].Current();
        assert r == imgs[n].Final() && r in reg;
        if PushedRef(c, v, imgs, r) {
          var m: nat :| Pushed(c, v, m) && r == imgs[m].Current();
          assert OwnsRef(imgs[n], o, r) by { assert imgs[n].hash in TagsOf(imgs[n], o); }
          assert OwnsRef(imgs[m], o, r) by {
            assert CurrentTag(imgs[m].hash, imgs[m].needsRebuild) in TagsOf(imgs[m], o);
          }
          OneOwner(imgs, o, n, m, r);
        }
      }
    }
  }

  // A build from clear flags in which Plan, all builds and tests, and Retag succeed, under any schedule of the two
  // concurrent walks: every image is known under its final tag (and its release tags), with the content just built
  // or the one it had. A second plan over the same names and hashes finds nothing to do.
  lemma BuildIsIncremental(c: Config, v: seq<bool>, s: State, f: Forest, imgs: seq<Img>, o: Options, force: bool,
                           noTests: bool,
                           built: seq<string>, reg: Registry, reg1: Registry, run: seq<Async.State>, n: nat)
    requires c.Valid() && Unfolds(c.g, f) && Separate(imgs, o) && PlannedConfig(c, imgs, force, noTests, reg.Keys)
    requires Verdict(c, v) && Reachable(c, s) && Scheduler.Final(s) && CheckError(s.log).None?
    requires Published(c, v, imgs, built, reg, reg1)
    requires Async.Run(RetagConfig(imgs, o, {}), f, run) && Async.Final(Async.Last(run)) && Async.Last(run).err.None?
    requires n < |imgs|
    ensures Tagged(Replay(reg1, Async.Last(run).shared.log, imgs, o), imgs[n], o, Content(imgs[n], built[n], reg))
    ensures imgs[n].Final() in Replay(reg1, Async.Last(run).shared.log, imgs, o)
  {
    assert forall m: nat :: !StaleFlag(c, m);
    AllBuilt(c, v, s);
    CurrentRefsStand(c, v, imgs, o, force, noTests, built, reg, reg1);
    EveryNodeUnfolded(c.g, c.rank, f, n);
    forall m | m in Nodes(f) ensures m < |imgs| { NodesWithin(c.g, f, m); }
    RetagResult(reg1, imgs, o, Contents(imgs, built, reg), {}, f, run, n);
  }

  // The second Plan on the objects: new images, clear flags, same names and hashes.
  method PlanAgain(graph: Dag.DAG, nodes: seq<Dag.Node>, noTests: bool, answer: Result<map<string, bool>, string>,
                   ghost imgs: seq<Img>, ghost reg2: Registry, ghost run: seq<Async.State>, ghost g: Graph,
                   ghost f: Forest)
    returns (err: Option<string>)
    requires Represents(graph, nodes, g, f) && RefAnswer(RefsOf(nodes), reg2.Keys, f, run, answer)
    requires |nodes| == |imgs| && forall n: nat :: n < |nodes| ==>
      && !nodes[n].image.needsRebuild && !nodes[n].image.needsTests
      && nodes[n].image.name == imgs[n].name && nodes[n].image.hash == imgs[n].hash && imgs[n].Final() in reg2
    modifies Images(nodes)`needsRebuild, Images(nodes)`needsTests
    ensures forall n: nat :: n < |nodes| ==> !nodes[n].image.needsRebuild && !nodes[n].image.needsTests
    ensures err.Some? <==> Async.AnyFailed(Async.Last(run).shared.log)
  {
    ghost var refs := RefsOf(nodes);
    assert forall n: nat :: n < |nodes| ==> refs[n] == imgs[n].Final();
    err := Plan(graph, nodes, false, noTests, answer, reg2.Keys, run, g, f);
  }
}
