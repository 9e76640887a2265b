// Retag: every image gets its final tag and, on a release, its placeholder and extra tags.
module Retagging {
  import opened Wrappers
  import opened Graphs
  import opened Refs
  import Async = AsyncWalk
  import Dag

  // The registry: refs with what they stand for.
  type Registry = map<string, string>

  datatype TagOp = Tag(src: string, dst: string)

  // A successful Tag copies a ref.
  function Copy(reg: Registry, op: TagOp): Registry {
    if op.src in reg then reg[op.dst := reg[op.src]] else reg
  }

  function CopyAll(reg: Registry, ops: seq<TagOp>): Registry {
    if ops == [] then reg else Copy(CopyAll(reg, ops[..|ops|-1]), ops[|ops|-1])
  }

  datatype Img = Img(name: string, extraTags: seq<string>, hash: string, needsRebuild: bool) {
    function Current(): string { CurrentRef(name, hash, needsRebuild) }
    function Final(): string { DockerRef(name, hash) }
  }

  datatype Options = Options(placeholder: string, release: bool)

  function ExtraOps(img: Img): seq<TagOp> {
    seq(|img.extraTags|, i requires 0 <= i < |img.extraTags| => Tag(img.Final(), DockerRef(img.name, img.extraTags[i])))
  }

  function FinalOps(img: Img): seq<TagOp> {
    if img.Current() != img.Final() then [Tag(img.Current(), img.Final())] else []
  }

  function ReleaseOps(img: Img, placeholder: string): seq<TagOp> {
    [Tag(img.Final(), DockerRef(img.name, placeholder))] + ExtraOps(img)
  }

  // The Tag calls for one image, in order.
  function TagOps(img: Img, o: Options): seq<TagOp> {
    FinalOps(img) + if o.release then ReleaseOps(img, o.placeholder) else []
  }

  // ---- The visitor

  class Tagger {
    var refs: Registry
    const failing: set<string> // destinations on which Tag returns an error

    constructor (refs: Registry, failing: set<string>)
      ensures this.refs == refs && this.failing == failing
    {
      this.refs, this.failing := refs, failing;
    }

    method Tag(src: string, dst: string) returns (failed: bool)
      modifies this
      ensures failed <==> dst in failing
      ensures refs == if failed then old(refs) else Copy(old(refs), TagOp.Tag(src, dst))
    {
      failed := dst in failing;
      if !failed && src in refs { refs := refs[dst := refs[src]]; }
    }
  }

  function ValueOf(img: Dag.Image): Img
    reads img
  {
    Img(img.name, img.extraTags, img.hash, img.needsRebuild)
  }

  // The first k calls of ops succeeded; the next one failed, or there is none.
  ghost predicate Stopped(before: Registry, after: Registry, ops: seq<TagOp>, failing: set<string>, failed: bool,
                          k: nat) {
    && k <= |ops| && after == CopyAll(before, ops[..k])
    && (forall i :: 0 <= i < k ==> ops[i].dst !in failing)
    && if failed then k < |ops| && ops[k].dst in failing else k == |ops|
  }

  ghost predicate Performed(before: Registry, after: Registry, ops: seq<TagOp>, failing: set<string>, failed: bool) {
    exists k: nat :: Stopped(before, after, ops, failing, failed, k)
  }

  lemma {:induction false} CopyAllConcat(reg: Registry, s: seq<TagOp>, t: seq<TagOp>)
    ensures CopyAll(reg, s + t) == CopyAll(CopyAll(reg, s), t)
  {
    if t == [] {
      assert s + t == s;
    } else {
      assert (s + t)[..|s+t|-1] == s + t[..|t|-1];
      CopyAllConcat(reg, s, t[..|t|-1]);
    }
  }

  // A failure stops everything that was to follow.
  lemma PerformedThen(a: Registry, b: Registry, c: Registry, s: seq<TagOp>, t: seq<TagOp>, failing: set<string>,
                      failed: bool)
    ensures Performed(a, b, s, failing, true) ==> Performed(a, b, s + t, failing, true)
    ensures Performed(a, b, s, failing, false) && Performed(b, c, t, failing, failed) ==>
      Performed(a, c, s + t, failing, failed)
  {
    if Performed(a, b, s, failing, true) {
      var k: nat :| Stopped(a, b, s, failing, true, k);
      assert (s + t)[..k] == s[..k];
      assert Stopped(a, b, s + t, failing, true, k);
    }
    if Performed(a, b, s, failing, false) && Performed(b, c, t, failing, failed) {
      var j: nat :| Stopped(a, b, s, failing, false, j);
      var k: nat :| Stopped(b, c, t, failing, failed, k);
      assert s[..|s|] == s;
      CopyAllConcat(a, s, t[..k]);
      assert (s + t)[..|s|+k] == s + t[..k];
      assert Stopped(a, c, s + t, failing, failed, |s| + k);
    }
  }

  lemma PerformedOne(a: Registry, b: Registry, op: TagOp, failing: set<string>, failed: bool)
    requires failed <==> op.dst in failing
    requires b == if failed then a else Copy(a, op)
    ensures Performed(a, b, [op], failing, failed)
  {
    assert [op][..0] == [] && [op][..1] == [op] && [op][..1][..0] == [];
    assert Stopped(a, b, [op], failing, failed, if failed then 0 else 1);
  }

  lemma PerformedNone(a: Registry, failing: set<string>)
    ensures Performed(a, a, [], failing, false)
  {
    var none: seq<TagOp> := [];
    assert none[..0] == [];
    assert Stopped(a, a, none, failing, false, 0);
  }

  method RetagExtras(img: Dag.Image, tagger: Tagger) returns (failed: bool)
    modifies tagger
    ensures Performed(old(tagger.refs), tagger.refs, ExtraOps(ValueOf(img)), tagger.failing, failed)
  {
    ghost var ops, start := ExtraOps(ValueOf(img)), tagger.refs;
    var final := DockerRef(img.name, img.hash);
    PerformedNone(start, tagger.failing);
    assert ops[..0] == [];
    for i := 0 to |img.extraTags|
      invariant Performed(start, tagger.refs, ops[..i], tagger.failing, false)
    {
      ghost var mid := tagger.refs;
      failed := tagger.Tag(final, DockerRef(img.name, img.extraTags[i]));
      PerformedOne(mid, tagger.refs, ops[i], tagger.failing, failed);
      PerformedThen(start, mid, tagger.refs, ops[..i], [ops[i]], tagger.failing, failed);
      assert ops[..i+1] == ops[..i] + [ops[i]];
      if failed {
        PerformedThen(start, tagger.refs, tagger.refs, ops[..i+1], ops[i+1..], tagger.failing, true);
        assert ops[..i+1] + ops[i+1..] == ops;
        return;
      }
    }
    assert ops[..|img.extraTags|] == ops;
    failed := false;
  }

  method RetagRelease(img: Dag.Image, tagger: Tagger, placeholder: string) returns (failed: bool)
    modifies tagger
    ensures Performed(old(tagger.refs), tagger.refs, ReleaseOps(ValueOf(img), placeholder), tagger.failing, failed)
  {
    ghost var start, rest := tagger.refs, ExtraOps(ValueOf(img));
    var final := DockerRef(img.name, img.hash);
    failed := tagger.Tag(final, DockerRef(img.name, placeholder));
    ghost var mid, first := tagger.refs, TagOp.Tag(final, DockerRef(img.name, placeholder));
    PerformedOne(start, mid, first, tagger.failing, failed);
    if !failed { failed := RetagExtras(img, tagger); }
    PerformedThen(start, mid, tagger.refs, [first], rest, tagger.failing, failed);
  }

  // ---- What the calls for one image do to the registry, on the refs themselves

  // r is none of the refs that a retag of this image writes.
  ghost predicate Untargeted(name: string, hash: string, extraTags: seq<string>, o: Options, r: string) {
    && r != name + ":" + hash
    && (o.release ==> r != name + ":" + o.placeholder && forall t :: t in extraTags ==> r != name + ":" + t)
  }

  lemma TargetsOnly(img: Img, o: Options, r: string, k: nat)
    requires Untargeted(img.name, img.hash, img.extraTags, o, r) && k < |TagOps(img, o)|
    ensures TagOps(img, o)[k].dst != r
  {
    var first := |FinalOps(img)|;
    if k > first {
      assert TagOps(img, o)[k] == ExtraOps(img)[k-first-1];
      assert img.extraTags[k-first-1] in img.extraTags;
    }
  }

  lemma {:induction false} CopyAllFrame(reg: Registry, ops: seq<TagOp>, r: string)
    requires forall k :: 0 <= k < |ops| ==> ops[k].dst != r
    ensures r in CopyAll(reg, ops) <==> r in reg
    ensures r in reg ==> CopyAll(reg, ops)[r] == reg[r]
  {
    if ops != [] { CopyAllFrame(reg, ops[..|ops|-1], r); }
  }

  lemma CopyOne(reg: Registry, op: TagOp, content: string)
    requires Stands(reg, op.src, content)
    ensures Stands(Copy(reg, op), op.dst, content)
    ensures forall r :: Stands(reg, r, content) ==> Stands(Copy(reg, op), r, content)
  {}

  // The first k targets stand for the content.
  ghost predicate TargetsStand(reg: Registry, ops: seq<TagOp>, k: nat, content: string)
    requires k <= |ops|
  {
    forall j :: 0 <= j < k ==> Stands(reg, ops[j].dst, content)
  }

  // The first call copies the current ref, to the final one if that is another; the later calls copy the final one.
  ghost predicate Chained(ops: seq<TagOp>, current: string, final: string) {
    && (ops != [] ==> ops[0].src == current)
    && (ops != [] && current != final ==> ops[0].dst == final)
    && (forall k :: 0 < k < |ops| ==> ops[k].src == final)
  }

  lemma OpsChained(img: Img, o: Options)
    ensures Chained(TagOps(img, o), img.Current(), img.Final())
  {
    forall k: nat | k < |TagOps(img, o)|
      ensures TagOps(img, o)[k].src == if k == 0 then img.Current() else img.Final()
      ensures img.Current() != img.Final() ==> TagOps(img, o)[0].dst == img.Final()
    {
      OpsOwned(img, o, k);
    }
  }

  // Every call of one image copies the same content on.
  lemma {:induction false} CopiesStand(reg: Registry, ops: seq<TagOp>, current: string, final: string, k: nat,
                                       content: string)
    requires k <= |ops| && Chained(ops, current, final) && Stands(reg, current, content)
    ensures Stands(CopyAll(reg, ops[..k]), current, content)
    ensures TargetsStand(CopyAll(reg, ops[..k]), ops, k, content)
  {
    if k > 0 {
      var before := CopyAll(reg, ops[..k-1]);
      CopiesStand(reg, ops, current, final, k - 1, content);
      CopyOne(before, ops[k-1], content);
      LastCopy(reg, ops, k);
    }
  }

  lemma LastCopy(reg: Registry, ops: seq<TagOp>, k: nat)
    requires 0 < k <= |ops|
    ensures CopyAll(reg, ops[..k]) == Copy(CopyAll(reg, ops[..k-1]), ops[k-1])
  {
    assert ops[..k][..k-1] == ops[..k-1];
  }

  lemma PerformedFrame(before: Registry, after: Registry, img: Img, o: Options, failing: set<string>, failed: bool,
                       r: string)
    requires Performed(before, after, TagOps(img, o), failing, failed)
    requires Untargeted(img.name, img.hash, img.extraTags, o, r)
    ensures (r in after <==> r in before) && (r in before ==> after[r] == before[r])
  {
    var ops := TagOps(img, o);
    var k: nat :| Stopped(before, after, ops, failing, failed, k);
    forall i | 0 <= i < k ensures ops[..k][i].dst != r { TargetsOnly(img, o, r, i); }
    CopyAllFrame(before, ops[..k], r);
  }

  lemma PerformedTags(before: Registry, after: Registry, img: Img, o: Options, failing: set<string>)
    requires Performed(before, after, TagOps(img, o), failing, false)
    requires img.Current() in before
    ensures Tagged(after, img, o, before[img.Current()])
  {
    var ops := TagOps(img, o);
    var k: nat :| Stopped(before, after, ops, failing, false, k);
    OpsChained(img, o);
    CopiesStand(before, ops, img.Current(), img.Final(), k, before[img.Current()]);
    assert TargetsStand(after, ops, |ops|, before[img.Current()]);
    OpsCoverTags(after, img, o, before[img.Current()]);
  }

  // The visitor: nothing on an image marked done; otherwise all its Tag calls up to the first that fails,
  // and the mark exactly when none did.
  method RetagImage(img: Dag.Image, tagger: Tagger, o: Options) returns (failed: bool)
    modifies img`retagDone, tagger
    ensures old(img.retagDone) ==> !failed && img.retagDone && tagger.refs == old(tagger.refs)
    ensures !old(img.retagDone) ==>
      Performed(old(tagger.refs), tagger.refs, TagOps(ValueOf(img), o), tagger.failing,
                failed) && img.retagDone == !failed
    ensures forall r :: Untargeted(img.name, img.hash, img.extraTags, o, r) ==>
      (r in tagger.refs <==> r in old(tagger.refs)) && (r in tagger.refs ==> tagger.refs[r] == old(tagger.refs)[r])
    ensures var current := if img.needsRebuild then img.name + ":dev-" + img.hash else img.name + ":" + img.hash;
      !old(img.retagDone) && !failed && current in old(tagger.refs) ==>
        Tagged(tagger.refs, ValueOf(img), o, old(tagger.refs)[current])
  {
    if img.retagDone { return false; }
    ghost var start, v := tagger.refs, ValueOf(img);
    var current, final := CurrentRef(img.name, img.hash, img.needsRebuild), DockerRef(img.name, img.hash);
    PerformedNone(start, tagger.failing);
    failed := false;
    if current != final {
      failed := tagger.Tag(current, final);
      PerformedOne(start, tagger.refs, TagOp.Tag(current, final), tagger.failing, failed);
    }
    ghost var mid := tagger.refs;
    assert Performed(start, mid, FinalOps(v), tagger.failing, failed);
    PerformedNone(mid, tagger.failing);
    if !failed && o.release { failed := RetagRelease(img, tagger, o.placeholder); }
    PerformedThen(start, mid, tagger.refs, FinalOps(v), if o.release then ReleaseOps(v, o.placeholder) else [],
                  tagger.failing, failed);
    forall r | Untargeted(v.name, v.hash, v.extraTags, o, r)
      ensures (r in tagger.refs <==> r in start) && (r in start ==> tagger.refs[r] == start[r])
    {
      PerformedFrame(start, tagger.refs, v, o, tagger.failing, failed, r);
    }
    if failed { return; }
    CurrentTags(img.name, img.hash);
    if v.Current() in start { PerformedTags(start, tagger.refs, v, o, tagger.failing); }
    img.retagDone := true;
  }

  // ---- The walk

  // The operations of the visitor on each node: its Tag calls, which may fail, then setting RetagDone.
  function RetagConfig(imgs: seq<Img>, o: Options, done: set<nat>): Async.Config {
    Async.Config(seq(|imgs|, n requires 0 <= n < |imgs| => seq(|TagOps(imgs[n], o)|, _ => true) + [false]), true, done)
  }

  // Exactly the Tag calls can fail: one if the image was rebuilt, and on a release one for the placeholder and one for
  // each extra tag.
  lemma OnlyTagsFail(imgs: seq<Img>, o: Options, done: set<nat>, n: nat, k: nat, s: Async.Shared, e: string)
    requires n < |imgs|
    ensures
      var s' := s.(log := s.log + [Async.Failed(n, k, e)]);
      var calls := (if imgs[n].needsRebuild then 1 else 0) + if o.release then 1 + |imgs[n].extraTags| else 0;
      Async.VisitStep(RetagConfig(imgs, o, done), n, Async.Ops(k), s, Async.Done(Some(e)), s') <==> k < calls
  {
    assert |s.log + [Async.Failed(n, k, e)]| == |s.log| + 1;
    CurrentTags(imgs[n].name, imgs[n].hash);
    assert |TagOps(imgs[n], o)|
        == (if imgs[n].needsRebuild then 1 else 0) + if o.release then 1 + |imgs[n].extraTags| else 0;
  }

  // A goroutine that finds the image marked done, before the walk or by another that is through with all calls and the
  // mark, does nothing; otherwise it makes the calls.
  lemma DoneTested(imgs: seq<Img>, o: Options, done: set<nat>, n: nat, s: Async.Shared, v: Async.Visit,
                   s': Async.Shared)
    requires n < |imgs|
    ensures
      var calls := (if imgs[n].needsRebuild then 1 else 0) + if o.release then 1 + |imgs[n].extraTags| else 0;
      Async.VisitStep(RetagConfig(imgs, o, done), n, Async.Test, s, v, s') <==>
        s' == s && v == if n in done || Async.Did(n, calls) in s.log then Async.Done(None) else Async.Ops(0)
  {
    CurrentTags(imgs[n].name, imgs[n].hash);
    assert |TagOps(imgs[n], o)|
        == (if imgs[n].needsRebuild then 1 else 0) + if o.release then 1 + |imgs[n].extraTags| else 0;
  }

  // The registry after the operations of log, whichever goroutines performed them.
  function Replay(reg: Registry, log: seq<Async.Event>, imgs: seq<Img>, o: Options): Registry {
    if log == [] then reg
    else Perform(Replay(reg, log[..|log|-1], imgs, o), log[|log|-1], imgs, o)
  }

  function Perform(reg: Registry, ev: Async.Event, imgs: seq<Img>, o: Options): Registry {
    if ev.Did? && ev.n < |imgs| && ev.k < |TagOps(imgs[ev.n], o)| then Copy(reg, TagOps(imgs[ev.n], o)[ev.k]) else reg
  }

  // ---- Refs of different images never meet

  function TagsOf(img: Img, o: Options): set<string> {
    {img.hash, "dev-" + img.hash, o.placeholder} + set t | t in img.extraTags
  }

  ghost predicate OwnsRef(img: Img, o: Options, r: string) {
    exists t :: t in TagsOf(img, o) && r == DockerRef(img.name, t)
  }

  // Names are distinct, and either they or the tags have no colon.
  ghost predicate Separate(imgs: seq<Img>, o: Options) {
    && (forall n: nat, m: nat :: n < m < |imgs| ==> imgs[n].name != imgs[m].name)
    && (|| (forall n: nat :: n < |imgs| ==> ColonFree(imgs[n].name))
        || (forall n: nat, t :: n < |imgs| && t in TagsOf(imgs[n], o) ==> ColonFree(t)))
  }

  lemma OneOwner(imgs: seq<Img>, o: Options, n: nat, m: nat, r: string)
    requires Separate(imgs, o) && n < |imgs| && m < |imgs| && OwnsRef(imgs[n], o, r) && OwnsRef(imgs[m], o, r)
    ensures n == m
  {
    var t :| t in TagsOf(imgs[n], o) && r == DockerRef(imgs[n].name, t);
    var u :| u in TagsOf(imgs[m], o) && r == DockerRef(imgs[m].name, u);
    if forall n: nat :: n < |imgs| ==> ColonFree(imgs[n].name) {
      RefUnique(imgs[n].name, t, imgs[m].name, u);
    } else {
      RefUniqueTags(imgs[n].name, t, imgs[m].name, u);
    }
  }

  lemma OpsOwned(img: Img, o: Options, k: nat)
    requires k < |TagOps(img, o)|
    ensures OwnsRef(img, o, img.Current()) && OwnsRef(img, o, img.Final()) && OwnsRef(img, o, TagOps(img, o)[k].dst)
    ensures TagOps(img, o)[k].src == if k == 0 then img.Current() else img.Final()
    ensures img.Current() != img.Final() ==> TagOps(img, o)[0].dst == img.Final()
  {
    assert img.hash in TagsOf(img, o) && CurrentTag(img.hash, img.needsRebuild) in TagsOf(img, o);
    assert o.placeholder in TagsOf(img, o);
    assert forall i :: 0 <= i < |img.extraTags| ==> img.extraTags[i] in TagsOf(img, o);
  }

  // ---- What the walk leaves in the registry

  ghost predicate Stands(reg: Registry, r: string, content: string) { r in reg && reg[r] == content }

  ghost predicate CurrentStands(reg: Registry, imgs: seq<Img>, contents: seq<string>) {
    |contents| == |imgs| && forall n: nat :: n < |imgs| ==> Stands(reg, imgs[n].Current(), contents[n])
  }

  // Every target written so far stands for the content of its image.
  ghost predicate WrittenStand(reg: Registry, imgs: seq<Img>, o: Options, contents: seq<string>,
                               log: seq<Async.Event>) {
    && |contents| == |imgs|
    && (forall n: nat, k: nat :: n < |imgs| && k < |TagOps(imgs[n], o)| && Async.Did(n, k) in log ==>
          Stands(reg, TagOps(imgs[n], o)[k].dst, contents[n]))
  }

  // The source of an operation stands for the image's content when the operation is performed.
  lemma SourceStands(reg: Registry, imgs: seq<Img>, o: Options, contents: seq<string>, f: Forest, done: set<nat>,
                     log: seq<Async.Event>, n: nat, k: nat)
    requires CurrentStands(reg, imgs, contents) && WrittenStand(reg, imgs, o, contents, log)
    requires Async.Ordered(RetagConfig(imgs, o, done), f, log)
    requires n < |imgs| && k < |TagOps(imgs[n], o)| && (k > 0 ==> Async.Did(n, k - 1) in log)
    ensures Stands(reg, TagOps(imgs[n], o)[k].src, contents[n])
  {
    OpsOwned(imgs[n], o, k);
    if k > 0 && imgs[n].Current() != imgs[n].Final() {
      Async.EarlierToo(RetagConfig(imgs, o, done), f, log, n, k - 1, 0);
      FinalWritten(reg, imgs, o, contents, log, n);
    }
  }

  lemma FinalWritten(reg: Registry, imgs: seq<Img>, o: Options, contents: seq<string>, log: seq<Async.Event>, n: nat)
    requires WrittenStand(reg, imgs, o, contents, log) && n < |imgs|
    requires imgs[n].Current() != imgs[n].Final() && Async.Did(n, 0) in log
    ensures Stands(reg, imgs[n].Final(), contents[n])
  {
    OpsOwned(imgs[n], o, 0);
    assert TagOps(imgs[n], o)[0].dst == imgs[n].Final();
  }

  lemma CopyStands(reg: Registry, imgs: seq<Img>, o: Options, contents: seq<string>, n: nat, k: nat, m: nat, r: string)
    requires Separate(imgs, o) && |contents| == |imgs| && n < |imgs| && k < |TagOps(imgs[n], o)| && m < |imgs|
    requires Stands(reg, TagOps(imgs[n], o)[k].src, contents[n])
    requires OwnsRef(imgs[m], o, r) && Stands(reg, r, contents[m])
    ensures Stands(Copy(reg, TagOps(imgs[n], o)[k]), r, contents[m])
  {
    OpsOwned(imgs[n], o, k);
    if r == TagOps(imgs[n], o)[k].dst { OneOwner(imgs, o, n, m, r); }
  }

  lemma CopyKeeps(reg: Registry, imgs: seq<Img>, o: Options, contents: seq<string>, log: seq<Async.Event>, n: nat,
                  k: nat)
    requires Separate(imgs, o) && CurrentStands(reg, imgs, contents) && WrittenStand(reg, imgs, o, contents, log)
    requires n < |imgs| && k < |TagOps(imgs[n], o)| && Stands(reg, TagOps(imgs[n], o)[k].src, contents[n])
    ensures CurrentStands(Copy(reg, TagOps(imgs[n], o)[k]), imgs, contents)
    ensures WrittenStand(Copy(reg, TagOps(imgs[n], o)[k]), imgs, o, contents, log + [Async.Did(n, k)])
  {
    var reg' := Copy(reg, TagOps(imgs[n], o)[k]);
    forall m: nat | m < |imgs| ensures Stands(reg', imgs[m].Current(), contents[m]) {
      assert CurrentTag(imgs[m].hash, imgs[m].needsRebuild) in TagsOf(imgs[m], o);
      CopyStands(reg, imgs, o, contents, n, k, m, imgs[m].Current());
    }
    forall m: nat, j: nat | m < |imgs| && j < |TagOps(imgs[m], o)| && Async.Did(m, j) in log + [Async.Did(n, k)]
      ensures Stands(reg', TagOps(imgs[m], o)[j].dst, contents[m])
    {
      OpsOwned(imgs[m], o, j);
      if Async.Did(m, j) in log {
        CopyStands(reg, imgs, o, contents, n, k, m, TagOps(imgs[m], o)[j].dst);
      }
    }
  }

  lemma OrderedPrefix(c: Async.Config, f: Forest, log: seq<Async.Event>)
    requires Async.Ordered(c, f, log) && log != []
    ensures Async.Ordered(c, f, log[..|log|-1])
    ensures var ev := log[|log|-1]; ev.Did? && ev.k > 0 ==> Async.Did(ev.n, ev.k - 1) in log[..|log|-1]
  {
    var front := log[..|log|-1];
    forall i | 0 <= i < |front| && front[i].Did? && front[i].k > 0
      ensures Async.Did(front[i].n, front[i].k - 1) in front[..i]
    {
      assert front[..i] == log[..i];
    }
  }

  lemma PerformKeeps(reg: Registry, front: seq<Async.Event>, ev: Async.Event, imgs: seq<Img>, o: Options,
                     contents: seq<string>, f: Forest, done: set<nat>)
    requires Separate(imgs, o) && CurrentStands(reg, imgs, contents) && WrittenStand(reg, imgs, o, contents, front)
    requires Async.Ordered(RetagConfig(imgs, o, done), f, front)
    requires ev.Did? && ev.k > 0 ==> Async.Did(ev.n, ev.k - 1) in front
    ensures CurrentStands(Perform(reg, ev, imgs, o), imgs, contents)
    ensures WrittenStand(Perform(reg, ev, imgs, o), imgs, o, contents, front + [ev])
  {
    if ev.Did? && ev.n < |imgs| && ev.k < |TagOps(imgs[ev.n], o)| {
      SourceStands(reg, imgs, o, contents, f, done, front, ev.n, ev.k);
      CopyKeeps(reg, imgs, o, contents, front, ev.n, ev.k);
    }
  }

  // Any interleaving of any number of visits of each image.
  lemma {:induction false} ReplayStands(reg: Registry, log: seq<Async.Event>, imgs: seq<Img>, o: Options,
                                        contents: seq<string>, f: Forest, done: set<nat>)
    requires Separate(imgs, o) && CurrentStands(reg, imgs, contents)
    requires Async.Ordered(RetagConfig(imgs, o, done), f, log)
    ensures CurrentStands(Replay(reg, log, imgs, o), imgs, contents)
    ensures WrittenStand(Replay(reg, log, imgs, o), imgs, o, contents, log)
  {
    if log != [] {
      var k := |log| - 1;
      OrderedPrefix(RetagConfig(imgs, o, done), f, log);
      ReplayStands(reg, log[..k], imgs, o, contents, f, done);
      PerformKeeps(Replay(reg, log[..k], imgs, o), log[..k], log[k], imgs, o, contents, f, done);
      assert log == log[..k] + [log[k]];
    }
  }

  // Every image is known under all its tags, and they all stand for its content.
  ghost predicate Tagged(reg: Registry, img: Img, o: Options, content: string) {
    && Stands(reg, img.Final(), content)
    && (o.release ==> Stands(reg, DockerRef(img.name, o.placeholder), content) &&
                      forall t :: t in img.extraTags ==> Stands(reg, DockerRef(img.name, t), content))
  }

  lemma OpsCoverTags(reg: Registry, img: Img, o: Options, content: string)
    requires Stands(reg, img.Current(), content)
    requires forall k :: 0 <= k < |TagOps(img, o)| ==> Stands(reg, TagOps(img, o)[k].dst, content)
    ensures Tagged(reg, img, o, content)
  {
    var ops := TagOps(img, o);
    var k := if img.Current() != img.Final() then 1 else 0;
    if k == 1 { assert ops[0].dst == img.Final(); }
    if o.release {
      assert ops[k].dst == DockerRef(img.name, o.placeholder);
      forall t | t in img.extraTags ensures Stands(reg, DockerRef(img.name, t), content) {
        var i :| 0 <= i < |img.extraTags| && img.extraTags[i] == t;
        assert ops[k+1+i] == ExtraOps(img)[i];
      }
    }
  }

  // After a Retag that returned nil, starting with no reachable image marked done, every reachable image is tagged,
  // even when several goroutines retagged it at the same time.
  lemma RetagResult(reg: Registry, imgs: seq<Img>, o: Options, contents: seq<string>, done: set<nat>, f: Forest,
                    run: seq<Async.State>, n: nat)
    requires Separate(imgs, o) && CurrentStands(reg, imgs, contents)
    requires Async.Covers(RetagConfig(imgs, o, done), f)
    requires Async.Run(RetagConfig(imgs, o, done), f, run) && Async.Final(Async.Last(run)) && Async.Last(run).err.None?
    requires n in Nodes(f) && n !in done && n < |imgs|
    ensures Tagged(Replay(reg, Async.Last(run).shared.log, imgs, o), imgs[n], o, contents[n])
  {
    var c, log := RetagConfig(imgs, o, done), Async.Last(run).shared.log;
    Async.WalkResult(c, f, run);
    ReplayStands(reg, log, imgs, o, contents, f, done);
    assert Async.Complete(c, log, n) && |c.ops[n]| == |TagOps(imgs[n], o)| + 1;
    assert forall k :: 0 <= k < |TagOps(imgs[n], o)| ==> Async.Did(n, k) in log;
    OpsCoverTags(Replay(reg, log, imgs, o), imgs[n], o, contents[n]);
  }

  // An image that was marked done before the walk is left alone.
  predicate Idle(ts: Async.Tasks, n: nat) {
    ts.Cons? ==> (ts.node == n ==> !ts.visit.Ops?) && Idle(ts.kids, n) && Idle(ts.rest, n)
  }

  lemma {:induction false} StartIdle(ts: Async.Tasks, n: nat)
    requires Async.HasNew(ts) && Idle(ts, n)
    ensures Idle(Async.StartNext(ts), n)
  {
    if !ts.phase.New? { StartIdle(ts.rest, n); }
  }

  ghost predicate NotDid(log: seq<Async.Event>, n: nat) {
    forall i :: 0 <= i < |log| && log[i].Did? ==> log[i].n != n
  }

  lemma {:induction false} ListIdle(c: Async.Config, ts: Async.Tasks, e: Option<string>, s: Async.Shared,
                                    ts': Async.Tasks, e': Option<string>, s': Async.Shared, n: nat)
    requires c.guarded && n in c.done && Async.ListStep(c, ts, e, s, ts', e', s')
    requires Idle(ts, n) && NotDid(s.log, n)
    ensures Idle(ts', n) && NotDid(s'.log, n)
  {
    if Async.HeadStep(c, ts, e, s, ts', e', s') {
      if Async.SpawnStep(ts, e, s, ts', e', s') {
        if !ts.visit.Unspawned? { StartIdle(ts.kids, n); }
      } else if Async.VisitStep(c, ts.node, ts.visit, s, ts'.visit, s')
                && ts' == ts.(visit := ts'.visit, err := Async.First(ts.err, Async.ErrOf(ts'.visit))) {
      } else if Async.ListStep(c, ts.kids, ts.err, s, ts'.kids, ts'.err, s') && ts'.rest == ts.rest
                && ts'.visit == ts.visit && ts'.node == ts.node {
        ListIdle(c, ts.kids, ts.err, s, ts'.kids, ts'.err, s', n);
      }
    } else {
      ListIdle(c, ts.rest, e, s, ts'.rest, e', s', n);
    }
  }

  lemma {:induction false} PlantIdle(f: Forest, n: nat)
    ensures Idle(Async.Plant(f), n)
  {
    if f.Cons? { PlantIdle(f.kids, n); PlantIdle(f.rest, n); }
  }

  lemma {:induction false} DoneIdle(c: Async.Config, f: Forest, run: seq<Async.State>, n: nat)
    requires c.guarded && n in c.done && Async.Run(c, f, run)
    ensures Idle(Async.Last(run).tasks, n) && NotDid(Async.Last(run).shared.log, n)
  {
    if |run| == 1 {
      PlantIdle(f, n);
    } else {
      var k := |run| - 1;
      assert Async.Run(c, f, run[..k]) by {
        forall i: nat | i + 1 < k ensures Async.Step(c, run[..k][i], run[..k][i+1]) {
          assert Async.Step(c, run[i], run[i+1]);
        }
      }
      DoneIdle(c, f, run[..k], n);
      assert Async.Step(c, run[k-1], run[k-1+1]);
      var s, s' := run[k-1], run[k];
      if Async.HasNew(s.tasks) && s' == s.(tasks := Async.StartNext(s.tasks)) {
        StartIdle(s.tasks, n);
      } else {
        ListIdle(c, s.tasks, s.err, s.shared, s'.tasks, s'.err, s'.shared, n);
      }
    }
  }

  // At every moment of a Retag, all refs but the final refs of reachable images not marked done, and on a release
  // their placeholder and extra tags, are what they were: they keep their content, or their absence.
  lemma RetagFrame(reg: Registry, imgs: seq<Img>, o: Options, done: set<nat>, f: Forest, run: seq<Async.State>,
                   r: string)
    requires Async.Covers(RetagConfig(imgs, o, done), f) && Async.Run(RetagConfig(imgs, o, done), f, run)
    requires forall n: nat :: n in Nodes(f) && n !in done && n < |imgs| ==>
      Untargeted(imgs[n].name, imgs[n].hash, imgs[n].extraTags, o, r)
    ensures r in Replay(reg, Async.Last(run).shared.log, imgs, o) <==> r in reg
    ensures r in reg ==> Replay(reg, Async.Last(run).shared.log, imgs, o)[r] == reg[r]
  {
    var c, log := RetagConfig(imgs, o, done), Async.Last(run).shared.log;
    Async.RunInv(c, f, run);
    forall i | 0 <= i < |log| && log[i].Did? ensures NoWrite(log[i], imgs, o, r) {
      var n, k := log[i].n, log[i].k;
      if n in done { DoneIdle(c, f, run, n); }
      if n < |imgs| && k < |TagOps(imgs[n], o)| { TargetsOnly(imgs[n], o, r, k); }
    }
    ReplayFrame(reg, log, imgs, o, r);
  }

  ghost predicate NoWrite(ev: Async.Event, imgs: seq<Img>, o: Options, r: string) {
    ev.Did? && ev.n < |imgs| && ev.k < |TagOps(imgs[ev.n], o)| ==> TagOps(imgs[ev.n], o)[ev.k].dst != r
  }

  lemma {:induction false} ReplayFrame(reg: Registry, log: seq<Async.Event>, imgs: seq<Img>, o: Options, r: string)
    requires forall i :: 0 <= i < |log| ==> NoWrite(log[i], imgs, o, r)
    ensures r in Replay(reg, log, imgs, o) <==> r in reg
    ensures r in reg ==> Replay(reg, log, imgs, o)[r] == reg[r]
  {
    if log != [] {
      assert NoWrite(log[|log|-1], imgs, o, r);
      ReplayFrame(reg, log[..|log|-1], imgs, o, r);
    }
  }
}
