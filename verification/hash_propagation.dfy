// computeHashes: level by level from the roots, with no memory of what was hashed before.
module HashPropagation {
  import opened Wrappers
  import opened Graphs
  import opened Dag
  import opened BuildNode
  import opened BuildArgs
  import opened Dockerfiles
  import HashFiles

  // The hash of a node from the hashes of its parents, in their order; None when a file cannot be hashed.
  type NodeHash = (nat, seq<string>) -> Option<string>

  // Whether hashing a node fails does not depend on its parents.
  ghost predicate FailsAlike(h: NodeHash) {
    forall n, a, b :: h(n, a).Some? <==> h(n, b).Some?
  }

  // The meaning of a hash: computed from the final hashes of the parents.
  function Final(g: Graph, rank: seq<nat>, h: NodeHash, n: nat): string
    requires Ranked(g, rank) && n < g.Size()
    decreases rank[n], |g.parents[n]| + 1
  {
    var r := h(n, Finals(g, rank, h, n, |g.parents[n]|));
    if r.Some? then r.value else ""
  }

  function Finals(g: Graph, rank: seq<nat>, h: NodeHash, n: nat, k: nat): (r: seq<string>)
    requires Ranked(g, rank) && n < g.Size() && k <= |g.parents[n]|
    ensures |r| == k
    decreases rank[n], k
  {
    if k == 0 then []
    else
      ParentsRankLower(g, rank, n, g.parents[n][k-1]);
      Finals(g, rank, h, n, k - 1) + [Final(g, rank, h, g.parents[n][k-1])]
  }

  // The length of the longest path from a root.
  function Depth(g: Graph, rank: seq<nat>, n: nat): (d: nat)
    requires Ranked(g, rank) && n < g.Size()
    ensures d <= rank[n]
    decreases rank[n], |g.parents[n]| + 1
  {
    DepthVia(g, rank, n, |g.parents[n]|)
  }

  function DepthVia(g: Graph, rank: seq<nat>, n: nat, k: nat): (d: nat)
    requires Ranked(g, rank) && n < g.Size() && k <= |g.parents[n]|
    ensures d <= rank[n]
    decreases rank[n], k
  {
    if k == 0 then 0
    else
      ParentsRankLower(g, rank, n, g.parents[n][k-1]);
      var d, p := DepthVia(g, rank, n, k - 1), Depth(g, rank, g.parents[n][k-1]);
      if d < p + 1 then p + 1 else d
  }

  lemma {:induction false} DepthOfParents(g: Graph, rank: seq<nat>, n: nat, k: nat)
    requires Ranked(g, rank) && n < g.Size() && k <= |g.parents[n]|
    ensures forall i :: 0 <= i < k ==>
      g.parents[n][i] < g.Size() && Depth(g, rank, g.parents[n][i]) < DepthVia(g, rank, n, k)
    ensures k > 0 ==> DepthVia(g, rank, n, k) > 0
    ensures DepthVia(g, rank, n, k) > 0 ==>
      exists i :: 0 <= i < k && g.parents[n][i] < g.Size() &&
                  Depth(g, rank, g.parents[n][i]) + 1 == DepthVia(g, rank, n, k)
  {
    if k > 0 {
      ParentsRankLower(g, rank, n, g.parents[n][k-1]);
      DepthOfParents(g, rank, n, k - 1);
    }
  }

  function HashesOf(ns: seq<Node>): (r: seq<string>)
    reads set n | n in ns :: n.image
    ensures |r| == |ns|
  {
    if ns == [] then [] else HashesOf(ns[..|ns|-1]) + [ns[|ns|-1].image.hash]
  }

  // ---- The hash of a node is that of its files and its parents' hashes

  datatype Context = Context(base: string, files: seq<string>, words: seq<string>, read: string -> Option<string>)

  function NodeHashOf(ctx: nat -> Context, sha: string -> string, humanize: HashFiles.Humanizer): NodeHash {
    (n: nat, ps) => HashFiles.Hash(ctx(n).base, ctx(n).files, ps, ctx(n).words, ctx(n).read, sha, humanize)
  }

  // Whether a stream can be turned into words depends on the words only.
  ghost predicate WordsDecide(humanize: HashFiles.Humanizer) {
    forall s, s', words :: humanize(s, words).Some? <==> humanize(s', words).Some?
  }

  lemma NodeHashFailsAlike(ctx: nat -> Context, sha: string -> string, humanize: HashFiles.Humanizer)
    requires WordsDecide(humanize)
    ensures FailsAlike(NodeHashOf(ctx, sha, humanize))
  {
    var h := NodeHashOf(ctx, sha, humanize);
    forall n, a, b ensures h(n, a).Some? <==> h(n, b).Some? {
      HashFiles.StreamFails(ctx(n).base, ctx(n).files, a, ctx(n).read, sha);
      HashFiles.StreamFails(ctx(n).base, ctx(n).files, b, ctx(n).read, sha);
    }
  }

  // What hashing a node is given, besides its Dockerfile: ctx reads the other files.
  datatype Input = Input(ctx: Context, dockerfile: string, args: Args)

  // files holds the Dockerfile of each node.
  datatype Workspace = Workspace(inputs: seq<Input>, files: seq<File>, buildArgs: map<string, string>,
                                 sha: string -> string, humanize: HashFiles.Humanizer)

  function WithFile(read: string -> Option<string>, name: string, text: string): string -> Option<string> {
    x => if x == name then Some(text) else read(x)
  }

  // The context as it is hashed: with the build arguments in the Dockerfile.
  function Seen(i: Input, text: string, buildArgs: map<string, string>): Context {
    i.ctx.(read := WithFile(i.ctx.read, i.dockerfile, Overridden(text, Diff(i.args, buildArgs))))
  }

  function ContextOf(inputs: seq<Input>, texts: seq<string>, buildArgs: map<string, string>): nat -> Context {
    (n: nat) =>
      if n < |inputs| && n < |texts| then Seen(inputs[n], texts[n], buildArgs) else Context("", [], [], _ => None)
  }

  function HashIn(w: Workspace, texts: seq<string>): NodeHash {
    NodeHashOf(ContextOf(w.inputs, texts, w.buildArgs), w.sha, w.humanize)
  }

  // The Dockerfile can be read and written, and the build arguments can be put in and taken out again.
  ghost predicate SoundAt(w: Workspace, texts: seq<string>, n: nat)
    requires n < |w.inputs| == |w.files| == |texts|
    reads w.files
  {
    && w.files[n].text == texts[n] && (forall k :: w.files[n].works(k))
    && Restorable(texts[n], Diff(w.inputs[n].args, w.buildArgs))
  }

  ghost predicate Sound(w: Workspace, texts: seq<string>)
    reads w.files
  {
    |w.inputs| == |w.files| == |texts| && forall n: nat :: n < |texts| ==> SoundAt(w, texts, n)
  }

  // h is the hash function of the workspace.
  ghost predicate Hashes(w: Workspace, texts: seq<string>, h: NodeHash) {
    forall n: nat, ps {:trigger HashFor(w, texts, n, ps)} :: h(n, ps) == HashFor(w, texts, n, ps)
  }

  function HashFor(w: Workspace, texts: seq<string>, n: nat, ps: seq<string>): Option<string> {
    HashIn(w, texts)(n, ps)
  }

  method ParentHashes(node: Node) returns (parentHashes: seq<string>)
    ensures parentHashes == HashesOf(node.parents)
  {
    parentHashes := [];
    for i := 0 to |node.parents|
      invariant parentHashes == HashesOf(node.parents[..i])
    {
      assert node.parents[..i+1][..i] == node.parents[..i];
      parentHashes := parentHashes + [node.parents[i].image.hash];
    }
    assert node.parents[..|node.parents|] == node.parents;
  }

  method HashWithArgs(n: nat, w: Workspace, parentHashes: seq<string>,
                      ghost texts: seq<string>) returns (r: Option<string>)
    requires n < |w.inputs| == |w.files|
    modifies w.files
    ensures old(Sound(w, texts)) ==> Sound(w, texts) && r == HashFor(w, texts, n, parentHashes)
  {
    var i, sha, humanize := w.inputs[n], w.sha, w.humanize;
    var hash: string -> Option<string> := text =>
      HashFiles.Hash(i.ctx.base, i.ctx.files, parentHashes, i.ctx.words, WithFile(i.ctx.read, i.dockerfile, text), sha,
                     humanize);
    ghost var sound := Sound(w, texts);
    assert sound ==> SoundAt(w, texts, n);
    var replaced;
    ghost var pairs, order, order';
    r, replaced, pairs, order, order' := BuildArgs.ComputeNodeHash(w.files[n], i.args, w.buildArgs, hash);
    if sound {
      forall m: nat | m < |texts| ensures SoundAt(w, texts, m) { assert old(SoundAt(w, texts, m)); }
    }
  }

  // In a sound workspace, a function of the node and its parents' hashes that leaves the Dockerfile as it was.
  method ComputeNodeHash(node: Node, w: Workspace, ghost texts: seq<string>,
                         ghost h: NodeHash) returns (r: Option<string>)
    requires node.id < |w.inputs| == |w.files| && Hashes(w, texts, h)
    modifies w.files
    ensures old(Sound(w, texts)) ==> Sound(w, texts) && r == h(node.id, HashesOf(node.parents))
  {
    var parentHashes := ParentHashes(node);
    r := HashWithArgs(node.id, w, parentHashes, texts);
  }

  ghost predicate Hashable(h: NodeHash, size: nat) {
    forall n: nat :: n < size ==> h(n, []).Some?
  }

  ghost predicate Settled(nodes: seq<Node>, g: Graph, rank: seq<nat>, h: NodeHash, n: nat)
    requires Ranked(g, rank) && n < g.Size() == |nodes|
    reads nodes[n].image
  {
    h(n, []).Some? && nodes[n].image.hash == Final(g, rank, h, n)
  }

  // All nodes above level k are settled.
  ghost predicate SettledAbove(nodes: seq<Node>, g: Graph, rank: seq<nat>, h: NodeHash, k: nat)
    requires Ranked(g, rank) && g.Size() == |nodes|
    reads set m | 0 <= m < |nodes| :: nodes[m].image
  {
    forall n: nat :: n < |nodes| && Depth(g, rank, n) < k ==> Settled(nodes, g, rank, h, n)
  }

  // A level holds every node of that depth, and no node of lower depth. It may hold deeper nodes, and repeat.
  ghost predicate Level(nodes: seq<Node>, g: Graph, rank: seq<nat>, curr: seq<Node>, k: nat)
    requires Ranked(g, rank) && g.Size() == |nodes|
  {
    && (forall i :: 0 <= i < |curr| ==>
          curr[i].id < |nodes| && curr[i] == nodes[curr[i].id] && Depth(g, rank, curr[i].id) >= k)
    && (forall n: nat :: n < |nodes| && Depth(g, rank, n) == k ==> nodes[n] in curr)
  }

  lemma {:induction false} ParentsSettled(nodes: seq<Node>, g: Graph, rank: seq<nat>, h: NodeHash, n: nat, k: nat)
    requires Ranked(g, rank) && Models(nodes, g) && n < g.Size() && k <= |g.parents[n]|
    requires SettledAbove(nodes, g, rank, h, Depth(g, rank, n))
    ensures HashesOf(nodes[n].parents[..k]) == Finals(g, rank, h, n, k)
  {
    if k > 0 {
      var ps := nodes[n].parents;
      assert ps[..k][..k-1] == ps[..k-1];
      ParentsSettled(nodes, g, rank, h, n, k - 1);
      DepthOfParents(g, rank, n, |g.parents[n]|);
      assert Settled(nodes, g, rank, h, g.parents[n][k-1]);
      assert Linked(nodes, ps, g.parents[n]);
    }
  }

  // Hashing one node at or below level k disturbs no other node, and settles it if its depth is k.
  method Rehash(node: Node, w: Workspace, ghost texts: seq<string>, ghost sound: bool, ghost h: NodeHash,
                ghost nodes: seq<Node>,
                ghost g: Graph, ghost rank: seq<nat>, ghost k: nat)
    returns (ok: bool)
    requires Ranked(g, rank) && Models(nodes, g) && |w.inputs| == |w.files| == |nodes| && Hashes(w, texts, h)
    requires sound ==> Sound(w, texts) && FailsAlike(h) && SettledAbove(nodes, g, rank, h, k)
    requires node.id < |nodes| && node == nodes[node.id] && Depth(g, rank, node.id) >= k
    modifies node.image, w.files
    ensures sound ==> Sound(w, texts) && (ok <==> h(node.id, []).Some?)
    ensures sound && ok && Depth(g, rank, node.id) == k ==> Settled(nodes, g, rank, h, node.id)
    ensures forall m: nat :: m < |nodes| && m != node.id ==> nodes[m].image.hash == old(nodes[m].image.hash)
  {
    ghost var n := node.id;
    if sound && Depth(g, rank, n) == k {
      ParentsSettled(nodes, g, rank, h, n, |g.parents[n]|);
      assert Linked(nodes, node.parents, g.parents[n]);
      assert node.parents[..|g.parents[n]|] == node.parents;
    }
    var r := ComputeNodeHash(node, w, texts, h);
    assert sound ==> (h(n, HashesOf(node.parents)).Some? <==> h(n, []).Some?);
    ok := r.Some?;
    if ok { node.image.hash := r.value; }
  }

  // The nodes of depth k among the first i of a level are settled.
  ghost predicate SettledFirst(nodes: seq<Node>, g: Graph, rank: seq<nat>, h: NodeHash, curr: seq<Node>, i: nat, k: nat)
    requires Ranked(g, rank) && g.Size() == |nodes| && i <= |curr| && Level(nodes, g, rank, curr, k)
    reads set m | 0 <= m < |nodes| :: nodes[m].image
  {
    forall j :: 0 <= j < i && Depth(g, rank, curr[j].id) == k ==> Settled(nodes, g, rank, h, curr[j].id)
  }

  lemma LevelSettled(nodes: seq<Node>, g: Graph, rank: seq<nat>, h: NodeHash, curr: seq<Node>, k: nat)
    requires Ranked(g, rank) && Models(nodes, g) && Level(nodes, g, rank, curr, k)
    requires SettledAbove(nodes, g, rank, h, k) && SettledFirst(nodes, g, rank, h, curr, |curr|, k)
    ensures SettledAbove(nodes, g, rank, h, k + 1)
  {
    forall m: nat | m < |nodes| && Depth(g, rank, m) < k + 1 ensures Settled(nodes, g, rank, h, m) {
      if Depth(g, rank, m) == k {
        var j :| 0 <= j < |curr| && curr[j] == nodes[m];
        assert curr[j].id == m;
      }
    }
  }

  method RehashAt(currNodes: seq<Node>, i: nat, w: Workspace, ghost texts: seq<string>, ghost sound: bool,
                  ghost h: NodeHash,
                  ghost nodes: seq<Node>, ghost g: Graph, ghost rank: seq<nat>, ghost k: nat)
    returns (ok: bool)
    requires Ranked(g, rank) && Models(nodes, g) && |w.inputs| == |w.files| == |nodes|
    requires Level(nodes, g, rank, currNodes, k)
    requires Hashes(w, texts, h) && i < |currNodes|
    requires sound ==> Sound(w, texts) && FailsAlike(h) && SettledAbove(nodes, g, rank, h, k)
    requires sound ==> SettledFirst(nodes, g, rank, h, currNodes, i, k)
    modifies (set m | 0 <= m < |nodes| :: nodes[m].image), w.files
    ensures sound ==> Sound(w, texts)
    ensures sound && ok ==> SettledAbove(nodes, g, rank, h, k) && SettledFirst(nodes, g, rank, h, currNodes, i + 1, k)
    ensures sound && !ok ==> !Hashable(h, |nodes|)
  {
    ok := Rehash(currNodes[i], w, texts, sound, h, nodes, g, rank, k);
    if sound && ok {
      forall m: nat | m < |nodes| && Depth(g, rank, m) < k ensures Settled(nodes, g, rank, h, m) {
        assert old(Settled(nodes, g, rank, h, m));
      }
      forall j | 0 <= j < i + 1 && Depth(g, rank, currNodes[j].id) == k
        ensures Settled(nodes, g, rank, h, currNodes[j].id)
      {
        if currNodes[j].id != currNodes[i].id { assert old(Settled(nodes, g, rank, h, currNodes[j].id)); }
      }
    }
  }

  method HashLevel(currNodes: seq<Node>, w: Workspace, ghost texts: seq<string>, ghost sound: bool, ghost h: NodeHash,
                   ghost nodes: seq<Node>, ghost g: Graph, ghost rank: seq<nat>, ghost k: nat)
    returns (ok: bool)
    requires Ranked(g, rank) && Models(nodes, g) && |w.inputs| == |w.files| == |nodes|
    requires Level(nodes, g, rank, currNodes, k)
    requires Hashes(w, texts, h)
    requires sound ==> Sound(w, texts) && FailsAlike(h) && SettledAbove(nodes, g, rank, h, k)
    modifies (set m | 0 <= m < |nodes| :: nodes[m].image), w.files
    ensures sound ==> Sound(w, texts)
    ensures sound && ok ==> SettledAbove(nodes, g, rank, h, k + 1)
    ensures sound && !ok ==> !Hashable(h, |nodes|)
  {
    for i := 0 to |currNodes|
      invariant sound ==> Sound(w, texts) && SettledAbove(nodes, g, rank, h, k)
      invariant sound ==> SettledFirst(nodes, g, rank, h, currNodes, i, k)
    {
      ok := RehashAt(currNodes, i, w, texts, sound, h, nodes, g, rank, k);
      if !ok { return; }
    }
    ok := true;
    if sound { LevelSettled(nodes, g, rank, h, currNodes, k); }
  }

  lemma NextLevel(nodes: seq<Node>, g: Graph, rank: seq<nat>, curr: seq<Node>, next: seq<Node>, k: nat)
    requires Ranked(g, rank) && Models(nodes, g) && Level(nodes, g, rank, curr, k)
    requires forall j :: 0 <= j < |next| ==> ChildOfSome(curr, next[j])
    requires forall j, n :: 0 <= j < |curr| && n in curr[j].children ==> n in next
    ensures Level(nodes, g, rank, next, k + 1)
  {
    forall j | 0 <= j < |next|
      ensures next[j].id < |nodes| && next[j] == nodes[next[j].id] && Depth(g, rank, next[j].id) >= k + 1
    {
      var i :| 0 <= i < |curr| && next[j] in curr[i].children;
      var p := curr[i].id;
      assert Linked(nodes, curr[i].children, g.children[p]);
      var e :| 0 <= e < |g.children[p]| && curr[i].children[e] == next[j];
      var n := g.children[p][e];
      assert p in g.parents[n];
      DepthOfParents(g, rank, n, |g.parents[n]|);
    }
    forall n: nat | n < |nodes| && Depth(g, rank, n) == k + 1 ensures nodes[n] in next {
      DepthOfParents(g, rank, n, |g.parents[n]|);
      var e :| 0 <= e < |g.parents[n]| && g.parents[n][e] < g.Size() && Depth(g, rank, g.parents[n][e]) == k;
      var p := g.parents[n][e];
      assert n in g.children[p];
      var d :| 0 <= d < |g.children[p]| && g.children[p][d] == n;
      assert Linked(nodes, nodes[p].children, g.children[p]);
      assert nodes[p].children[d] == nodes[n];
      var j :| 0 <= j < |curr| && curr[j] == nodes[p];
      assert nodes[n] in curr[j].children;
    }
  }

  lemma LevelBounded(nodes: seq<Node>, g: Graph, rank: seq<nat>, curr: seq<Node>, k: nat)
    requires Ranked(g, rank) && g.Size() == |nodes| && Level(nodes, g, rank, curr, k) && curr != []
    ensures k <= Top(rank)
  {
    assert Depth(g, rank, curr[0].id) >= k;
  }

  // Depths have no gaps.
  lemma {:induction false} DepthReached(g: Graph, rank: seq<nat>, n: nat, k: nat) returns (m: nat)
    requires Ranked(g, rank) && n < g.Size() && k <= Depth(g, rank, n)
    ensures m < g.Size() && Depth(g, rank, m) == k
    decreases rank[n]
  {
    m := n;
    if k < Depth(g, rank, n) {
      DepthOfParents(g, rank, n, |g.parents[n]|);
      var e :| 0 <= e < |g.parents[n]| && g.parents[n][e] < g.Size() &&
                  Depth(g, rank, g.parents[n][e]) + 1 == Depth(g, rank, n);
      ParentsRankLower(g, rank, n, g.parents[n][e]);
      m := DepthReached(g, rank, g.parents[n][e], k);
    }
  }

  lemma RootLevel(nodes: seq<Node>, g: Graph, rank: seq<nat>, roots: seq<Node>)
    requires Ranked(g, rank) && Models(nodes, g) && Linked(nodes, roots, g.roots)
    ensures Level(nodes, g, rank, roots, 0)
  {
    forall n: nat | n < |nodes| && Depth(g, rank, n) == 0 ensures nodes[n] in roots {
      DepthOfParents(g, rank, n, |g.parents[n]|);
      assert n in g.roots;
      var i :| 0 <= i < |g.roots| && g.roots[i] == n;
      assert roots[i] == nodes[n];
    }
  }

  lemma AllSettled(nodes: seq<Node>, g: Graph, rank: seq<nat>, h: NodeHash, k: nat)
    requires Ranked(g, rank) && Models(nodes, g) && Level(nodes, g, rank, [], k) && SettledAbove(nodes, g, rank, h, k)
    ensures Hashable(h, |nodes|)
    ensures forall n: nat :: n < |nodes| ==> nodes[n].image.hash == Final(g, rank, h, n)
  {
    forall n: nat | n < |nodes| ensures h(n, []).Some? && nodes[n].image.hash == Final(g, rank, h, n) {
      if Depth(g, rank, n) >= k {
        var m := DepthReached(g, rank, n, k);
        assert false;
      }
      assert Settled(nodes, g, rank, h, n);
    }
  }

  ghost predicate ChildOfSome(ns: seq<Node>, n: Node)
    reads ns
  {
    exists i :: 0 <= i < |ns| && n in ns[i].children
  }

  method ChildrenOf(currNodes: seq<Node>) returns (nextNodes: seq<Node>)
    ensures forall j :: 0 <= j < |nextNodes| ==> ChildOfSome(currNodes, nextNodes[j])
    ensures forall j, n :: 0 <= j < |currNodes| && n in currNodes[j].children ==> n in nextNodes
  {
    nextNodes := [];
    for i := 0 to |currNodes|
      invariant forall j :: 0 <= j < |nextNodes| ==> ChildOfSome(currNodes, nextNodes[j])
      invariant forall j, n :: 0 <= j < i && n in currNodes[j].children ==> n in nextNodes
    {
      nextNodes := nextNodes + currNodes[i].children;
    }
  }

  // Later levels overwrite what was computed from stale parents: the last write is the right one.
  method ComputeHashes(graph: DAG, w: Workspace, ghost texts: seq<string>, ghost nodes: seq<Node>, ghost g: Graph,
                       ghost rank: seq<nat>, ghost h: NodeHash) returns (ok: bool)
    requires Ranked(g, rank) && Models(nodes, g) && Linked(nodes, graph.nodes, g.roots)
    requires |w.inputs| == |w.files| == |nodes| && WordsDecide(w.humanize) && Hashes(w, texts, h)
    modifies (set m | 0 <= m < |nodes| :: nodes[m].image), w.files
    ensures old(Sound(w, texts)) ==> Sound(w, texts)
    ensures old(Sound(w, texts)) ==> (ok <==> Hashable(h, |nodes|))
    ensures old(Sound(w, texts)) && ok ==> forall n: nat :: n < |nodes| ==> nodes[n].image.hash == Final(g, rank, h, n)
  {
    ok := true;
    var currNodes := graph.nodes;
    ghost var k, sound := 0, Sound(w, texts);
    HashesFailAlike(w, texts, h);
    RootLevel(nodes, g, rank, currNodes);
    while currNodes != []
      invariant Models(nodes, g) && Level(nodes, g, rank, currNodes, k)
      invariant sound ==> Sound(w, texts) && SettledAbove(nodes, g, rank, h, k)
      invariant ok
      decreases Top(rank) + 1 - k
    {
      LevelBounded(nodes, g, rank, currNodes, k);
      ok := HashLevel(currNodes, w, texts, sound, h, nodes, g, rank, k);
      assert Models(nodes, g) && Level(nodes, g, rank, currNodes, k);
      if !ok { return; }
      var nextNodes := ChildrenOf(currNodes);
      NextLevel(nodes, g, rank, currNodes, nextNodes, k);
      currNodes, k := nextNodes, k + 1;
    }
    if sound { AllSettled(nodes, g, rank, h, k); }
  }

  lemma HashesFailAlike(w: Workspace, texts: seq<string>, h: NodeHash)
    requires WordsDecide(w.humanize) && Hashes(w, texts, h)
    ensures FailsAlike(h)
  {
    forall n: nat, ps ensures h(n, ps) == HashIn(w, texts)(n, ps) { assert h(n, ps) == HashFor(w, texts, n, ps); }
    NodeHashFailsAlike(ContextOf(w.inputs, texts, w.buildArgs), w.sha, w.humanize);
  }

  // ---- What a final hash depends on

  // The context hashed holds the Dockerfile with its overrides, and every other file as it is.
  lemma SeenReads(i: Input, text: string, buildArgs: map<string, string>, x: string)
    ensures Seen(i, text, buildArgs).read(x) ==
      if x == i.dockerfile then Some(Overridden(text, Diff(i.args, buildArgs))) else i.ctx.read(x)
    ensures Seen(i, text, buildArgs).base == i.ctx.base && Seen(i, text, buildArgs).files == i.ctx.files
    ensures Seen(i, text, buildArgs).words == i.ctx.words
  {}

  // Build arguments that make another Dockerfile, by its digest, make another stream, whatever the parents.
  lemma BuildArgsShow(i: Input, text: string, b: map<string, string>, b': map<string, string>, parents: seq<string>,
                      parents': seq<string>, sha: string -> string)
    requires HashFiles.IsHexDigest(sha) && i.dockerfile in i.ctx.files
    requires forall p :: p in parents || p in parents' ==> HashFiles.NoNewline(p)
    requires HashFiles.Stream(i.ctx.base, i.ctx.files, parents, Seen(i, text, b).read, sha).Some?
    requires HashFiles.Stream(i.ctx.base, i.ctx.files, parents', Seen(i, text, b').read, sha).Some?
    requires sha(Overridden(text, Diff(i.args, b))) != sha(Overridden(text, Diff(i.args, b')))
    ensures HashFiles.Stream(i.ctx.base, i.ctx.files, parents, Seen(i, text, b).read, sha)
         != HashFiles.Stream(i.ctx.base, i.ctx.files, parents', Seen(i, text, b').read, sha)
  {
    var base, files, read, read' := i.ctx.base, i.ctx.files, Seen(i, text, b).read, Seen(i, text, b').read;
    HashFiles.StreamDeterminesFiles(base, files, parents, read, base, files, parents', read', sha);
    HashFiles.SameEntries(base, HashFiles.Sort(files), read, base, HashFiles.Sort(files), read', sha);
    HashFiles.SortSorts(files);
    assert i.dockerfile in multiset(HashFiles.Sort(files));
    var k :| 0 <= k < |files| && HashFiles.Sort(files)[k] == i.dockerfile;
    SeenReads(i, text, b, i.dockerfile);
    SeenReads(i, text, b', i.dockerfile);
  }

  // The final hashes of the parents, in the order of the parents.
  ghost predicate ParentsFinal(g: Graph, rank: seq<nat>, h: NodeHash, n: nat, ps: seq<string>)
    requires Ranked(g, rank) && n < g.Size()
  {
    |ps| == |g.parents[n]| && forall i :: 0 <= i < |ps| ==>
      (ParentsRankLower(g, rank, n, g.parents[n][i]); ps[i] == Final(g, rank, h, g.parents[n][i]))
  }

  lemma {:induction false} FinalsAre(g: Graph, rank: seq<nat>, h: NodeHash, n: nat, k: nat, ps: seq<string>)
    requires Ranked(g, rank) && n < g.Size() && k <= |g.parents[n]| && ParentsFinal(g, rank, h, n, ps)
    ensures Finals(g, rank, h, n, k) == ps[..k]
  {
    if k > 0 { FinalsAre(g, rank, h, n, k - 1, ps); }
  }

  lemma FinalIsHash(w: Workspace, texts: seq<string>, g: Graph, rank: seq<nat>, n: nat, ps: seq<string>)
    requires Ranked(g, rank) && n < g.Size() == |w.inputs| == |texts|
    requires ParentsFinal(g, rank, HashIn(w, texts), n, ps) && HashIn(w, texts)(n, ps).Some?
    ensures var i := w.inputs[n];
      Some(Final(g, rank, HashIn(w, texts), n))
        == HashFiles.Hash(i.ctx.base, i.ctx.files, ps, i.ctx.words, Seen(i, texts[n], w.buildArgs).read, w.sha,
                          w.humanize)
  {
    FinalsAre(g, rank, HashIn(w, texts), n, |ps|, ps);
    assert ps[..|ps|] == ps;
  }

  // ---- Final hashes do not depend on the place of the contexts, nor on any order

  // Final hashes do not depend on where the contexts lie, nor on the order of files or of FROM lines.
  lemma {:induction false} FinalLocationIndependent(g: Graph, g': Graph, rank: seq<nat>, n: nat,
      ctx: nat -> Context, ctx': nat -> Context, names: nat -> seq<string>, names': nat -> seq<string>,
      sha: string -> string, humanize: HashFiles.Humanizer)
    requires Ranked(g, rank) && Ranked(g', rank) && n < g.Size()
    requires forall m: nat :: m < g.Size() ==> multiset(g.parents[m]) == multiset(g'.parents[m])
    requires forall m: nat {:trigger ctx(m)} {:trigger ctx'(m)} :: m < g.Size() ==>
      Moved(ctx(m), ctx'(m), names(m), names'(m))
    ensures Final(g, rank, NodeHashOf(ctx, sha, humanize), n) == Final(g', rank, NodeHashOf(ctx', sha, humanize), n)
    decreases rank[n]
  {
    var h, h' := NodeHashOf(ctx, sha, humanize), NodeHashOf(ctx', sha, humanize);
    var ps, ps' := g.parents[n], g'.parents[n];
    forall p | p in ps ensures p < g.Size() && Final(g, rank, h, p) == Final(g', rank, h', p) {
      ParentsRankLower(g, rank, n, p);
      FinalLocationIndependent(g, g', rank, p, ctx, ctx', names, names', sha, humanize);
    }
    FinalsMultiset(g, g', rank, h, h', n);
    assert Moved(ctx(n), ctx'(n), names(n), names'(n));
    HashFiles.LocationIndependent(ctx(n).base, ctx'(n).base, names(n), names'(n), Finals(g, rank, h, n, |ps|),
                                  Finals(g', rank, h', n, |ps'|),
                                  ctx(n).words, ctx(n).read, ctx'(n).read, sha, humanize);
  }

  // The same relative files with the same contents, under newline-free directories.
  ghost predicate Moved(c: Context, c': Context, names: seq<string>, names': seq<string>) {
    && HashFiles.NoNewline(c.base) && HashFiles.NoNewline(c'.base) && c.words == c'.words
    && c.files == HashFiles.Under(c.base, names) && c'.files == HashFiles.Under(c'.base, names')
    && multiset(names) == multiset(names')
    && (forall x :: x in names ==> c.read(c.base + x) == c'.read(c'.base + x))
  }

  // Overriding build arguments goes along when a context is moved.
  lemma SeenMoved(i: Input, i': Input, text: string, buildArgs: map<string, string>, d: string, names: seq<string>,
                  names': seq<string>)
    requires Moved(i.ctx, i'.ctx, names, names') && i.args == i'.args
    requires i.dockerfile == i.ctx.base + d && i'.dockerfile == i'.ctx.base + d
    ensures Moved(Seen(i, text, buildArgs), Seen(i', text, buildArgs), names, names')
  {
    forall x | x in names
      ensures Seen(i, text, buildArgs).read(i.ctx.base + x) == Seen(i', text, buildArgs).read(i'.ctx.base + x)
    {
      assert (i.ctx.base + x)[|i.ctx.base|..] == x && (i.ctx.base + d)[|i.ctx.base|..] == d;
      assert (i'.ctx.base + x)[|i'.ctx.base|..] == x && (i'.ctx.base + d)[|i'.ctx.base|..] == d;
    }
  }

  // The values of a list of nodes.
  function Pick(vals: seq<string>, ids: seq<nat>): seq<string>
    requires Within(ids, |vals|)
  {
    if ids == [] then [] else Pick(vals, ids[..|ids|-1]) + [vals[ids[|ids|-1]]]
  }

  lemma {:induction false} PickConcat(vals: seq<string>, s: seq<nat>, t: seq<nat>)
    requires Within(s, |vals|) && Within(t, |vals|)
    ensures Pick(vals, s + t) == Pick(vals, s) + Pick(vals, t)
  {
    if t == [] {
      assert s + t == s;
    } else {
      assert (s + t)[..|s + t|-1] == s + t[..|t|-1];
      PickConcat(vals, s, t[..|t|-1]);
    }
  }

  lemma PickSplit(vals: seq<string>, t: seq<nat>, i: nat)
    requires Within(t, |vals|) && i < |t|
    ensures multiset(Pick(vals, t)) == multiset(Pick(vals, t[..i] + t[i+1..])) + multiset{vals[t[i]]}
  {
    assert t == t[..i] + [t[i]] + t[i+1..];
    PickConcat(vals, t[..i] + [t[i]], t[i+1..]);
    PickConcat(vals, t[..i], [t[i]]);
    PickConcat(vals, t[..i], t[i+1..]);
    assert Pick(vals, [t[i]]) == [vals[t[i]]];
  }

  lemma RemoveOne(s: seq<nat>, t: seq<nat>) returns (i: nat)
    requires multiset(s) == multiset(t) && s != []
    ensures i < |t| && t[i] == s[|s|-1] && multiset(s[..|s|-1]) == multiset(t[..i] + t[i+1..])
  {
    var k := |s| - 1;
    assert s[k] in multiset(t);
    i :| 0 <= i < |t| && t[i] == s[k];
    Without(s, k);
    Without(t, i);
    assert s[..k] + s[k+1..] == s[..k];
  }

  lemma Without(s: seq<nat>, i: nat)
    requires i < |s|
    ensures multiset(s[..i] + s[i+1..]) == multiset(s) - multiset{s[i]}
  {
    assert s == s[..i] + ([s[i]] + s[i+1..]);
  }

  lemma {:induction false} PickMultiset(vals: seq<string>, s: seq<nat>, t: seq<nat>)
    requires Within(s, |vals|) && Within(t, |vals|) && multiset(s) == multiset(t)
    ensures multiset(Pick(vals, s)) == multiset(Pick(vals, t))
  {
    if s == [] {
      assert |multiset(t)| == 0;
    } else {
      var i := RemoveOne(s, t);
      PickMultiset(vals, s[..|s|-1], t[..i] + t[i+1..]);
      PickSplit(vals, t, i);
    }
  }

  lemma {:induction false} FinalsPick(g: Graph, rank: seq<nat>, h: NodeHash, n: nat, k: nat, vals: seq<string>)
    requires Ranked(g, rank) && n < g.Size() == |vals| && k <= |g.parents[n]|
    requires forall i :: 0 <= i < |g.parents[n]| ==> vals[g.parents[n][i]] == Final(g, rank, h, g.parents[n][i])
    ensures Finals(g, rank, h, n, k) == Pick(vals, g.parents[n][..k])
  {
    if k > 0 {
      assert g.parents[n][..k][..k-1] == g.parents[n][..k-1];
      FinalsPick(g, rank, h, n, k - 1, vals);
    }
  }

  lemma FinalsMultiset(g: Graph, g': Graph, rank: seq<nat>, h: NodeHash, h': NodeHash, n: nat)
    requires Ranked(g, rank) && Ranked(g', rank) && n < g.Size() && multiset(g.parents[n]) == multiset(g'.parents[n])
    requires forall p :: p in g.parents[n] ==> p < g.Size() && Final(g, rank, h, p) == Final(g', rank, h', p)
    ensures multiset(Finals(g, rank, h, n, |g.parents[n]|)) == multiset(Finals(g', rank, h', n, |g'.parents[n]|))
  {
    var ps, ps' := g.parents[n], g'.parents[n];
    var vals := seq(g.Size(), p requires 0 <= p < g.Size() => Final(g, rank, h, p));
    forall i | 0 <= i < |ps'| ensures vals[ps'[i]] == Final(g', rank, h', ps'[i]) {
      assert ps'[i] in multiset(ps);
    }
    FinalsPick(g, rank, h, n, |ps|, vals);
    FinalsPick(g', rank, h', n, |ps'|, vals);
    assert ps[..|ps|] == ps && ps'[..|ps'|] == ps';
    PickMultiset(vals, ps, ps');
  }
}
