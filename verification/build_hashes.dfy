// Two builds of the same images: from Dockerfiles to final hashes.
module BuildHashes {
  import opened Graphs
  import opened Dag
  import opened Construction
  import opened HashPropagation
  import opened BuildArgs
  import HashFiles

  // The same images, wherever their objects are.
  ghost predicate SameImages(nodes: seq<Node>, nodes': seq<Node>)
    reads nodes, nodes'
  {
    |nodes| == |nodes'| && forall n :: 0 <= n < |nodes| ==>
      nodes[n].image.name == nodes'[n].image.name && nodes[n].image.from == nodes'[n].image.from
  }

  lemma ParentsWanted(nodes: seq<Node>, n: nat, p: nat)
    requires Numbered(nodes) && Exact(Construction.Nodes(nodes)) && n < |nodes|
    ensures Times(Ids(nodes[n].parents), p) == if p < |nodes| then Wanted(nodes[p], nodes[n]) else 0
  {
    var ps := nodes[n].parents;
    assert nodes[n] in Construction.Nodes(nodes);
    if p < |nodes| {
      assert nodes[p] in Construction.Nodes(nodes);
      IdTimes(nodes, ps, p);
    } else {
      IdsLinked(nodes, ps);
      TimesOf(Ids(ps), p);
    }
  }

  // Both graphs have the links that the FROM lines ask for, whatever the orders in which they were made.
  lemma SameParents(nodes: seq<Node>, nodes': seq<Node>, n: nat)
    requires Numbered(nodes) && Exact(Construction.Nodes(nodes))
    requires Numbered(nodes') && Exact(Construction.Nodes(nodes'))
    requires SameImages(nodes, nodes') && n < |nodes|
    ensures multiset(Ids(nodes[n].parents)) == multiset(Ids(nodes'[n].parents))
  {
    var s, s' := Ids(nodes[n].parents), Ids(nodes'[n].parents);
    forall p: nat ensures Times(s, p) == Times(s', p) {
      ParentsWanted(nodes, n, p);
      ParentsWanted(nodes', n, p);
    }
    SameTimes(s, s');
  }

  lemma SameTimes(s: seq<nat>, t: seq<nat>)
    requires forall x: nat :: Times(s, x) == Times(t, x)
    ensures multiset(s) == multiset(t)
  {
    forall x: nat ensures multiset(s)[x] == multiset(t)[x] { assert Times(s, x) == Times(t, x); }
  }

  lemma SameRank(nodes: seq<Node>, nodes': seq<Node>, rank: seq<nat>)
    requires SameImages(nodes, nodes') && FromRanked(nodes, rank)
    ensures FromRanked(nodes', rank)
  {
    assert forall p: nat, c: nat :: p < |nodes| && c < |nodes| ==>
      Wanted(nodes[p], nodes[c]) == Wanted(nodes'[p], nodes'[c]);
  }

  // The inputs of a node in two builds: its context lies elsewhere, with the Dockerfile at the same place in it.
  ghost predicate MovedInput(i: Input, i': Input, names: seq<string>, names': seq<string>, dockerfile: string) {
    && Moved(i.ctx, i'.ctx, names, names') && i.args == i'.args
    && i.dockerfile == i.ctx.base + dockerfile && i'.dockerfile == i'.ctx.base + dockerfile
  }

  ghost predicate MovedWorkspace(w: Workspace, w': Workspace, size: nat, names: nat -> seq<string>,
                                 names': nat -> seq<string>, dockerfiles: nat -> string)
  {
    && |w.inputs| == |w'.inputs| == size
    && w.buildArgs == w'.buildArgs && w.sha == w'.sha && w.humanize == w'.humanize
    && (forall n: nat :: n < size ==> MovedInput(w.inputs[n], w'.inputs[n], names(n), names'(n), dockerfiles(n)))
  }

  // Two builds of the same images, under any two orders of the maps they walk, at any two places, with the files of
  // the contexts listed in any order and with the same build arguments, give every image the same hash.
  lemma HashesReproducible(nodes: seq<Node>, graph: DAG, w: Workspace, nodes': seq<Node>, graph': DAG, w': Workspace,
                           texts: seq<string>, rank: seq<nat>, names: nat -> seq<string>, names': nat -> seq<string>,
                           dockerfiles: nat -> string)
    requires Numbered(nodes) && Exact(Construction.Nodes(nodes)) && RootsExact(Construction.Nodes(nodes), graph)
    requires Numbered(nodes') && Exact(Construction.Nodes(nodes')) && RootsExact(Construction.Nodes(nodes'), graph')
    requires SameImages(nodes, nodes') && FromRanked(nodes, rank) && |texts| == |nodes|
    requires MovedWorkspace(w, w', |nodes|, names, names', dockerfiles)
    ensures Ranked(View(nodes, graph.nodes), rank) && Ranked(View(nodes', graph'.nodes), rank)
    ensures forall n: nat :: n < |nodes| ==>
      Final(View(nodes, graph.nodes), rank, HashIn(w, texts), n)
        == Final(View(nodes', graph'.nodes), rank, HashIn(w', texts), n)
  {
    var g, g' := View(nodes, graph.nodes), View(nodes', graph'.nodes);
    SameRank(nodes, nodes', rank);
    var f := BuiltReachable(nodes, graph, rank);
    var f' := BuiltReachable(nodes', graph', rank);
    forall m: nat | m < g.Size() ensures multiset(g.parents[m]) == multiset(g'.parents[m]) {
      SameParents(nodes, nodes', m);
    }
    forall n: nat | n < |nodes| ensures Final(g, rank, HashIn(w, texts), n) == Final(g', rank, HashIn(w', texts), n) {
      FinalsMoved(g, g', rank, w, w', texts, n, names, names', dockerfiles);
    }
  }

  lemma FinalsMoved(g: Graph, g': Graph, rank: seq<nat>, w: Workspace, w': Workspace, texts: seq<string>, n: nat,
                    names: nat -> seq<string>, names': nat -> seq<string>, dockerfiles: nat -> string)
    requires Ranked(g, rank) && Ranked(g', rank) && n < g.Size() == |texts|
    requires forall m: nat :: m < g.Size() ==> multiset(g.parents[m]) == multiset(g'.parents[m])
    requires MovedWorkspace(w, w', g.Size(), names, names', dockerfiles)
    ensures Final(g, rank, HashIn(w, texts), n) == Final(g', rank, HashIn(w', texts), n)
  {
    var ctx, ctx' := ContextOf(w.inputs, texts, w.buildArgs), ContextOf(w'.inputs, texts, w'.buildArgs);
    forall m: nat | m < g.Size() ensures Moved(ctx(m), ctx'(m), names(m), names'(m)) {
      assert MovedInput(w.inputs[m], w'.inputs[m], names(m), names'(m), dockerfiles(m));
      SeenMoved(w.inputs[m], w'.inputs[m], texts[m], w.buildArgs, dockerfiles(m), names(m), names'(m));
    }
    FinalLocationIndependent(g, g', rank, n, ctx, ctx', names, names', w.sha, w.humanize);
  }

  // ---- What makes a final hash differ

  // The node is hashed, in a workspace without collisions and with parents' hashes ps, which are single lines.
  ghost predicate HashedFrom(w: Workspace, texts: seq<string>, g: Graph, rank: seq<nat>, n: nat, ps: seq<string>) {
    && Ranked(g, rank) && n < g.Size() == |w.inputs| == |texts|
    && ParentsFinal(g, rank, HashIn(w, texts), n, ps) && HashIn(w, texts)(n, ps).Some?
    && HashFiles.IsHexDigest(w.sha) && HashFiles.Injective(w.humanize, w.inputs[n].ctx.words)
    && forall p :: p in ps ==> HashFiles.NoNewline(p)
  }

  // In two builds an image has the same final hash iff it has the same files, by digest and relative name and with the
  // build arguments in its Dockerfile, and its parents' sorted final hashes are the same text.
  lemma FinalEqualIff(w: Workspace, texts: seq<string>, g: Graph, rank: seq<nat>, ps: seq<string>, w': Workspace,
                      texts': seq<string>, g': Graph, rank': seq<nat>, ps': seq<string>, n: nat)
    requires HashedFrom(w, texts, g, rank, n, ps) && HashedFrom(w', texts', g', rank', n, ps')
    requires w.sha == w'.sha && w.humanize == w'.humanize && w.inputs[n].ctx.words == w'.inputs[n].ctx.words
    ensures
      var i, i' := w.inputs[n], w'.inputs[n];
      Final(g, rank, HashIn(w, texts), n) == Final(g', rank', HashIn(w', texts'), n) <==>
        && HashFiles.SameFiles(i.ctx.base, HashFiles.Sort(i.ctx.files), Seen(i, texts[n], w.buildArgs).read,
                               i'.ctx.base, HashFiles.Sort(i'.ctx.files), Seen(i', texts'[n], w'.buildArgs).read, w.sha)
        && HashFiles.Concat(HashFiles.Sort(ps)) == HashFiles.Concat(HashFiles.Sort(ps'))
  {
    var i, i' := w.inputs[n], w'.inputs[n];
    FinalIsHash(w, texts, g, rank, n, ps);
    FinalIsHash(w', texts', g', rank', n, ps');
    HashFiles.HashEqualIff(i.ctx.base, i.ctx.files, ps, Seen(i, texts[n], w.buildArgs).read,
                           i'.ctx.base, i'.ctx.files, ps', Seen(i', texts'[n], w'.buildArgs).read,
                           i.ctx.words, w.sha, w.humanize);
  }

  // A change of the parents' final hashes that changes their text changes the hash of an image whose own files stay.
  lemma ParentChangeShows(w: Workspace, texts: seq<string>, g: Graph, rank: seq<nat>, ps: seq<string>, w': Workspace,
                          texts': seq<string>, g': Graph, rank': seq<nat>, ps': seq<string>, n: nat)
    requires HashedFrom(w, texts, g, rank, n, ps) && HashedFrom(w', texts', g', rank', n, ps')
    requires w.sha == w'.sha && w.humanize == w'.humanize && w.inputs[n] == w'.inputs[n] && texts[n] == texts'[n]
    requires HashFiles.Concat(HashFiles.Sort(ps)) != HashFiles.Concat(HashFiles.Sort(ps'))
    ensures Final(g, rank, HashIn(w, texts), n) != Final(g', rank', HashIn(w', texts'), n)
  {
    FinalEqualIff(w, texts, g, rank, ps, w', texts', g', rank', ps', n);
  }

  // So does a change of the build arguments that changes the Dockerfile, by its digest.
  lemma ArgChangeShows(w: Workspace, texts: seq<string>, g: Graph, rank: seq<nat>, ps: seq<string>, w': Workspace,
                       texts': seq<string>, g': Graph, rank': seq<nat>, ps': seq<string>, n: nat)
    requires HashedFrom(w, texts, g, rank, n, ps) && HashedFrom(w', texts', g', rank', n, ps')
    requires w.sha == w'.sha && w.humanize == w'.humanize && w.inputs[n] == w'.inputs[n] && texts[n] == texts'[n]
    requires w.inputs[n].dockerfile in w.inputs[n].ctx.files
    requires var args := w.inputs[n].args;
      w.sha(Overridden(texts[n], Diff(args, w.buildArgs))) != w.sha(Overridden(texts[n], Diff(args, w'.buildArgs)))
    ensures Final(g, rank, HashIn(w, texts), n) != Final(g', rank', HashIn(w', texts'), n)
  {
    var i := w.inputs[n];
    FinalEqualIff(w, texts, g, rank, ps, w', texts', g', rank', ps', n);
    HashFiles.SortSorts(i.ctx.files);
    assert i.dockerfile in multiset(HashFiles.Sort(i.ctx.files));
    var k :| 0 <= k < |i.ctx.files| && HashFiles.Sort(i.ctx.files)[k] == i.dockerfile;
    SeenReads(i, texts[n], w.buildArgs, i.dockerfile);
    SeenReads(i, texts[n], w'.buildArgs, i.dockerfile);
  }
}
