// buildGraph and newGraphFromNodes: from Dockerfiles to the linked graph.
module Construction {
  import opened Wrappers
  import opened Graphs
  import opened Dag
  import opened Dockerfiles

  function Count(ss: seq<string>, s: string): nat { multiset(ss)[s] }

  // How often each node is linked to each node.
  type Links = multiset<(Node, Node)>

  ghost predicate Inside(nodes: set<Node>)
    reads nodes
  {
    && (forall n :: n in nodes ==> forall p :: p in n.parents ==> p in nodes)
    && (forall n :: n in nodes ==> forall c :: c in n.children ==> c in nodes)
  }

  // p is in c's parents, and c in p's children, links[(p, c)] times; nothing else is linked.
  ghost predicate HasLinks(nodes: set<Node>, links: Links)
    reads nodes
  {
    && Inside(nodes)
    && (forall p, c :: p in nodes && c in nodes ==>
          multiset(c.parents)[p] == links[(p, c)] && multiset(p.children)[c] == links[(p, c)])
  }

  function Wanted(p: Node, c: Node): nat { Count(c.image.from, p.image.name) }

  // Exactly the links asked for by the FROM lines.
  ghost predicate Exact(nodes: set<Node>)
    reads nodes
  {
    && Inside(nodes)
    && (forall p, c :: p in nodes && c in nodes ==>
          multiset(c.parents)[p] == Wanted(p, c) && multiset(p.children)[c] == Wanted(p, c))
  }

  method Link(nodes: set<Node>, parent: Node, child: Node, ghost links: Links)
    requires parent in nodes && child in nodes && HasLinks(nodes, links)
    modifies parent, child
    ensures HasLinks(nodes, links + multiset{(parent, child)})
  {
    parent.AddChild(child);
  }

  // links' is links with the nodes of some linked once more to node.
  ghost predicate Added(nodes: set<Node>, links: Links, links': Links, node: Node, some: set<Node>) {
    forall p, c :: p in nodes && c in nodes ==>
      links'[(p, c)] == links[(p, c)] + if c == node && p in some then 1 else 0
  }

  function Named(nodes: set<Node>, name: string): set<Node> {
    set n | n in nodes && n.image.name == name
  }

  // One FROM line against all nodes, in any order.
  method LinkLine(nodes: set<Node>, node: Node, name: string, ghost links: Links) returns (ghost links': Links)
    requires node in nodes && HasLinks(nodes, links)
    modifies nodes
    ensures HasLinks(nodes, links') && Added(nodes, links, links', node, Named(nodes, name))
  {
    var rest := nodes;
    links' := links;
    while rest != {}
      invariant rest <= nodes && HasLinks(nodes, links')
      invariant Added(nodes, links, links', node, Named(nodes - rest, name))
    {
      var parentNode :| parentNode in rest;
      if parentNode.image.name == name {
        Link(nodes, parentNode, node, links');
        links' := links' + multiset{(parentNode, node)};
      }
      rest := rest - {parentNode};
    }
    assert nodes - {} == nodes;
  }

  // links' is links with every node linked to node as often as the lines name it.
  ghost predicate AddedLines(nodes: set<Node>, links: Links, links': Links, node: Node, lines: seq<string>) {
    forall p, c :: p in nodes && c in nodes ==>
      links'[(p, c)] == links[(p, c)] + if c == node then Count(lines, p.image.name) else 0
  }

  lemma AddLine(nodes: set<Node>, links: Links, mid: Links, links': Links, node: Node, lines: seq<string>, name: string)
    requires AddedLines(nodes, links, mid, node, lines) && Added(nodes, mid, links', node, Named(nodes, name))
    ensures AddedLines(nodes, links, links', node, lines + [name])
  {
    forall p, c | p in nodes && c in nodes
      ensures links'[(p, c)] == links[(p, c)] + if c == node then Count(lines + [name], p.image.name) else 0
    {
      assert multiset(lines + [name]) == multiset(lines) + multiset{name};
    }
  }

  method LinkNode(nodes: set<Node>, node: Node, ghost links: Links) returns (ghost links': Links)
    requires node in nodes && HasLinks(nodes, links)
    modifies nodes
    ensures HasLinks(nodes, links') && AddedLines(nodes, links, links', node, node.image.from)
  {
    var from := node.image.from;
    links' := links;
    for i := 0 to |from|
      invariant HasLinks(nodes, links') && AddedLines(nodes, links, links', node, from[..i])
    {
      ghost var mid := links';
      links' := LinkLine(nodes, node, from[i], mid);
      AddLine(nodes, links, mid, links', node, from[..i], from[i]);
      assert from[..i+1] == from[..i] + [from[i]];
    }
    assert from[..|from|] == from;
  }

  method LinkNodes(nodes: set<Node>)
    requires forall n :: n in nodes ==> n.parents == [] && n.children == []
    modifies nodes
    ensures Exact(nodes)
  {
    var rest := nodes;
    ghost var links: Links := multiset{};
    while rest != {}
      invariant rest <= nodes && HasLinks(nodes, links) && WantedBut(nodes, rest, links)
    {
      var node :| node in rest;
      ghost var links' := LinkNode(nodes, node, links);
      assert WantedBut(nodes, rest - {node}, links');
      rest, links := rest - {node}, links';
    }
  }

  ghost predicate WantedBut(nodes: set<Node>, rest: set<Node>, links: Links) {
    forall p, c :: p in nodes && c in nodes ==> links[(p, c)] == if c in rest then 0 else Wanted(p, c)
  }

  // The roots are the parentless nodes, each once.
  ghost predicate RootsExact(nodes: set<Node>, graph: DAG)
    reads nodes, graph
  {
    && (forall n :: n in graph.nodes ==> n in nodes)
    && (forall n :: n in nodes ==> multiset(graph.nodes)[n] == if n.parents == [] then 1 else 0)
  }

  method NewGraphFromNodes(nodes: set<Node>) returns (graph: DAG)
    requires forall n :: n in nodes ==> n.parents == [] && n.children == []
    modifies nodes
    ensures fresh(graph) && Exact(nodes) && RootsExact(nodes, graph)
    ensures forall p, c :: p in nodes && c in nodes ==>
      multiset(c.parents)[p] == multiset(p.children)[c] == multiset(c.image.from)[p.image.name]
  {
    LinkNodes(nodes);
    graph := new DAG();
    var rest := nodes;
    while rest != {}
      invariant rest <= nodes && Exact(nodes)
      invariant fresh(graph) && forall n :: n in graph.nodes ==> n in nodes
      invariant forall n :: n in nodes ==> multiset(graph.nodes)[n] == if n !in rest && n.parents == [] then 1 else 0
    {
      var node :| node in rest;
      if |node.parents| == 0 { graph.AddNode(node); }
      rest := rest - {node};
    }
  }

  // ---- The linked nodes as a graph value

  function Ids(ns: seq<Node>): seq<nat> { seq(|ns|, i requires 0 <= i < |ns| => ns[i].id) }

  function View(nodes: seq<Node>, roots: seq<Node>): Graph
    reads nodes
  {
    Graph(seq(|nodes|, i requires 0 <= i < |nodes| reads nodes => Ids(nodes[i].children)),
          seq(|nodes|, i requires 0 <= i < |nodes| reads nodes => Ids(nodes[i].parents)),
          Ids(roots))
  }

  ghost predicate Numbered(nodes: seq<Node>) {
    (forall n: nat :: n < |nodes| ==> nodes[n].id == n) && DistinctImages(nodes)
  }

  function Nodes(nodes: seq<Node>): set<Node> { set n | n in nodes }

  lemma IdIn(nodes: seq<Node>, ns: seq<Node>, m: nat)
    requires Numbered(nodes) && m < |nodes| && forall n :: n in ns ==> n in nodes
    ensures m in Ids(ns) <==> nodes[m] in ns
  {
    if m in Ids(ns) {
      var i :| 0 <= i < |ns| && Ids(ns)[i] == m;
      assert ns[i] in nodes;
      var k :| 0 <= k < |nodes| && nodes[k] == ns[i];
    }
    if nodes[m] in ns {
      var i :| 0 <= i < |ns| && ns[i] == nodes[m];
      assert Ids(ns)[i] == m;
    }
  }

  lemma IdsLinked(nodes: seq<Node>, ns: seq<Node>)
    requires Numbered(nodes) && forall n :: n in ns ==> n in nodes
    ensures Dag.Linked(nodes, ns, Ids(ns)) && Within(Ids(ns), |nodes|)
  {
    forall i | 0 <= i < |ns| ensures Ids(ns)[i] < |nodes| && ns[i] == nodes[Ids(ns)[i]] {
      assert ns[i] in nodes;
    }
  }

  // The graph built has the shape that every other part of the program relies on.
  lemma BuiltGraph(nodes: seq<Node>, graph: DAG)
    requires Numbered(nodes) && Exact(Nodes(nodes)) && RootsExact(Nodes(nodes), graph)
    ensures View(nodes, graph.nodes).Valid() && Models(nodes, View(nodes, graph.nodes))
    ensures Dag.Linked(nodes, graph.nodes, View(nodes, graph.nodes).roots)
  {
    var g := View(nodes, graph.nodes);
    forall n: nat | n < |nodes|
      ensures Dag.Linked(nodes, nodes[n].children, g.children[n]) && Within(g.children[n], |nodes|)
      ensures Dag.Linked(nodes, nodes[n].parents, g.parents[n]) && Within(g.parents[n], |nodes|)
    {
      assert nodes[n] in Nodes(nodes);
      IdsLinked(nodes, nodes[n].children);
      IdsLinked(nodes, nodes[n].parents);
    }
    IdsLinked(nodes, graph.nodes);
    forall n: nat, m: nat | n < |nodes| && m < |nodes| ensures m in g.children[n] <==> n in g.parents[m] {
      BothWays(nodes, n, m);
    }
    forall n: nat | n < |nodes| ensures n in g.roots <==> g.parents[n] == [] {
      assert nodes[n] in Nodes(nodes);
      IdIn(nodes, graph.nodes, n);
      assert nodes[n] in graph.nodes <==> multiset(graph.nodes)[nodes[n]] > 0;
    }
  }

  lemma BothWays(nodes: seq<Node>, n: nat, m: nat)
    requires Numbered(nodes) && Exact(Nodes(nodes)) && n < |nodes| && m < |nodes|
    ensures m in Ids(nodes[n].children) <==> Wanted(nodes[n], nodes[m]) > 0
    ensures n in Ids(nodes[m].parents) <==> Wanted(nodes[n], nodes[m]) > 0
  {
    assert nodes[n] in Nodes(nodes) && nodes[m] in Nodes(nodes);
    IdIn(nodes, nodes[n].children, m);
    IdIn(nodes, nodes[m].parents, n);
    assert nodes[m] in nodes[n].children <==> multiset(nodes[n].children)[nodes[m]] > 0;
    assert nodes[n] in nodes[m].parents <==> multiset(nodes[m].parents)[nodes[n]] > 0;
  }

  lemma {:induction false} IdTimes(nodes: seq<Node>, ns: seq<Node>, m: nat)
    requires Numbered(nodes) && m < |nodes| && forall n :: n in ns ==> n in nodes
    ensures Times(Ids(ns), m) == multiset(ns)[nodes[m]]
  {
    if ns != [] {
      var front, last := ns[..|ns|-1], ns[|ns|-1];
      assert ns == front + [last] && Ids(ns) == Ids(front) + [last.id];
      assert last in nodes;
      IdTimes(nodes, front, m);
    }
  }

  // Every link appears on both of its sides, and every root once.
  lemma BuiltBalanced(nodes: seq<Node>, graph: DAG)
    requires Numbered(nodes) && Exact(Nodes(nodes)) && RootsExact(Nodes(nodes), graph)
    ensures Balanced(View(nodes, graph.nodes))
  {
    var g := View(nodes, graph.nodes);
    forall p: nat, c: nat | p < |nodes| && c < |nodes| ensures Times(g.children[p], c) == Times(g.parents[c], p) {
      assert nodes[p] in Nodes(nodes) && nodes[c] in Nodes(nodes);
      IdTimes(nodes, nodes[p].children, c);
      IdTimes(nodes, nodes[c].parents, p);
    }
    forall i, j | 0 <= i < j < |g.roots| ensures g.roots[i] != g.roots[j] {
      RootsOnce(nodes, graph, i, j);
    }
  }

  lemma RootsOnce(nodes: seq<Node>, graph: DAG, i: nat, j: nat)
    requires Numbered(nodes) && RootsExact(Nodes(nodes), graph) && i < j < |graph.nodes|
    ensures graph.nodes[i].id != graph.nodes[j].id
  {
    var ns := graph.nodes;
    assert ns[i] in Nodes(nodes) && ns[j] in Nodes(nodes);
    TwiceIn(ns, i, j);
  }

  // The FROM relation has no cycle.
  ghost predicate FromRanked(nodes: seq<Node>, rank: seq<nat>) {
    && |rank| == |nodes|
    && (forall p: nat, c: nat :: p < |nodes| && c < |nodes| && Wanted(nodes[p], nodes[c]) > 0 ==> rank[p] < rank[c])
  }

  // Without a cycle of FROM lines the roots unfold to a finite forest that contains every node.
  lemma BuiltReachable(nodes: seq<Node>, graph: DAG, rank: seq<nat>) returns (f: Forest)
    requires Numbered(nodes) && Exact(Nodes(nodes)) && RootsExact(Nodes(nodes), graph) && FromRanked(nodes, rank)
    ensures Ranked(View(nodes, graph.nodes), rank) && Unfolds(View(nodes, graph.nodes), f)
    ensures forall n: nat :: n < |nodes| ==> n in Graphs.Nodes(f)
    ensures Hangs(set n | 0 <= n < |nodes| :: nodes[n], graph.nodes, f)
  {
    var g := View(nodes, graph.nodes);
    BuiltGraph(nodes, graph);
    forall n, i | 0 <= n < g.Size() && 0 <= i < |g.children[n]| ensures rank[n] < rank[g.children[n][i]] {
      BothWays(nodes, n, g.children[n][i]);
    }
    f := RankedUnfolds(g, rank, 0, g.roots);
    forall n: nat | n < |nodes| ensures n in Graphs.Nodes(f) { EveryNodeUnfolded(g, rank, f, n); }
    ModelsHang(nodes, g, graph.nodes, f);
  }

  // ---- buildGraph: which Dockerfiles become nodes

  datatype Entry = Entry(dir: string, name: string, skip: bool)

  // What the walk meets: an entry it has no access to, or a Dockerfile, with what parsing it gives and whether the
  // files of its context could be listed.
  datatype Found = Inaccessible | Found(dir: string, parsed: Option<Dockerfile>, listed: bool)

  // newImageFromDockerfile: only a skipped image may have no name.
  function NewImage(f: Found, prefix: string): Option<Entry> {
    if f.Inaccessible? || f.parsed.None? then None
    else
      var labels := f.parsed.value.labels;
      var skip := "skipbuild" in labels && labels["skipbuild"] == "true";
      if (!skip && "name" !in labels) || !f.listed then None
      else Some(Entry(f.dir, prefix + "/" + (if "name" in labels then labels["name"] else ""), skip))
  }

  function NewImages(files: seq<Found>, prefix: string): seq<Option<Entry>> {
    seq(|files|, i requires 0 <= i < |files| => NewImage(files[i], prefix))
  }

  // The last image of each directory that is not skipped.
  function Kept(entries: seq<Option<Entry>>): map<string, Entry> {
    if entries == [] then map[]
    else
      var e := entries[|entries|-1];
      var m := Kept(entries[..|entries|-1]);
      if e.None? || e.value.skip then m else m[e.value.dir := e.value]
  }

  // The image name of the entry at i is that of a node stored before it.
  ghost predicate Duplicate(entries: seq<Option<Entry>>, i: nat)
    requires i < |entries|
  {
    entries[i].Some? && exists d :: d in Kept(entries[..i]) && Kept(entries[..i])[d].name == entries[i].value.name
  }

  ghost predicate Rejected(entries: seq<Option<Entry>>, i: nat)
    requires i < |entries|
  {
    entries[i].None? || Duplicate(entries, i)
  }

  method HasName(nodes: map<string, Entry>, name: string) returns (found: bool)
    ensures found <==> exists d :: d in nodes && nodes[d].name == name
  {
    var rest := nodes.Keys;
    while rest != {}
      invariant rest <= nodes.Keys && forall d :: d in nodes && d !in rest ==> nodes[d].name != name
    {
      var d :| d in rest;
      if nodes[d].name == name { return true; }
      rest := rest - {d};
    }
    found := false;
  }

  method BuildNodes(files: seq<Found>, prefix: string) returns (r: Option<map<string, Entry>>)
    ensures r.None? <==> exists i :: 0 <= i < |files| && Rejected(NewImages(files, prefix), i)
    ensures r.Some? ==> r.value == Kept(NewImages(files, prefix))
  {
    ghost var entries := NewImages(files, prefix);
    var nodes: map<string, Entry> := map[];
    for i := 0 to |files|
      invariant nodes == Kept(entries[..i])
      invariant forall j :: 0 <= j < i ==> !Rejected(entries, j)
    {
      var img := NewImage(files[i], prefix);
      assert entries[i] == img && entries[..i+1][..i] == entries[..i];
      if img.None? {
        assert Rejected(entries, i);
        return None;
      }
      var duplicate := HasName(nodes, img.value.name);
      if duplicate {
        assert Rejected(entries, i);
        return None;
      }
      if !img.value.skip { nodes := nodes[img.value.dir := img.value]; }
    }
    assert entries[..|entries|] == entries;
    r := Some(nodes);
  }

  // What Kept means: for each directory the last image not skipped.
  lemma {:induction false} KeptMeans(entries: seq<Option<Entry>>, d: string, e: Entry)
    ensures d in Kept(entries) && Kept(entries)[d] == e <==>
      exists i :: 0 <= i < |entries| && entries[i] == Some(e) && LastOf(entries, d, i)
  {
    if entries != [] {
      var k := |entries| - 1;
      KeptMeans(entries[..k], d, e);
      if Stored(entries[k], d) {
        assert LastOf(entries, d, k);
        assert forall i :: 0 <= i < |entries| && LastOf(entries, d, i) ==> i == k;
      } else {
        assert forall i :: 0 <= i < k ==> (LastOf(entries, d, i) <==> LastOf(entries[..k], d, i));
      }
    }
  }

  predicate Stored(e: Option<Entry>, d: string) { e.Some? && e.value.dir == d && !e.value.skip }

  ghost predicate LastOf(entries: seq<Option<Entry>>, d: string, i: nat)
    requires i < |entries|
  {
    Stored(entries[i], d) && forall j :: i < j < |entries| ==> !Stored(entries[j], d)
  }

  // Without a rejection on the way, no two nodes have the same image name.
  lemma {:induction false} NamesDistinct(entries: seq<Option<Entry>>, d: string, d': string)
    requires forall i :: 0 <= i < |entries| ==> !Rejected(entries, i)
    requires d in Kept(entries) && d' in Kept(entries) && d != d'
    ensures Kept(entries)[d].name != Kept(entries)[d'].name
  {
    var k := |entries| - 1;
    assert !Rejected(entries, k);
    forall i | 0 <= i < k ensures !Rejected(entries[..k], i) {
      assert entries[..k][..i] == entries[..i];
      assert !Rejected(entries, i);
    }
    if d in Kept(entries[..k]) && d' in Kept(entries[..k]) { NamesDistinct(entries[..k], d, d'); }
  }

  // ---- On the labels of the Dockerfiles

  // An image that is built: its Dockerfile is not labelled to be skipped.
  predicate Labelled(f: Found) {
    && f.Found? && f.parsed.Some? && f.listed && "name" in f.parsed.value.labels
    && !("skipbuild" in f.parsed.value.labels && f.parsed.value.labels["skipbuild"] == "true")
  }

  // A Dockerfile that makes the program fail: it cannot be had, or it is neither named nor to be skipped.
  predicate Unusable(f: Found) {
    || f.Inaccessible? || f.parsed.None? || !f.listed
    || ("name" !in f.parsed.value.labels &&
          !("skipbuild" in f.parsed.value.labels && f.parsed.value.labels["skipbuild"] == "true"))
  }

  lemma ImageOfLabels(f: Found, prefix: string)
    ensures NewImage(f, prefix).None? <==> Unusable(f)
    ensures Labelled(f) <==> NewImage(f, prefix).Some? && !NewImage(f, prefix).value.skip
    ensures Labelled(f) ==>
      NewImage(f, prefix) == Some(Entry(f.dir, prefix + "/" + f.parsed.value.labels["name"], false))
    ensures NewImage(f, prefix).Some? ==> NewImage(f, prefix).value.dir == f.dir
    ensures NewImage(f, prefix).Some? && "name" in f.parsed.value.labels ==>
      NewImage(f, prefix).value.name == prefix + "/" + f.parsed.value.labels["name"]
    ensures NewImage(f, prefix).Some? && "name" !in f.parsed.value.labels ==>
      NewImage(f, prefix).value.name == prefix + "/"
  {
    if Labelled(f) { assert prefix + "/" + f.parsed.value.labels["name"] == NewImage(f, prefix).value.name; }
  }

  // files[i] is the last Dockerfile to be built in its directory.
  ghost predicate LastLabelled(files: seq<Found>, i: nat)
    requires i < |files|
  {
    Labelled(files[i]) && forall j :: i < j < |files| && Labelled(files[j]) ==> files[j].dir != files[i].dir
  }

  // The nodes are exactly the last Dockerfiles of each directory that are not labelled to be skipped, each under the
  // registry prefix and the name in its label.
  lemma NodesOnLabels(files: seq<Found>, prefix: string, d: string, e: Entry)
    ensures d in Kept(NewImages(files, prefix)) && Kept(NewImages(files, prefix))[d] == e <==>
      exists i :: 0 <= i < |files| && LastLabelled(files, i) && files[i].dir == d &&
        e == Entry(d, prefix + "/" + files[i].parsed.value.labels["name"], false)
  {
    var entries := NewImages(files, prefix);
    KeptMeans(entries, d, e);
    forall i | 0 <= i < |files|
      ensures Stored(entries[i], d) <==> Labelled(files[i]) && files[i].dir == d
      ensures Labelled(files[i]) ==>
        entries[i] == Some(Entry(files[i].dir, prefix + "/" + files[i].parsed.value.labels["name"], false))
    {
      ImageOfLabels(files[i], prefix);
    }
    forall i | 0 <= i < |files| ensures LastOf(entries, d, i) <==> LastLabelled(files, i) && files[i].dir == d {}
  }
}
