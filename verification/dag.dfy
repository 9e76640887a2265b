// The objects of pkg/dag: images, nodes linked both ways, and the graph with its recursive walks.
module Dag {
  import opened Wrappers
  import opened Graphs
  import W = Walks

  class Image {
    const name: string
    const shortName: string
    const extraTags: seq<string>
    const from: seq<string> // the names in the FROM lines of the Dockerfile
    var hash: string
    var needsRebuild: bool
    var needsTests: bool
    var rebuildFailed: bool
    var retagDone: bool

    constructor (name: string, shortName: string, extraTags: seq<string>, from: seq<string>)
      ensures this.name == name && this.shortName == shortName && this.extraTags == extraTags && this.from == from
      ensures hash == ""
      ensures !needsRebuild && !needsTests && !rebuildFailed && !retagDone
    {
      this.name, this.shortName, this.extraTags, this.from, hash := name, shortName, extraTags, from, "";
      needsRebuild, needsTests, rebuildFailed, retagDone := false, false, false, false;
    }
  }

  // The memory of a unique visitor: the calls it let through, in order.
  class Visitor {
    var trace: seq<nat>

    constructor ()
      ensures trace == []
    {
      trace := [];
    }

    method Visit(n: nat)
      modifies this
      ensures trace == W.Visit(n, old(trace))
    {
      if n in trace { return; }
      trace := trace + [n];
    }

    // errs holds what the wrapped visitor returns for the nodes on which it fails.
    method VisitErr(n: nat, errs: map<nat, string>) returns (err: Option<string>)
      modifies this
      ensures trace == W.Visit(n, old(trace))
      ensures err == if n !in old(trace) && n in errs then Some(errs[n]) else None
    {
      if n in trace { return None; }
      trace := trace + [n];
      err := if n in errs then Some(errs[n]) else None;
    }
  }

  // The nodes of ns, followed through their children, unfold to f. A finite f exists only without cycles.
  ghost predicate Hangs(arena: set<Node>, ns: seq<Node>, f: Forest)
    reads arena
    decreases f
  {
    match f
    case Nil => ns == []
    case Cons(n, kids, rest) =>
      ns != [] && ns[0] in arena && ns[0].id == n && Hangs(arena, ns[0].children, kids) && Hangs(arena, ns[1..], rest)
  }

  class Node {
    const id: nat
    const image: Image
    var parents: seq<Node>
    var children: seq<Node>

    constructor (id: nat, image: Image)
      ensures this.id == id && this.image == image && parents == [] && children == []
    {
      this.id, this.image, parents, children := id, image, [], [];
    }

    method AddChild(node: Node)
      modifies this`children, node`parents
      ensures children == old(children) + [node]
      ensures node.parents == old(node.parents) + [this]
    {
      children := children + [node];
      node.parents := node.parents + [this];
    }

    method Walk(v: Visitor, ghost arena: set<Node>, ghost f: Forest)
      requires this in arena && Hangs(arena, children, f)
      modifies v
      ensures v.trace == W.Walk(f, W.Visit(id, old(v.trace)))
      decreases f
    {
      v.Visit(id);
      ghost var t, r := v.trace, f;
      for i := 0 to |children|
        invariant Hangs(arena, children[i..], r) && (r == f || r < f)
        invariant W.Walk(f, t) == W.Walk(r, v.trace)
      {
        assert children[i..][1..] == children[i+1..];
        children[i].Walk(v, arena, r.kids);
        r := r.rest;
      }
    }

    method WalkErr(v: Visitor, errs: map<nat, string>, ghost arena: set<Node>,
                   ghost f: Forest) returns (err: Option<string>)
      requires this in arena && Hangs(arena, children, f)
      modifies v
      ensures (v.trace, err) == W.WalkErr(Cons(id, f, Nil), old(v.trace), errs)
      decreases f
    {
      err := v.VisitErr(id, errs);
      if err.Some? { return; }
      ghost var t, r := v.trace, f;
      for i := 0 to |children|
        invariant Hangs(arena, children[i..], r) && (r == f || r < f) && err.None?
        invariant W.WalkErr(f, t, errs) == W.WalkErr(r, v.trace, errs)
      {
        assert children[i..][1..] == children[i+1..];
        err := children[i].WalkErr(v, errs, arena, r.kids);
        if err.Some? { return; }
        r := r.rest;
      }
    }

    method WalkInDepth(v: Visitor, ghost arena: set<Node>, ghost f: Forest)
      requires this in arena && Hangs(arena, children, f)
      modifies v
      ensures v.trace == W.Visit(id, W.WalkInDepth(f, old(v.trace)))
      decreases f
    {
      ghost var r := f;
      for i := 0 to |children|
        invariant Hangs(arena, children[i..], r) && (r == f || r < f)
        invariant W.WalkInDepth(f, old(v.trace)) == W.WalkInDepth(r, v.trace)
      {
        assert children[i..][1..] == children[i+1..];
        children[i].WalkInDepth(v, arena, r.kids);
        r := r.rest;
      }
      v.Visit(id);
    }
  }

  class DAG {
    var nodes: seq<Node> // root nodes

    constructor ()
      ensures nodes == []
    {
      nodes := [];
    }

    method AddNode(node: Node)
      modifies this
      ensures nodes == old(nodes) + [node]
    {
      nodes := nodes + [node];
    }

    method Walk(v: Visitor, ghost arena: set<Node>, ghost f: Forest)
      requires v.trace == [] && Hangs(arena, nodes, f)
      modifies v
      ensures v.trace == W.Walk(f, [])
    {
      ghost var r := f;
      for i := 0 to |nodes|
        invariant Hangs(arena, nodes[i..], r) && W.Walk(f, []) == W.Walk(r, v.trace)
      {
        assert nodes[i..][1..] == nodes[i+1..];
        nodes[i].Walk(v, arena, r.kids);
        r := r.rest;
      }
    }

    method WalkErr(v: Visitor, errs: map<nat, string>, ghost arena: set<Node>,
                   ghost f: Forest) returns (err: Option<string>)
      requires v.trace == [] && Hangs(arena, nodes, f)
      modifies v
      ensures (v.trace, err) == W.WalkErr(f, [], errs)
    {
      err := None;
      ghost var r := f;
      for i := 0 to |nodes|
        invariant Hangs(arena, nodes[i..], r) && err.None? && W.WalkErr(f, [], errs) == W.WalkErr(r, v.trace, errs)
      {
        assert nodes[i..][1..] == nodes[i+1..];
        err := nodes[i].WalkErr(v, errs, arena, r.kids);
        if err.Some? { return; }
        r := r.rest;
      }
    }

    method WalkInDepth(v: Visitor, ghost arena: set<Node>, ghost f: Forest)
      requires v.trace == [] && Hangs(arena, nodes, f)
      modifies v
      ensures v.trace == W.WalkInDepth(f, [])
    {
      ghost var r := f;
      for i := 0 to |nodes|
        invariant Hangs(arena, nodes[i..], r) && W.WalkInDepth(f, []) == W.WalkInDepth(r, v.trace)
      {
        assert nodes[i..][1..] == nodes[i+1..];
        nodes[i].WalkInDepth(v, arena, r.kids);
        r := r.rest;
      }
    }
  }

  // The objects of nodes, numbered by their ids, are linked like g. No two of them share an image.
  ghost predicate Models(nodes: seq<Node>, g: Graph)
    reads nodes
  {
    && |nodes| == g.Size() == |g.parents|
    && (forall n: nat :: n < |nodes| ==> nodes[n].id == n && Linked(nodes, nodes[n].children, g.children[n]) &&
                                         Linked(nodes, nodes[n].parents, g.parents[n]))
    && DistinctImages(nodes)
  }

  ghost predicate DistinctImages(nodes: seq<Node>) {
    forall n: nat, m: nat :: n < m < |nodes| ==> nodes[n].image != nodes[m].image
  }

  ghost predicate Linked(nodes: seq<Node>, objects: seq<Node>, ids: seq<nat>) {
    |objects| == |ids| && forall i :: 0 <= i < |ids| ==> ids[i] < |nodes| && objects[i] == nodes[ids[i]]
  }

  // Linked objects hang together as the graph unfolds.
  lemma {:induction false} ModelsHang(nodes: seq<Node>, g: Graph, objects: seq<Node>, f: Forest)
    requires Models(nodes, g) && Matches(g, f) && Linked(nodes, objects, Heads(f))
    ensures Hangs(set n | 0 <= n < |nodes| :: nodes[n], objects, f)
    decreases f
  {
    if f.Cons? {
      assert Heads(f)[0] == f.node;
      ModelsHang(nodes, g, objects[0].children, f.kids);
      assert forall i :: 0 <= i < |Heads(f.rest)| ==>
        Heads(f.rest)[i] == Heads(f)[i+1] && objects[1..][i] == objects[i+1];
      ModelsHang(nodes, g, objects[1..], f.rest);
    }
  }
}
