// walkOverTree: the graph as an indented tree, and back.
module Printing {
  import opened Wrappers
  import opened Graphs
  import opened Dag

  // What is printed: the label of each node with the trees below it.
  datatype Tree = End | Item(text: string, kids: Tree, rest: Tree)

  function Labelled(f: Forest, labels: seq<string>): Tree {
    if f.Nil? then End
    else Item(if f.node < |labels| then labels[f.node] else "", Labelled(f.kids, labels), Labelled(f.rest, labels))
  }

  function Corner(last: bool): (c: string)
    ensures |c| == 1 && (c[0] == '└' <==> last)
  {
    if last then "└" else "├"
  }

  // The Indent field of the printer.
  type Indent = n: nat | n >= 1 witness 1

  function Repeat(c: char, n: nat): (s: string)
    ensures |s| == n && forall i :: 0 <= i < n ==> s[i] == c
  {
    seq(n, _ => c)
  }

  function Connector(leaf: bool, indent: Indent): (c: string)
    ensures |c| == indent && (c[indent-1] == '─' <==> leaf)
  {
    if leaf then Repeat('─', indent) else Repeat('─', indent - 1) + "┬"
  }

  function Line(prefix: string, last: bool, leaf: bool, text: string, indent: Indent): string {
    prefix + (Corner(last) + Connector(leaf, indent) + (text + "\n"))
  }

  // What precedes the lines below an item.
  function Below(prefix: string, last: bool, indent: Indent): string {
    prefix + if last then Repeat(' ', indent) else "│" + Repeat(' ', indent - 1)
  }

  function Render(t: Tree, prefix: string, indent: Indent): string {
    if t.End? then ""
    else
      Line(prefix, t.rest.End?, t.kids.End?, t.text, indent)
      + Render(t.kids, Below(prefix, t.rest.End?, indent), indent) + Render(t.rest, prefix, indent)
  }

  function Label(img: Image): string
    reads img`hash
  {
    img.shortName + " [" + img.hash + "]"
  }

  ghost predicate LabelsOf(arena: set<Node>, labels: seq<string>)
    reads arena, set n | n in arena :: n.image
  {
    forall n :: n in arena ==> n.id < |labels| && labels[n.id] == Label(n.image)
  }

  method WalkOverTree(nodes: seq<Node>, prefix: string, indent: Indent, ghost arena: set<Node>,
                      ghost labels: seq<string>, ghost f: Forest)
    returns (result: string)
    requires Hangs(arena, nodes, f) && LabelsOf(arena, labels)
    ensures result == Render(Labelled(f, labels), prefix, indent)
    decreases f
  {
    result := "";
    ghost var r := f;
    for i := 0 to |nodes|
      invariant Hangs(arena, nodes[i..], r) && (r == f || r < f)
      invariant Render(Labelled(f, labels), prefix, indent) == result + Render(Labelled(r, labels), prefix, indent)
    {
      var node := nodes[i];
      assert nodes[i..][0] == node && nodes[i..][1..] == nodes[i+1..];
      var last, leaf := i + 1 == |nodes|, |node.children| == 0;
      ChildlessEnds(arena, nodes[i..], r, labels);
      var txt := Line(prefix, last, leaf, Label(node.image), indent);
      ghost var below := Render(Labelled(r.kids, labels), Below(prefix, last, indent), indent);
      assert Render(Labelled(r, labels), prefix, indent)
          == txt + below + Render(Labelled(r.rest, labels), prefix, indent);
      Glue(result, txt, below, Render(Labelled(r.rest, labels), prefix, indent));
      result := result + txt;
      if !leaf {
        var lines := WalkOverTree(node.children, Below(prefix, last, indent), indent, arena, labels, r.kids);
        result := result + lines;
      }
      r := r.rest;
    }
  }

  lemma Glue(a: string, b: string, c: string, d: string)
    ensures a + (b + c + d) == a + b + c + d
    ensures c == "" ==> a + b + c == a + b
  {}

  lemma ChildlessEnds(arena: set<Node>, nodes: seq<Node>, f: Forest, labels: seq<string>)
    requires Hangs(arena, nodes, f) && nodes != []
    ensures f.Cons? && (Labelled(f.kids, labels).End? <==> nodes[0].children == [])
    ensures (Labelled(f.rest, labels).End? <==> |nodes| == 1)
  {}

  function Page(name: string, t: Tree, indent: Indent): string {
    (if name != "" then name + "\n" else "") + Render(t, "", indent)
  }

  method Srender(name: string, graph: DAG, indent: Indent, ghost arena: set<Node>, ghost labels: seq<string>,
                 ghost f: Forest)
    returns (result: string)
    requires Hangs(arena, graph.nodes, f) && LabelsOf(arena, labels)
    ensures result == Page(name, Labelled(f, labels), indent)
  {
    result := if name != "" then name + "\n" else "";
    var tree := WalkOverTree(graph.nodes, "", indent, arena, labels, f);
    result := result + tree;
  }

  // Below an item: the cells before it, then a bar iff a later item follows it in its list, then blanks.
  lemma BelowCells(prefix: string, last: bool, indent: Indent)
    ensures var b := Below(prefix, last, indent);
      && |b| == |prefix| + indent && b[..|prefix|] == prefix
      && b[|prefix|] == (if last then ' ' else '│')
      && forall i :: |prefix| < i < |b| ==> b[i] == ' '
  {}

  // The program's own indent: a root with a child and a grandchild, and a second root.
  lemma Example(t: Tree)
    requires t == Item("a", Item("b", Item("c", End, End), End), Item("d", End, End))
    ensures Page("root", t, 3) == "root\n" + "├──┬a\n" + "│  └──┬b\n" + "│     └───c\n" + "└───d\n"
  {
    var c, d := Item("c", End, End), Item("d", End, End);
    var b := Item("b", c, End);
    assert Repeat('─', 2) == "──" && Repeat('─', 3) == "───" && Repeat(' ', 2) == "  " && Repeat(' ', 3) == "   ";
    assert Below("", false, 3) == "│  " && Below("│  ", true, 3) == "│     ";
    assert Line("", true, true, "d", 3) == "└───d\n" && Line("", false, false, "a", 3) == "├──┬a\n";
    assert Line("│  ", true, false, "b", 3) == "│  └──┬b\n" && Line("│     ", true, true, "c", 3) == "│     └───c\n";
    assert Render(d, "", 3) == "└───d\n" + "" + "" == "└───d\n";
    assert Render(c, "│     ", 3) == "│     └───c\n" + "" + "" == "│     └───c\n";
    assert Render(b, "│  ", 3) == "│  └──┬b\n" + "│     └───c\n" + "";
  }

  // ---- Reading the text back

  function Newline(s: string): (n: nat)
    ensures n <= |s|
  {
    if s == "" || s[0] == '\n' then 0 else 1 + Newline(s[1..])
  }

  datatype FirstLine = FirstLine(last: bool, leaf: bool, text: string, after: string)

  function ReadLine(s: string, prefix: string, indent: Indent): (r: Option<FirstLine>)
    ensures r.Some? ==> |r.value.after| < |s|
  {
    if |s| < |prefix| + 1 + indent || s[..|prefix|] != prefix then None
    else
      var s1 := s[|prefix|..];
      var n := Newline(s1[1+indent..]);
      if n == |s1[1+indent..]| then None
      else Some(FirstLine(s1[0] == '└', s1[indent] == '─', s1[1+indent..][..n], s1[1+indent..][n+1..]))
  }

  // Reads a non-empty list of trees whose lines start with prefix; also returns the text after it.
  function Parse(s: string, prefix: string, indent: Indent): (r: Option<(Tree, string)>)
    ensures r.Some? ==> |r.value.1| < |s|
    decreases |s|
  {
    var line := ReadLine(s, prefix, indent);
    if line.None? then None
    else
      var FirstLine(last, leaf, text, after) := line.value;
      var kids := if leaf then Some((End, after)) else Parse(after, Below(prefix, last, indent), indent);
      if kids.None? then None
      else
        var rest := if last then Some((End, kids.value.1)) else Parse(kids.value.1, prefix, indent);
        if rest.None? then None else Some((Item(text, kids.value.0, rest.value.0), rest.value.1))
  }

  predicate LineLabels(t: Tree) { t.Item? ==> '\n' !in t.text && LineLabels(t.kids) && LineLabels(t.rest) }

  lemma {:induction false} NewlineAfter(text: string, tail: string)
    requires '\n' !in text
    ensures Newline(text + "\n" + tail) == |text|
  {
    var s := text + "\n" + tail;
    if text == "" {
      assert s[0] == '\n';
    } else {
      assert s[0] == text[0] && s[1..] == text[1..] + "\n" + tail;
      NewlineAfter(text[1..], tail);
    }
  }

  lemma ReadLineBack(prefix: string, last: bool, leaf: bool, text: string, indent: Indent, tail: string)
    requires '\n' !in text
    ensures ReadLine(Line(prefix, last, leaf, text, indent) + tail, prefix, indent)
         == Some(FirstLine(last, leaf, text, tail))
  {
    var s, marks, after := Line(prefix, last, leaf, text, indent) + tail, Corner(last) + Connector(leaf,
        indent), text + "\n" + tail;
    assert s[..|prefix|] == prefix && s[|prefix|..] == marks + after;
    assert (marks + after)[1+indent..] == after && (marks + after)[indent] == Connector(leaf, indent)[indent-1];
    NewlineAfter(text, tail);
    assert after[..|text|] == text && after[|text|+1..] == tail;
  }

  lemma ParseStep(s: string, prefix: string, indent: Indent, line: FirstLine, kids: (Tree, string),
                  rest: (Tree, string))
    requires ReadLine(s, prefix, indent) == Some(line)
    requires if line.leaf then kids == (End, line.after)
             else Parse(line.after, Below(prefix, line.last, indent), indent) == Some(kids)
    requires if line.last then rest == (End, kids.1) else Parse(kids.1, prefix, indent) == Some(rest)
    ensures Parse(s, prefix, indent) == Some((Item(line.text, kids.0, rest.0), rest.1))
  {}

  lemma Regroup(a: string, b: string, c: string, d: string)
    ensures a + b + c + d == a + (b + (c + d))
  {}

  lemma {:induction false} ParseRender(t: Tree, prefix: string, indent: Indent, tail: string)
    requires t.Item? && LineLabels(t)
    ensures Parse(Render(t, prefix, indent) + tail, prefix, indent) == Some((t, tail))
  {
    var last, leaf := t.rest.End?, t.kids.End?;
    var below := Below(prefix, last, indent);
    var line, kids, rest := Line(prefix, last, leaf, t.text, indent), Render(t.kids, below, indent),
                             Render(t.rest, prefix, indent);
    Regroup(line, kids, rest, tail);
    ReadLineBack(prefix, last, leaf, t.text, indent, kids + (rest + tail));
    if leaf { assert kids + (rest + tail) == rest + tail; } else { ParseRender(t.kids, below, indent, rest + tail); }
    if last { assert rest + tail == tail; } else { ParseRender(t.rest, prefix, indent, tail); }
    ParseStep(Render(t, prefix, indent) + tail, prefix, indent, FirstLine(last, leaf, t.text, kids + (rest + tail)),
              (t.kids, rest + tail), (t.rest, tail));
  }

  // The text determines the forest of labels.
  lemma RenderingUnambiguous(t: Tree, t': Tree, indent: Indent)
    requires LineLabels(t) && LineLabels(t') && Render(t, "", indent) == Render(t', "", indent)
    ensures t == t'
  {
    assert Render(t, "", indent) == Render(t, "", indent) + "" && Render(t', "", indent) == Render(t', "", indent) + "";
    if t.Item? { ParseRender(t, "", indent, ""); }
    if t'.Item? { ParseRender(t', "", indent, ""); }
  }

  // The name reads like the line of a node without children.
  predicate ReadsAsLeaf(name: string, indent: Indent) {
    && |name| > indent && (name[..1] == Corner(true) || name[..1] == Corner(false))
    && name[1..1+indent] == Connector(true, indent)
  }

  lemma NameLine(name: string, rest: string)
    requires '\n' !in name
    ensures Newline(name + "\n" + rest) == |name|
    ensures (name + "\n" + rest)[..|name|] == name && (name + "\n" + rest)[|name|+1..] == rest
  {
    NewlineAfter(name, rest);
  }

  function Head(t: Tree, indent: Indent): string
    requires t.Item?
  {
    Corner(t.rest.End?) + Connector(t.kids.End?, indent) + t.text
  }

  function After(t: Tree, indent: Indent): string
    requires t.Item?
  {
    Render(t.kids, Below("", t.rest.End?, indent), indent) + Render(t.rest, "", indent)
  }

  lemma RenderHead(t: Tree, indent: Indent)
    requires t.Item?
    ensures Render(t, "", indent) == Head(t, indent) + "\n" + After(t, indent)
  {
    var line := Line("", t.rest.End?, t.kids.End?, t.text, indent);
    assert line == Head(t, indent) + "\n";
    var a, b := Render(t.kids, Below("", t.rest.End?, indent), indent), Render(t.rest, "", indent);
    assert line + a + b == line + (a + b);
  }

  lemma HeadMarks(t: Tree, indent: Indent)
    requires t.Item? && '\n' !in t.text
    ensures '\n' !in Head(t, indent) && Head(t, indent)[..1] == Corner(t.rest.End?)
    ensures Head(t, indent)[1..1+indent] == Connector(t.kids.End?, indent)
  {
    var c, k := Corner(t.rest.End?), Connector(t.kids.End?, indent);
    assert '\n' !in c && '\n' !in k;
    assert Head(t, indent) == c + (k + t.text);
  }

  lemma SameFirstLine(a: string, x: string, b: string, y: string)
    requires '\n' !in a && '\n' !in b && a + "\n" + x == b + "\n" + y
    ensures a == b && x == y
  {
    NameLine(a, x);
    NameLine(b, y);
  }

  // A page with a root name that is also a page without one begins with a leaf.
  lemma NamedAndNot(name: string, t: Tree, t': Tree, indent: Indent)
    requires name != "" && '\n' !in name && LineLabels(t) && LineLabels(t')
    requires Page(name, t, indent) == Page("", t', indent)
    ensures ReadsAsLeaf(name, indent)
  {
    var rest := Render(t, "", indent);
    assert Page("", t', indent) == Render(t', "", indent);
    assert t'.Item?;
    RenderHead(t', indent);
    HeadMarks(t', indent);
    SameFirstLine(name, rest, Head(t', indent), After(t', indent));
    if !t'.kids.End? {
      NoLineStarts(t, t'.kids, Below("", t'.rest.End?, indent), Render(t'.rest, "", indent), t'.rest.End?, indent);
    }
  }

  // Lines below a node do not begin like lines of the roots.
  lemma NoLineStarts(t: Tree, kids: Tree, below: string, tail: string, last: bool, indent: Indent)
    requires kids.Item? && below == Below("", last, indent)
    ensures Render(t, "", indent) != Render(kids, below, indent) + tail
  {
    assert (Render(kids, below, indent) + tail)[0] == below[0];
    assert below[0] == ' ' || below[0] == '│';
    if t.Item? {
      assert Render(t, "", indent)[0] == Corner(t.rest.End?)[0];
    }
  }

  lemma LeafPage(name: string, indent: Indent) returns (t: Tree, t': Tree)
    requires name != "" && '\n' !in name && ReadsAsLeaf(name, indent)
    ensures LineLabels(t) && LineLabels(t') && Page(name, t, indent) == Page("", t', indent)
  {
    var text := name[1+indent..];
    t := if name[..1] == Corner(true) then End else Item("", End, End);
    t' := Item(text, End, t);
    assert name == name[..1] + name[1..1+indent] + text;
    assert Head(t', indent) == name;
    RenderHead(t', indent);
    assert After(t', indent) == Render(t, "", indent);
  }

  // Such a name is ambiguous, and no other.
  lemma NameAmbiguousIff(name: string, indent: Indent)
    requires name != "" && '\n' !in name
    ensures ReadsAsLeaf(name, indent) <==>
      exists t, t' :: LineLabels(t) && LineLabels(t') && Page(name, t, indent) == Page("", t', indent)
  {
    if t, t' :| LineLabels(t) && LineLabels(t') && Page(name, t, indent) == Page("", t', indent) {
      NamedAndNot(name, t, t', indent);
    }
    if ReadsAsLeaf(name, indent) { var t, t' := LeafPage(name, indent); }
  }

  lemma BothNamed(name: string, t: Tree, name': string, t': Tree, indent: Indent)
    requires '\n' !in name && '\n' !in name' && name != "" && name' != ""
    requires Page(name, t, indent) == Page(name', t', indent)
    ensures name == name' && Render(t, "", indent) == Render(t', "", indent)
  {
    SameFirstLine(name, Render(t, "", indent), name', Render(t', "", indent));
  }

  lemma Unnamed(t: Tree, indent: Indent)
    ensures Page("", t, indent) == Render(t, "", indent)
  {}

  lemma PagesAgree(name: string, t: Tree, name': string, t': Tree, indent: Indent)
    requires LineLabels(t) && LineLabels(t') && '\n' !in name && '\n' !in name'
    requires (!ReadsAsLeaf(name, indent) && !ReadsAsLeaf(name', indent)) || (name == "" <==> name' == "")
    requires Page(name, t, indent) == Page(name', t', indent)
    ensures name == name' && Render(t, "", indent) == Render(t', "", indent)
  {
    if name == "" {
      if name' == "" {
        Unnamed(t, indent);
        Unnamed(t', indent);
      } else {
        NamedAndNot(name', t', t, indent);
      }
    } else if name' == "" {
      NamedAndNot(name, t, t', indent);
    } else {
      BothNamed(name, t, name', t', indent);
    }
  }

  // The text determines the root name and the whole forest of labels, unless exactly one page has a root name and that
  // name reads like a leaf.
  lemma PageUnambiguous(name: string, t: Tree, name': string, t': Tree, indent: Indent)
    requires LineLabels(t) && LineLabels(t') && '\n' !in name && '\n' !in name'
    requires (!ReadsAsLeaf(name, indent) && !ReadsAsLeaf(name', indent)) || (name == "" <==> name' == "")
    requires Page(name, t, indent) == Page(name', t', indent)
    ensures name == name' && t == t'
  {
    PagesAgree(name, t, name', t', indent);
    RenderingUnambiguous(t, t', indent);
  }

  // The labels of two images are the same iff short names and hashes are, when the hashes have no opening bracket, that
  // is, when no word of the list of words has one.
  lemma LabelUnique(a: Image, b: Image)
    requires '[' !in a.hash && '[' !in b.hash
    ensures Label(a) == Label(b) <==> a.shortName == b.shortName && a.hash == b.hash
  {
    if Label(a) == Label(b) { BracketsUnique(a.shortName, a.hash, b.shortName, b.hash); }
  }

  lemma BracketsUnique(name: string, hash: string, name': string, hash': string)
    requires '[' !in hash && '[' !in hash' && name + " [" + hash + "]" == name' + " [" + hash' + "]"
    ensures name == name' && hash == hash'
  {
    var s := name + " [" + hash + "]";
    assert s[|name|+1] == '[' && s[|name'|+1] == '[';
    assert forall i :: |name| + 1 < i < |s| ==> s[i] != '[';
    assert forall i :: |name'| + 1 < i < |s| ==> s[i] != '[';
    assert name == s[..|name|] && name' == s[..|name'|];
    assert hash == s[|name|+2..|s|-1] && hash' == s[|name'|+2..|s|-1];
  }
}
