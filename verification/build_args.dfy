// The Dockerfile around the hashing of an image: build arguments are written into it before and taken out after.
module BuildArgs {
  import opened Wrappers
  import opened Rewriting
  import opened BuildNode
  import opened LineEdits
  import opened Dockerfiles
  import FromLines

  function ArgLine(key: string, val: string): string { "ARG " + key + "=" + val }

  // ---- Which lines are replaced, and by what

  function DiffOver(args: Args, buildArgs: map<string, string>, keys: set<string>): map<string, string> {
    map key | key in keys && key in args && key in buildArgs :: args[key] := ArgLine(key, buildArgs[key])
  }

  // The declaration of every argument that is both declared and given, with the line that overrides it.
  function Diff(args: Args, buildArgs: map<string, string>): map<string, string> {
    DiffOver(args, buildArgs, buildArgs.Keys)
  }

  method ArgsToReplace(args: Args, buildArgs: map<string, string>) returns (diff: map<string, string>)
    ensures diff == Diff(args, buildArgs)
  {
    var rest := buildArgs.Keys;
    diff := map[];
    while rest != {}
      invariant rest <= buildArgs.Keys && diff == DiffOver(args, buildArgs, buildArgs.Keys - rest)
    {
      var key :| key in rest;
      if key in args {
        MoreKeys(args, buildArgs, buildArgs.Keys - rest, key);
        diff := diff[args[key] := ArgLine(key, buildArgs[key])];
      }
      assert buildArgs.Keys - (rest - {key}) == buildArgs.Keys - rest + {key};
      rest := rest - {key};
    }
    assert buildArgs.Keys - {} == buildArgs.Keys;
  }

  lemma MoreKeys(args: Args, buildArgs: map<string, string>, keys: set<string>, key: string)
    requires key in args && key in buildArgs
    ensures DiffOver(args, buildArgs, keys + {key})
         == DiffOver(args, buildArgs, keys)[args[key] := ArgLine(key, buildArgs[key])]
  {
    var more, diff := DiffOver(args, buildArgs, keys + {key}), DiffOver(args, buildArgs, keys);
    forall u | u in more
      ensures u in diff || u == args[key]
      ensures more[u] == if u == args[key] then ArgLine(key, buildArgs[key]) else diff[u]
    {
      var k :| k in keys + {key} && k in args && k in buildArgs && args[k] == u;
      assert ArgName(args[k]) == Some(k) && ArgName(args[key]) == Some(key);
      if k != key { assert k in keys && args[k] in diff; }
    }
    forall u | u in diff ensures u in more {
      var k :| k in keys && k in args && k in buildArgs && args[k] == u;
    }
    assert key in keys + {key} && args[key] in more;
  }

  // ---- The text with every overridden line replaced

  // A line keeps its carriage return.
  function OverrideLine(line: string, diff: map<string, string>): string {
    var t := FromLines.TrimCR(line);
    if t in diff then diff[t] + line[|t|..] else line
  }

  function OverrideLines(lines: seq<string>, diff: map<string, string>): seq<string> {
    seq(|lines|, i requires 0 <= i < |lines| => OverrideLine(lines[i], diff))
  }

  function Overridden(text: string, diff: map<string, string>): string { Join(OverrideLines(Split(text), diff)) }

  // No other declaration is part of this line, neither as it is nor as it becomes.
  ghost predicate LineSafe(line: string, diff: map<string, string>) {
    forall u :: u in diff && u != diff[u] && u != FromLines.TrimCR(line) ==>
      !Contains(line, u) && !Contains(OverrideLine(line, diff), u)
  }

  // The same for the overriding lines of other declarations.
  ghost predicate LineRestores(line: string, diff: map<string, string>) {
    forall u :: u in diff && u != diff[u] && u != FromLines.TrimCR(line) ==>
      !Contains(line, diff[u]) && !Contains(OverrideLine(line, diff), diff[u])
  }

  ghost predicate OverrideSafe(text: string, diff: map<string, string>) {
    forall i :: 0 <= i < |Split(text)| ==> LineSafe(Split(text)[i], diff)
  }

  ghost predicate RestoreSafe(text: string, diff: map<string, string>) {
    forall i :: 0 <= i < |Split(text)| ==> LineRestores(Split(text)[i], diff)
  }

  predicate LineWord(u: string) { u != "" && u != "\r" && OneLine(u) }

  ghost predicate LineKeys(diff: map<string, string>) { forall u :: u in diff ==> LineWord(u) }

  ghost predicate LineValues(diff: map<string, string>) { forall u :: u in diff ==> LineWord(diff[u]) }

  lemma DiffEntry(args: Args, buildArgs: map<string, string>, u: string) returns (key: string)
    requires u in Diff(args, buildArgs)
    ensures key in args && key in buildArgs && args[key] == u
    ensures Diff(args, buildArgs)[u] == ArgLine(key, buildArgs[key])
  {
    key :| key in args && key in buildArgs && args[key] == u;
  }

  lemma DiffKeys(args: Args, buildArgs: map<string, string>)
    ensures LineKeys(Diff(args, buildArgs))
  {
    forall u | u in Diff(args, buildArgs) ensures LineWord(u) {
      var key := DiffEntry(args, buildArgs, u);
      assert u[0] == 'A';
    }
  }

  lemma NameOneLine(line: string, key: string)
    requires ArgName(line) == Some(key)
    ensures OneLine(key)
  {
    assert FromLines.All(key, WordChar);
  }

  // The overriding lines are single lines unless a value has a newline.
  lemma DiffValues(args: Args, buildArgs: map<string, string>)
    requires forall key :: key in args && key in buildArgs ==> OneLine(buildArgs[key])
    ensures LineValues(Diff(args, buildArgs))
  {
    forall u | u in Diff(args, buildArgs) ensures LineWord(Diff(args, buildArgs)[u]) {
      var key := DiffEntry(args, buildArgs, u);
      NameOneLine(args[key], key);
      assert ArgLine(key, buildArgs[key])[0] == 'A' && OneLine("ARG ") && OneLine("=");
    }
  }

  // ---- The walks of the map, line by line

  function Find(pairs: seq<Pair>, t: string): (i: nat)
    ensures i <= |pairs| && (i < |pairs| ==> pairs[i].key == t) && forall j :: 0 <= j < i ==> pairs[j].key != t
  {
    if pairs == [] then 0 else if pairs[0].key == t then 0 else 1 + Find(pairs[1..], t)
  }

  function RowOf(line: string, pairs: seq<Pair>, diff: map<string, string>): Row {
    Row(line, OverrideLine(line, diff), Find(pairs, FromLines.TrimCR(line)))
  }

  function RowsOf(text: string, pairs: seq<Pair>, diff: map<string, string>): seq<Row> {
    seq(|Split(text)|, i requires 0 <= i < |Split(text)| => RowOf(Split(text)[i], pairs, diff))
  }

  // The overrides of the pairs walked.
  function Walked(pairs: seq<Pair>, diff: map<string, string>, order: seq<nat>): map<string, string> {
    map u | u in diff && Find(pairs, u) in order :: diff[u]
  }

  lemma Finds(pairs: seq<Pair>, diff: map<string, string>, t: string)
    requires Lists(pairs, diff)
    ensures Find(pairs, t) < |pairs| <==> t in diff
    ensures t in diff ==> pairs[Find(pairs, t)] == Pair(t, diff[t])
    ensures forall k :: 0 <= k < |pairs| ==> (k == Find(pairs, t) <==> pairs[k].key == t)
  {
    if t in diff { var k :| 0 <= k < |pairs| && pairs[k].key == t; }
  }

  lemma ReplaceHead(u: string, end: string, x: string)
    requires LineWord(u) && (end == "" || end == "\r")
    ensures ReplaceAll(u + end, u, x) == x + end
  {
    ReplaceHits(end, u, x);
    if |end| >= |u| { assert u <= end ==> u == end; }
    assert ReplaceAll(end, u, x) == end by {
      if end == "\r" && |u| == 1 { ReplaceStep(end, u, x); }
    }
  }

  lemma TrimmedEnd(line: string)
    ensures var t := FromLines.TrimCR(line); line == t + line[|t|..] && (line[|t|..] == "" || line[|t|..] == "\r")
  {}

  lemma RowProper(line: string, pairs: seq<Pair>, diff: map<string, string>)
    requires Lists(pairs, diff) && LineKeys(diff)
    ensures ProperRow(RowOf(line, pairs, diff), pairs)
    ensures Untouched(RowOf(line, pairs, diff), pairs) <==> LineSafe(line, diff)
  {
    var t := FromLines.TrimCR(line);
    Finds(pairs, diff, t);
    TrimmedEnd(line);
    if t in diff { ReplaceHead(t, line[|t|..], diff[t]); }
    RowSafe(line, pairs, diff);
  }

  lemma RowSafe(line: string, pairs: seq<Pair>, diff: map<string, string>)
    requires Lists(pairs, diff)
    ensures Untouched(RowOf(line, pairs, diff), pairs) <==> LineSafe(line, diff)
  {
    var r := RowOf(line, pairs, diff);
    Finds(pairs, diff, FromLines.TrimCR(line));
    if LineSafe(line, diff) {
      forall k | 0 <= k < |pairs| && k != r.owner && pairs[k].key != pairs[k].val
        ensures !Contains(r.before, pairs[k].key) && !Contains(r.after, pairs[k].key)
      {
        assert pairs[k].key in diff;
      }
    }
    if Untouched(r, pairs) {
      forall u | u in diff && u != diff[u] && u != FromLines.TrimCR(line)
        ensures !Contains(line, u) && !Contains(OverrideLine(line, diff), u)
      {
        Finds(pairs, diff, u);
        assert pairs[Find(pairs, u)].key == u;
      }
    }
  }

  lemma RowShown(line: string, pairs: seq<Pair>, diff: map<string, string>, order: seq<nat>)
    requires Lists(pairs, diff) && DistinctBelow(order, |pairs|)
    ensures ShownBy(RowOf(line, pairs, diff), order) == OverrideLine(line, Walked(pairs, diff, order))
  {
    Finds(pairs, diff, FromLines.TrimCR(line));
  }

  lemma RowsShown(text: string, pairs: seq<Pair>, diff: map<string, string>, order: seq<nat>)
    requires Lists(pairs, diff) && DistinctBelow(order, |pairs|)
    ensures Join(Shown(RowsOf(text, pairs, diff), order)) == Overridden(text, Walked(pairs, diff, order))
    ensures Join(Shown(RowsOf(text, pairs, diff), [])) == text
  {
    var rows := RowsOf(text, pairs, diff);
    forall i | 0 <= i < |rows|
      ensures Shown(rows, order)[i] == OverrideLines(Split(text), Walked(pairs, diff, order))[i]
    {
      RowShown(Split(text)[i], pairs, diff, order);
    }
    assert Shown(rows, order) == OverrideLines(Split(text), Walked(pairs, diff, order));
    assert Shown(rows, []) == Split(text);
    SplitJoins(text);
  }

  // Whatever part of the overrides is walked, in whatever order, exactly the lines declaring them are replaced.
  ghost predicate OverridesLines(text: string, pairs: seq<Pair>, diff: map<string, string>) {
    forall order :: DistinctBelow(order, |pairs|) ==>
      ReplacePairs(text, pairs, order) == Overridden(text, Walked(pairs, diff, order))
  }

  // That is so iff no declaration is part of a line that does not consist of it, before or after its own override.
  lemma OverrideIff(text: string, pairs: seq<Pair>, diff: map<string, string>)
    requires Lists(pairs, diff) && LineKeys(diff)
    ensures OverridesLines(text, pairs, diff) <==> OverrideSafe(text, diff)
  {
    var rows := RowsOf(text, pairs, diff);
    forall i | 0 <= i < |rows|
      ensures ProperRow(rows[i], pairs) && (Untouched(rows[i], pairs) <==> LineSafe(Split(text)[i], diff))
    {
      RowProper(Split(text)[i], pairs, diff);
    }
    EditsRowsIff(rows, pairs);
    assert OverrideSafe(text, diff) <==> forall i :: 0 <= i < |rows| ==> Untouched(rows[i], pairs);
    SameEdits(text, pairs, diff);
  }

  lemma SameEdits(text: string, pairs: seq<Pair>, diff: map<string, string>)
    requires Lists(pairs, diff)
    ensures OverridesLines(text, pairs, diff) <==> EditsRows(RowsOf(text, pairs, diff), pairs)
  {
    var rows := RowsOf(text, pairs, diff);
    forall order | DistinctBelow(order, |pairs|)
      ensures Join(Shown(rows, order)) == Overridden(text, Walked(pairs, diff, order)) && Join(Shown(rows, [])) == text
    {
      RowsShown(text, pairs, diff, order);
    }
  }

  // ---- The walks of the reset

  function Swapped(pairs: seq<Pair>): seq<Pair> {
    seq(|pairs|, i requires 0 <= i < |pairs| => Pair(pairs[i].val, pairs[i].key))
  }

  lemma {:induction false} ResetIsReplace(s: string, pairs: seq<Pair>, order: seq<nat>)
    requires forall i :: 0 <= i < |order| ==> order[i] < |pairs|
    ensures ResetPairs(s, pairs, order) == ReplacePairs(s, Swapped(pairs), order)
    decreases |order|
  {
    if order != [] { ResetIsReplace(ReplaceAll(s, pairs[order[0]].val, pairs[order[0]].key), pairs, order[1..]); }
  }

  function RowBack(line: string, pairs: seq<Pair>, diff: map<string, string>): Row {
    Row(OverrideLine(line, diff), line, Find(pairs, FromLines.TrimCR(line)))
  }

  function RowsBack(text: string, pairs: seq<Pair>, diff: map<string, string>): seq<Row> {
    seq(|Split(text)|, i requires 0 <= i < |Split(text)| => RowBack(Split(text)[i], pairs, diff))
  }

  // The overrides of the pairs not yet reset.
  function Unwalked(pairs: seq<Pair>, diff: map<string, string>, order: seq<nat>): map<string, string> {
    map u | u in diff && Find(pairs, u) !in order :: diff[u]
  }

  lemma RowBackProper(line: string, pairs: seq<Pair>, diff: map<string, string>)
    requires Lists(pairs, diff) && LineValues(diff)
    ensures ProperRow(RowBack(line, pairs, diff), Swapped(pairs))
  {
    var t := FromLines.TrimCR(line);
    Finds(pairs, diff, t);
    TrimmedEnd(line);
    if t in diff { ReplaceHead(diff[t], line[|t|..], t); }
  }

  lemma RowBackSafe(line: string, pairs: seq<Pair>, diff: map<string, string>)
    requires Lists(pairs, diff)
    ensures Untouched(RowBack(line, pairs, diff), Swapped(pairs)) <==> LineRestores(line, diff)
  {
    var r, back := RowBack(line, pairs, diff), Swapped(pairs);
    Finds(pairs, diff, FromLines.TrimCR(line));
    if LineRestores(line, diff) {
      forall k | 0 <= k < |back| && k != r.owner && back[k].key != back[k].val
        ensures !Contains(r.before, back[k].key) && !Contains(r.after, back[k].key)
      {
        assert pairs[k].key in diff;
      }
    }
    if Untouched(r, back) {
      forall u | u in diff && u != diff[u] && u != FromLines.TrimCR(line)
        ensures !Contains(line, diff[u]) && !Contains(OverrideLine(line, diff), diff[u])
      {
        Finds(pairs, diff, u);
        assert back[Find(pairs, u)] == Pair(diff[u], u);
      }
    }
  }

  lemma RowsBackShown(text: string, pairs: seq<Pair>, diff: map<string, string>, order: seq<nat>)
    requires Lists(pairs, diff) && DistinctBelow(order, |pairs|)
    ensures Join(Shown(RowsBack(text, pairs, diff), order)) == Overridden(text, Unwalked(pairs, diff, order))
    ensures Join(Shown(RowsBack(text, pairs, diff), [])) == Overridden(text, diff)
  {
    var rows := RowsBack(text, pairs, diff);
    forall i | 0 <= i < |rows|
      ensures Shown(rows, order)[i] == OverrideLines(Split(text), Unwalked(pairs, diff, order))[i]
    {
      Finds(pairs, diff, FromLines.TrimCR(Split(text)[i]));
    }
    assert Shown(rows, order) == OverrideLines(Split(text), Unwalked(pairs, diff, order));
    assert Shown(rows, []) == OverrideLines(Split(text), diff);
  }

  // Whatever part of the overrides is reset, in whatever order, exactly the lines declaring them come back.
  ghost predicate RestoresLines(text: string, pairs: seq<Pair>, diff: map<string, string>) {
    forall order :: DistinctBelow(order, |pairs|) ==>
      ResetPairs(Overridden(text, diff), pairs, order) == Overridden(text, Unwalked(pairs, diff, order))
  }

  // That is so iff no overriding line is part of a line that does not consist of it, overridden or not.
  lemma RestoreIff(text: string, pairs: seq<Pair>, diff: map<string, string>)
    requires Lists(pairs, diff) && LineValues(diff)
    ensures RestoresLines(text, pairs, diff) <==> RestoreSafe(text, diff)
  {
    var rows, back := RowsBack(text, pairs, diff), Swapped(pairs);
    forall i | 0 <= i < |rows|
      ensures ProperRow(rows[i], back) && (Untouched(rows[i], back) <==> LineRestores(Split(text)[i], diff))
    {
      RowBackProper(Split(text)[i], pairs, diff);
      RowBackSafe(Split(text)[i], pairs, diff);
    }
    forall k | 0 <= k < |back| ensures back[k].key != "" && OneLine(back[k].key) { assert pairs[k].key in diff; }
    EditsRowsIff(rows, back);
    assert RestoreSafe(text, diff) <==> forall i :: 0 <= i < |rows| ==> Untouched(rows[i], back);
    SameRestores(text, pairs, diff);
  }

  lemma SameRestores(text: string, pairs: seq<Pair>, diff: map<string, string>)
    requires Lists(pairs, diff)
    ensures RestoresLines(text, pairs, diff) <==> EditsRows(RowsBack(text, pairs, diff), Swapped(pairs))
  {
    forall order | DistinctBelow(order, |pairs|)
      ensures Join(Shown(RowsBack(text, pairs, diff), order)) == Overridden(text, Unwalked(pairs, diff, order))
      ensures Join(Shown(RowsBack(text, pairs, diff), [])) == Overridden(text, diff)
      ensures ResetPairs(Overridden(text, diff), pairs, order)
           == ReplacePairs(Overridden(text, diff), Swapped(pairs), order)
    {
      RowsBackShown(text, pairs, diff, order);
      ResetIsReplace(Overridden(text, diff), pairs, order);
    }
  }

  // Both together: all orders give the overridden text, and all orders of the reset the original.
  lemma BracketRestores(text: string, pairs: seq<Pair>, diff: map<string, string>, order: seq<nat>, order': seq<nat>)
    requires Lists(pairs, diff) && LineKeys(diff) && IsOrder(order, |pairs|) && IsOrder(order', |pairs|)
    requires OverrideSafe(text, diff)
    ensures ReplacePairs(text, pairs, order) == Overridden(text, diff)
    ensures LineValues(diff) && RestoreSafe(text, diff) ==>
      ResetPairs(ReplacePairs(text, pairs, order), pairs, order') == text
  {
    OverrideIff(text, pairs, diff);
    AllWalked(pairs, diff, order);
    AllWalked(pairs, diff, order');
    if LineValues(diff) && RestoreSafe(text, diff) {
      RestoreIff(text, pairs, diff);
      NothingOverridden(text);
      assert Unwalked(pairs, diff, order') == map[];
    }
  }

  lemma AllWalked(pairs: seq<Pair>, diff: map<string, string>, order: seq<nat>)
    requires Lists(pairs, diff) && IsOrder(order, |pairs|)
    ensures DistinctBelow(order, |pairs|)
    ensures Walked(pairs, diff, order) == diff && Unwalked(pairs, diff, order) == map[]
  {
    forall u | u in diff ensures Find(pairs, u) in order { Finds(pairs, diff, u); }
  }

  lemma NothingOverridden(text: string)
    ensures Overridden(text, map[]) == text
  {
    assert OverrideLines(Split(text), map[]) == Split(text);
    SplitJoins(text);
  }

  // ---- computeNodeHash

  // hash stands for hashFiles, which reads the Dockerfile among the files of the context.
  // A failed replacement returns before the restoring is arranged.
  method HashReplaced(f: File, diff: map<string, string>, hash: string -> Option<string>, ghost pairs: seq<Pair>)
    returns (r: Option<string>, replaced: bool, ghost order: seq<nat>, ghost order': seq<nat>)
    requires Lists(pairs, diff)
    modifies f
    ensures Bracket(f.works, old(f.ops), old(f.text), f.text, pairs, replaced, order, order')
    ensures r == if replaced then hash(ReplacePairs(old(f.text), pairs, order)) else None
  {
    replaced, order := ReplaceInFile(f, diff, pairs);
    r, order' := None, [];
    if !replaced { return; }
    r := hash(f.text);
    var ok;
    ok, order' := ResetFile(f, diff, pairs);
  }

  // Under every order of the map: the hash is that of the text with the lines overridden, and the file is left as it
  // was found.
  method ComputeNodeHash(f: File, args: Args, buildArgs: map<string, string>, hash: string -> Option<string>)
    returns (r: Option<string>, replaced: bool, ghost pairs: seq<Pair>, ghost order: seq<nat>, ghost order': seq<nat>)
    modifies f
    ensures Lists(pairs, Diff(args, buildArgs))
    ensures Bracket(f.works, old(f.ops), old(f.text), f.text, pairs, replaced, order, order')
    ensures r == if replaced then hash(ReplacePairs(old(f.text), pairs, order)) else None
    ensures replaced && OverrideSafe(old(f.text), Diff(args, buildArgs)) ==>
      r == hash(Overridden(old(f.text), Diff(args, buildArgs)))
    ensures WorksFrom(f.works, old(f.ops), 4 * |pairs|) && Restorable(old(f.text), Diff(args, buildArgs)) ==>
      replaced && f.text == old(f.text)
  {
    var diff := ArgsToReplace(args, buildArgs);
    pairs := Listed(diff);
    ghost var at, text := f.ops, f.text;
    r, replaced, order, order' := HashReplaced(f, diff, hash, pairs);
    BracketOutcome(f.works, at, text, f.text, pairs, replaced, order, order', args, buildArgs);
  }

  // The overrides touch their own lines only, and so does taking them back.
  ghost predicate Restorable(text: string, diff: map<string, string>) {
    OverrideSafe(text, diff) && LineValues(diff) && RestoreSafe(text, diff)
  }

  // For values without newline, whether a text is restored is decided by the two conditions on its lines.
  lemma RestorableIff(text: string, args: Args, buildArgs: map<string, string>)
    requires forall key :: key in args && key in buildArgs ==> OneLine(buildArgs[key])
    ensures Restorable(text, Diff(args, buildArgs)) <==>
      OverrideSafe(text, Diff(args, buildArgs)) && RestoreSafe(text, Diff(args, buildArgs))
  {
    DiffValues(args, buildArgs);
  }

  lemma BracketOutcome(works: nat -> bool, at: nat, text: string, after: string, pairs: seq<Pair>, replaced: bool,
                       order: seq<nat>, order': seq<nat>, args: Args, buildArgs: map<string, string>)
    requires Lists(pairs, Diff(args, buildArgs)) && Bracket(works, at, text, after, pairs, replaced, order, order')
    ensures replaced && OverrideSafe(text, Diff(args, buildArgs)) ==>
      ReplacePairs(text, pairs, order) == Overridden(text, Diff(args, buildArgs))
    ensures WorksFrom(works, at, 4 * |pairs|) && Restorable(text, Diff(args, buildArgs)) ==> replaced && after == text
  {
    var diff := Diff(args, buildArgs);
    DiffKeys(args, buildArgs);
    if replaced && OverrideSafe(text, diff) { BracketRestores(text, pairs, diff, order, order); }
    if WorksFrom(works, at, 4 * |pairs|) && Restorable(text, diff) {
      BracketWorks(works, at, text, after, pairs, replaced, order, order');
      BracketRestores(text, pairs, diff, order, order');
    }
  }

  // ---- Where it goes wrong

  lemma Mismatch(s: string, u: string, x: string)
    requires 5 < |s| <= |u| + 3 && 5 < |u| && s[..5] == "ARG A" && u[0] == 'A' && s[5] != u[5]
    ensures ReplaceAll(s, u, x) == s
  {
    forall i: nat ensures !StartsAt(s, u, i) {
      if i + |u| <= |s| {
        assert s[i..i+|u|][0] == s[..5][i] && s[i..i+|u|][5] == s[i+5];
      }
    }
    ReplaceAbsent(s, u, x);
  }

  lemma Hit(u: string, rest: string, x: string)
    requires |rest| < |u|
    ensures ReplaceAll(u + rest, u, x) == x + rest
  {
    ReplaceHits(rest, u, x);
  }

  // What becomes of the two lines, with the one pair first and with the other.
  lemma LinesDiffer()
    ensures ReplaceAll("ARG A", "ARG A", "ARG A=1") == "ARG A=1"
    ensures ReplaceAll("ARG AB", "ARG A", "ARG A=1") == "ARG A=1B"
    ensures ReplaceAll("ARG A=1", "ARG AB", "ARG AB=2") == "ARG A=1"
    ensures ReplaceAll("ARG A=1B", "ARG AB", "ARG AB=2") == "ARG A=1B"
    ensures ReplaceAll("ARG A", "ARG AB", "ARG AB=2") == "ARG A"
    ensures ReplaceAll("ARG AB", "ARG AB", "ARG AB=2") == "ARG AB=2"
    ensures ReplaceAll("ARG AB=2", "ARG A", "ARG A=1") == "ARG A=1B=2"
  {
    Hit("ARG A", "", "ARG A=1");
    Hit("ARG A", "B", "ARG A=1");
    Hit("ARG AB", "", "ARG AB=2");
    Hit("ARG A", "B=2", "ARG A=1");
    assert "ARG A" + "B" == "ARG AB" && "ARG A" + "B=2" == "ARG AB=2" && "ARG A" + "" == "ARG A";
    assert "ARG AB" + "" == "ARG AB";
    assert "ARG A=1" + "B" == "ARG A=1B" && "ARG A=1" + "B=2" == "ARG A=1B=2";
    Mismatch("ARG A=1", "ARG AB", "ARG AB=2");
    Mismatch("ARG A=1B", "ARG AB", "ARG AB=2");
  }

  lemma LinesStay()
    ensures ReplaceAll("ARG A=1", "ARG AB=2", "ARG AB") == "ARG A=1"
    ensures ReplaceAll("ARG A=1B=2", "ARG AB=2", "ARG AB") == "ARG A=1B=2"
    ensures ReplaceAll("ARG A=1", "ARG A=1", "ARG A") == "ARG A"
    ensures ReplaceAll("ARG A=1B=2", "ARG A=1", "ARG A") == "ARG AB=2"
  {
    Mismatch("ARG A=1B=2", "ARG AB=2", "ARG AB");
    Hit("ARG A=1", "", "ARG A");
    Hit("ARG A=1", "B=2", "ARG A");
    assert "ARG A=1" + "" == "ARG A=1" && "ARG A=1" + "B=2" == "ARG A=1B=2" && "ARG A" + "B=2" == "ARG AB=2";
    assert "ARG A" + "" == "ARG A";
  }

  lemma TwoLines(a: string, b: string, u: string, x: string)
    requires u != "" && OneLine(u)
    ensures ReplaceAll(a + "\n" + b, u, x) == ReplaceAll(a, u, x) + "\n" + ReplaceAll(b, u, x)
  {
    ReplaceAcross(a, b, u, x);
  }

  lemma Declares(key: string)
    requires ValidName(key)
    ensures ArgName("ARG " + key) == Some(key)
  {
    assert FromLines.All(" ", FromLines.Space);
    ArgNameBack(" ", key, "");
    assert "ARG" + (" " + (key + "")) == "ARG " + key;
  }

  // The overriding line declares the same argument.
  lemma ArgLineDeclares(key: string, val: string)
    requires ValidName(key)
    ensures ArgName(ArgLine(key, val)) == Some(key)
  {
    assert FromLines.All(" ", FromLines.Space);
    ArgNameBack(" ", key, "=" + val);
    assert "ARG" + (" " + (key + ("=" + val))) == ArgLine(key, val);
  }

  lemma DiffHas(args: Args, buildArgs: map<string, string>, key: string)
    requires key in args && key in buildArgs
    ensures args[key] in Diff(args, buildArgs) && Diff(args, buildArgs)[args[key]] == ArgLine(key, buildArgs[key])
  {
    var diff := Diff(args, buildArgs);
    assert key in buildArgs.Keys && args[key] in diff;
  }

  lemma ListsTwo(p: Pair, q: Pair, diff: map<string, string>)
    requires p.key != q.key && p.key in diff && q.key in diff && diff[p.key] == p.val && diff[q.key] == q.val
    requires forall u :: u in diff ==> u == p.key || u == q.key
    ensures Lists([p, q], diff)
  {
    assert [p, q][0].key == p.key && [p, q][1].key == q.key;
  }

  lemma TwoOverrides(args: Args, buildArgs: map<string, string>, k: string, k': string, p: Pair, q: Pair)
    requires k in args && k in buildArgs && k' in args && k' in buildArgs && k != k' && forall key :: key in args ==>
      key == k || key == k'
    requires p == Pair(args[k], ArgLine(k, buildArgs[k])) && q == Pair(args[k'], ArgLine(k', buildArgs[k']))
    ensures Lists([p, q], Diff(args, buildArgs))
  {
    DiffHas(args, buildArgs, k);
    DiffHas(args, buildArgs, k');
    assert ArgName(p.key) != ArgName(q.key);
    forall u | u in Diff(args, buildArgs) ensures u == p.key || u == q.key {
      var key :| key in args && args[key] == u;
    }
    ListsTwo(p, q, Diff(args, buildArgs));
  }

  lemma Orders(text: string, p: Pair, q: Pair)
    ensures ReplacePairs(text, [p, q], [0, 1]) == ReplaceAll(ReplaceAll(text, p.key, p.val), q.key, q.val)
    ensures ReplacePairs(text, [p, q], [1, 0]) == ReplaceAll(ReplaceAll(text, q.key, q.val), p.key, p.val)
    ensures ResetPairs(text, [p, q], [1, 0]) == ReplaceAll(ReplaceAll(text, q.val, q.key), p.val, p.key)
  {
    assert [0, 1][1..] == [1] && [1, 0][1..] == [0] && [1][1..] == [] && [0][1..] == [];
  }

  lemma TwoLinesOrders(a: string, b: string, p: Pair, q: Pair)
    requires p.key != "" && OneLine(p.key) && q.key != "" && OneLine(q.key) && p.val != "" && OneLine(p.val)
    requires q.val != "" && OneLine(q.val)
    ensures ReplacePairs(a + "\n" + b, [p, q], [0, 1]) ==
      ReplaceAll(ReplaceAll(a, p.key, p.val), q.key, q.val) + "\n"
      + ReplaceAll(ReplaceAll(b, p.key, p.val), q.key, q.val)
    ensures ReplacePairs(a + "\n" + b, [p, q], [1, 0]) ==
      ReplaceAll(ReplaceAll(a, q.key, q.val), p.key, p.val) + "\n"
      + ReplaceAll(ReplaceAll(b, q.key, q.val), p.key, p.val)
    ensures ResetPairs(a + "\n" + b, [p, q], [1, 0]) ==
      ReplaceAll(ReplaceAll(a, q.val, q.key), p.val, p.key) + "\n"
      + ReplaceAll(ReplaceAll(b, q.val, q.key), p.val, p.key)
  {
    Orders(a + "\n" + b, p, q);
    TwoLines(a, b, p.key, p.val);
    TwoLines(ReplaceAll(a, p.key, p.val), ReplaceAll(b, p.key, p.val), q.key, q.val);
    TwoLines(a, b, q.key, q.val);
    TwoLines(ReplaceAll(a, q.key, q.val), ReplaceAll(b, q.key, q.val), p.key, p.val);
    TwoLines(a, b, q.val, q.key);
    TwoLines(ReplaceAll(a, q.val, q.key), ReplaceAll(b, q.val, q.key), p.val, p.key);
  }

  lemma WordsAreLines()
    ensures OneLine("ARG A") && OneLine("ARG AB") && OneLine("ARG A=1") && OneLine("ARG AB=2")
  {}

  lemma OrdersDiffer(p: Pair, q: Pair)
    requires p == Pair("ARG A", "ARG A=1") && q == Pair("ARG AB", "ARG AB=2")
    ensures ReplacePairs("ARG A" + "\n" + "ARG AB", [p, q], [0, 1]) == "ARG A=1" + "\n" + "ARG A=1B"
    ensures ReplacePairs("ARG A" + "\n" + "ARG AB", [p, q], [1, 0]) == "ARG A=1" + "\n" + "ARG A=1B=2"
  {
    WordsAreLines();
    TwoLinesOrders("ARG A", "ARG AB", p, q);
    LinesDiffer();
  }

  lemma NotRestored(p: Pair, q: Pair)
    requires p == Pair("ARG A", "ARG A=1") && q == Pair("ARG AB", "ARG AB=2")
    ensures ResetPairs("ARG A=1" + "\n" + "ARG A=1B=2", [p, q], [1, 0]) == "ARG A" + "\n" + "ARG AB=2"
  {
    WordsAreLines();
    TwoLinesOrders("ARG A=1", "ARG A=1B=2", p, q);
    LinesStay();
  }

  predicate DeclaresTwo(args: map<string, string>, buildArgs: map<string, string>) {
    && args.Keys == buildArgs.Keys == {"A", "AB"}
    && args["A"] == "ARG A" && args["AB"] == "ARG AB" && buildArgs["A"] == "1" && buildArgs["AB"] == "2"
  }

  lemma ArgTexts()
    ensures ArgLine("A", "1") == "ARG A=1" && ArgLine("AB", "2") == "ARG AB=2"
  {}

  lemma TwoPairs(args: Args, buildArgs: map<string, string>) returns (p: Pair, q: Pair)
    requires DeclaresTwo(args, buildArgs)
    ensures p == Pair("ARG A", "ARG A=1") && q == Pair("ARG AB", "ARG AB=2") && ListsDiff([p, q], args, buildArgs)
  {
    p, q := Pair(args["A"], ArgLine("A", buildArgs["A"])), Pair(args["AB"], ArgLine("AB", buildArgs["AB"]));
    ArgTexts();
    assert |"A"| != |"AB"|;
    TwoOverrides(args, buildArgs, "A", "AB", p, q);
  }

  ghost predicate ListsDiff(pairs: seq<Pair>, args: Args, buildArgs: map<string, string>) {
    Lists(pairs, Diff(args, buildArgs))
  }

  // The two orders hash different texts, and the reset after the second does not restore the text.
  ghost predicate OrderDecides(text: string, pairs: seq<Pair>) {
    && |pairs| == 2
    && ReplacePairs(text, pairs, [0, 1]) == "ARG A=1" + "\n" + "ARG A=1B"
    && ReplacePairs(text, pairs, [1, 0]) == "ARG A=1" + "\n" + "ARG A=1B=2"
    && ResetPairs("ARG A=1" + "\n" + "ARG A=1B=2", pairs, [1, 0]) == "ARG A" + "\n" + "ARG AB=2"
  }

  lemma PairsDecide(p: Pair, q: Pair)
    requires p == Pair("ARG A", "ARG A=1") && q == Pair("ARG AB", "ARG AB=2")
    ensures OrderDecides("ARG A" + "\n" + "ARG AB", [p, q])
  {
    OrdersDiffer(p, q);
    NotRestored(p, q);
  }

  // One declaration begins another: the order decides what is hashed, and the Dockerfile is not restored.
  lemma OrderMatters(args: Args, buildArgs: map<string, string>)
    requires DeclaresTwo(args, buildArgs)
    ensures exists pairs :: ListsDiff(pairs, args, buildArgs) && OrderDecides("ARG A" + "\n" + "ARG AB", pairs)
  {
    var p, q := TwoPairs(args, buildArgs);
    PairsDecide(p, q);
  }

  // OrderMatters is not empty: such arguments can be declared.
  lemma TwoDeclared()
    ensures Declared(map["A" := "ARG " + "A", "AB" := "ARG " + "AB"])
  {
    assert FromLines.All("A", WordChar) && FromLines.All("AB", WordChar);
    Declares("A");
    Declares("AB");
    assert OneLine("ARG " + "A") && OneLine("ARG " + "AB");
  }
}
