// ParseDockerfile: FROM, LABEL and ARG lines.
module Dockerfiles {
  import opened Wrappers
  import opened FromLines

  // ---- ARG lines

  predicate NameStart(c: char) { 'a' <= c <= 'z' || 'A' <= c <= 'Z' || c == '_' }

  predicate WordChar(c: char) { NameStart(c) || '0' <= c <= '9' }

  // The name that rxArg captures; what may follow it never decides whether a line matches.
  function ArgName(line: string): Option<string> {
    if !("ARG" <= line) then None
    else
      var (spaces, rest) := Span(line[3..], Space);
      if spaces == "" || rest == "" || !NameStart(rest[0]) then None else Some(Span(rest, WordChar).0)
  }

  predicate ValidName(key: string) { key != "" && NameStart(key[0]) && All(key, WordChar) }

  // The map kept of a Dockerfile's arguments: the whole line for each name.
  ghost predicate Declared(args: map<string, string>) {
    forall key :: key in args ==> ArgName(args[key]) == Some(key) && '\n' !in args[key]
  }

  type Args = args: map<string, string> | Declared(args) ghost witness map[]

  lemma ArgNameBack(spaces: string, key: string, rest: string)
    requires ValidSpaces(spaces) && ValidName(key) && (rest == "" || !WordChar(rest[0]))
    ensures ArgName("ARG" + (spaces + (key + rest))) == Some(key)
  {
    var line := "ARG" + (spaces + (key + rest));
    assert line[3..] == spaces + (key + rest) && (key + rest)[0] == key[0];
    SpanOf(spaces, key + rest, Space);
    SpanOf(key, rest, WordChar);
  }

  ghost predicate ArgShape(line: string, spaces: string, key: string, rest: string) {
    && line == "ARG" + (spaces + (key + rest))
    && ValidSpaces(spaces) && ValidName(key) && (rest == "" || !WordChar(rest[0]))
  }

  // Which lines are ARG lines, and of which argument.
  lemma ArgNameIff(line: string, key: string)
    ensures ArgName(line) == Some(key) <==> exists spaces, rest :: ArgShape(line, spaces, key, rest)
  {
    if ArgName(line) == Some(key) {
      var split := Span(line[3..], Space);
      var word := Span(split.1, WordChar);
      assert line == "ARG" + line[3..];
      assert ArgShape(line, split.0, key, word.1);
    }
    if spaces, rest :| ArgShape(line, spaces, key, rest) { ArgNameBack(spaces, key, rest); }
  }

  // ---- LABEL lines

  // The greatest i below n with a and b at i and i+1.
  function LastPair(s: string, a: char, b: char, n: nat): (r: Option<nat>)
    requires n < |s|
    ensures r.Some? ==> r.value < n && s[r.value] == a && s[r.value+1] == b
    ensures forall i: nat {:trigger s[i]} :: i < n && s[i] == a && s[i+1] == b ==> r.Some? && i <= r.value
  {
    if n == 0 then None
    else if s[n-1] == a && s[n] == b then Some(n - 1)
    else LastPair(s, a, b, n - 1)
  }

  function LastOf(s: string, c: char): (r: Option<nat>)
    ensures r.Some? ==> r.value < |s| && s[r.value] == c
    ensures forall i: nat :: i < |s| && s[i] == c ==> r.Some? && i <= r.value
  {
    if s == "" then None
    else if s[|s|-1] == c then Some(|s| - 1)
    else LastOf(s[..|s|-1], c)
  }

  // In the word after LABEL: the last quote ends the value, and the last =" that leaves it a character begins it.
  function SplitLabel(word: string): Option<(string, string)> {
    var quote := LastOf(word, '"');
    if quote.None? || quote.value < 3 then None
    else
      var eq := LastPair(word, '=', '"', quote.value - 2);
      if eq.None? || eq.value == 0 then None else Some((word[..eq.value], word[eq.value+2..quote.value]))
  }

  function MatchLabel(line: string): Option<(string, string)> {
    if !("LABEL" <= line) then None
    else
      var (spaces, rest) := Span(line[5..], Space);
      if spaces == "" then None else SplitLabel(Span(rest, DigestChar).0)
  }

  function ShowLabel(name: string, val: string): string { name + "=\"" + val + "\"" }

  predicate ValidLabel(name: string, val: string) {
    name != "" && val != "" && All(name, DigestChar) && All(val, DigestChar) && '"' !in val
  }

  lemma SplitShown(name: string, val: string)
    requires ValidLabel(name, val)
    ensures SplitLabel(ShowLabel(name, val)) == Some((name, val)) && All(ShowLabel(name, val), DigestChar)
  {
    var w := ShowLabel(name, val);
    var q: nat := |name| + 2 + |val|;
    assert w[q] == '"' && |w| == q + 1;
    assert w[|name|] == '=' && w[|name|+1] == '"';
    forall i | |name| + 1 < i < q ensures w[i] != '"' { assert w[i] == val[i-|name|-2]; }
    var eq := LastPair(w, '=', '"', q - 2);
    assert eq.Some? && eq.value == |name|;
    assert w[..|name|] == name && w[|name|+2..q] == val;
  }

  lemma LabelBack(spaces: string, name: string, val: string, tail: string)
    requires ValidSpaces(spaces) && ValidLabel(name, val) && ValidTail(tail)
    ensures MatchLabel("LABEL" + (spaces + (ShowLabel(name, val) + tail))) == Some((name, val))
  {
    var shown := ShowLabel(name, val);
    var line := "LABEL" + (spaces + (shown + tail));
    SplitShown(name, val);
    assert line[5..] == spaces + (shown + tail) && (shown + tail)[0] == name[0];
    SpanOf(spaces, shown + tail, Space);
    SpanOf(shown, tail, DigestChar);
  }

  // name="val" and a tail without quotes, where no later =" begins a value.
  ghost predicate LabelWord(w: string, name: string, val: string, tail: string) {
    && name != "" && val != "" && '"' !in tail && w == name + "=\"" + val + "\"" + tail
    && forall k :: |name| < k < |name| + |val| ==> !(w[k] == '=' && w[k+1] == '"')
  }

  ghost predicate LabelShape(line: string, spaces: string, w: string, rest: string) {
    line == "LABEL" + (spaces + (w + rest)) && ValidSpaces(spaces) && w != "" && All(w, DigestChar) && ValidTail(rest)
  }

  lemma Parts(w: string, eq: nat, quote: nat)
    requires eq + 2 <= quote < |w| && w[eq] == '=' && w[eq+1] == '"' && w[quote] == '"'
    ensures w == w[..eq] + "=\"" + w[eq+2..quote] + "\"" + w[quote+1..]
  {
    assert w[eq..eq+2] == "=\"" && w[quote..quote+1] == "\"";
    assert w == w[..eq] + w[eq..eq+2] + w[eq+2..quote] + w[quote..quote+1] + w[quote+1..];
  }

  lemma SplitIsWord(w: string, quote: nat, eq: nat)
    requires 3 <= quote < |w| && LastOf(w, '"') == Some(quote) && LastPair(w, '=', '"', quote - 2) == Some(eq) && eq > 0
    ensures LabelWord(w, w[..eq], w[eq+2..quote], w[quote+1..])
  {
    Parts(w, eq, quote);
    var tail := w[quote+1..];
    forall i | 0 <= i < |tail| ensures tail[i] != '"' { assert tail[i] == w[quote+1+i]; }
    forall k | eq < k < quote - 2 ensures !(w[k] == '=' && w[k+1] == '"') {}
  }

  lemma SplitLabelIff(w: string, name: string, val: string)
    ensures SplitLabel(w) == Some((name, val)) <==> exists tail :: LabelWord(w, name, val, tail)
  {
    if SplitLabel(w) == Some((name, val)) {
      var quote := LastOf(w, '"').value;
      SplitIsWord(w, quote, LastPair(w, '=', '"', quote - 2).value);
    }
    if tail :| LabelWord(w, name, val, tail) { LabelWordSplits(w, name, val, tail); }
  }

  lemma LabelWordSplits(w: string, name: string, val: string, tail: string)
    requires LabelWord(w, name, val, tail)
    ensures SplitLabel(w) == Some((name, val))
  {
    var q: nat := |name| + 2 + |val|;
    assert w[q] == '"' && w[|name|] == '=' && w[|name|+1] == '"';
    assert forall i :: q < i < |w| ==> w[i] == tail[i-q-1];
    assert LastOf(w, '"') == Some(q);
    var eq := LastPair(w, '=', '"', q - 2);
    assert eq.Some? && eq.value == |name|;
    assert w[..|name|] == name && w[|name|+2..q] == val;
  }

  // Which lines are LABEL lines, and what they say.
  lemma MatchLabelIff(line: string, name: string, val: string)
    ensures MatchLabel(line) == Some((name, val)) <==>
      exists spaces, w, rest, tail :: LabelShape(line, spaces, w, rest) && LabelWord(w, name, val, tail)
  {
    if MatchLabel(line) == Some((name, val)) {
      var split := Span(line[5..], Space);
      var word := Span(split.1, DigestChar);
      assert line == "LABEL" + line[5..];
      SplitLabelIff(word.0, name, val);
      var tail :| LabelWord(word.0, name, val, tail);
      assert LabelShape(line, split.0, word.0, word.1);
    }
    if spaces, w, rest, tail :| LabelShape(line, spaces, w, rest) && LabelWord(w, name, val, tail) {
      SplitLabelIff(w, name, val);
      assert line[5..] == spaces + (w + rest) && (w + rest)[0] == w[0];
      SpanOf(spaces, w + rest, Space);
      SpanOf(w, rest, DigestChar);
    }
  }

  // ---- Whole files

  // A line of this length or more does not fit the scanner's buffer.
  const MAX_TOKEN := 65536

  datatype Dockerfile = Dockerfile(from: seq<ImageRef>, labels: map<string, string>, args: Args)

  // What one line adds. The three kinds of lines begin differently.
  function AddLine(d: Dockerfile, line: string): Dockerfile {
    d.(from := d.from + Found(MatchFrom(line)), labels := AddLabel(d.labels, line), args := AddArg(d.args, line))
  }

  function AddLabel(labels: map<string, string>, line: string): map<string, string> {
    var l := MatchLabel(line);
    if l.Some? then labels[l.value.0 := l.value.1] else labels
  }

  function AddArg(args: Args, line: string): Args {
    var name := ArgName(line);
    if name.Some? && '\n' !in line then args[name.value := line] else args
  }

  function AddLines(d: Dockerfile, lines: seq<string>): Dockerfile
    decreases |lines|
  {
    if lines == [] then d else AddLines(AddLine(d, lines[0]), lines[1..])
  }

  lemma OneKind(line: string)
    ensures MatchFrom(line).Some? ==> MatchLabel(line).None? && ArgName(line).None?
    ensures MatchLabel(line).Some? ==> ArgName(line).None?
  {
    assert "FROM" <= line ==> line[0] == 'F';
    assert "LABEL" <= line ==> line[0] == 'L';
    assert "ARG" <= line ==> line[0] == 'A';
  }

  lemma AddFound(d: Dockerfile, line: string)
    requires '\n' !in line
    ensures var ref := MatchFrom(line);
            ref.Some? ==> AddLine(d, line) == Dockerfile(d.from + [ref.value], d.labels, d.args)
    ensures var lab := MatchLabel(line);
            lab.Some? ==> AddLine(d, line) == Dockerfile(d.from, d.labels[lab.value.0 := lab.value.1], d.args)
    ensures var arg := ArgName(line);
            arg.Some? ==> AddLine(d, line) == Dockerfile(d.from, d.labels, d.args[arg.value := line])
    ensures MatchFrom(line).None? && MatchLabel(line).None? && ArgName(line).None? ==> AddLine(d, line) == d
  {
    OneKind(line);
    assert d.from + [] == d.from;
  }

  method ParseLine(d: Dockerfile, txt: string) returns (d': Dockerfile)
    requires '\n' !in txt
    ensures d' == AddLine(d, txt)
  {
    var ref, lab, arg := MatchFrom(txt), MatchLabel(txt), ArgName(txt);
    AddFound(d, txt);
    d' := d;
    if ref.Some? {
      d' := Dockerfile(d.from + [ref.value], d.labels, d.args);
    } else if lab.Some? {
      d' := Dockerfile(d.from, d.labels[lab.value.0 := lab.value.1], d.args);
    } else if arg.Some? {
      d' := Dockerfile(d.from, d.labels, d.args[arg.value := txt]);
    }
  }

  predicate TooLong(text: string)
    decreases |text|
  {
    text != "" && (Eol(text) >= MAX_TOKEN || TooLong(AfterLine(text)))
  }

  const NOTHING: Dockerfile := Dockerfile([], map[], map[])

  // What parsing gives; file is what opening and reading the file gives.
  predicate Parsed(file: Option<string>, r: Option<Dockerfile>) {
    && (r.None? <==> file.None? || TooLong(file.value))
    && (r.Some? ==> r.value == AddLines(NOTHING, Lines(file.value)))
  }

  method ParseDockerfile(file: Option<string>) returns (r: Option<Dockerfile>)
    ensures Parsed(file, r)
  {
    if file.None? { return None; }
    var d, rest := NOTHING, file.value;
    while rest != ""
      invariant TooLong(file.value) <==> TooLong(rest)
      invariant AddLines(NOTHING, Lines(file.value)) == AddLines(d, Lines(rest))
      decreases |rest|
    {
      if Eol(rest) >= MAX_TOKEN { return None; }
      AddHead(d, rest);
      d := ParseLine(d, FirstText(rest));
      rest := AfterLine(rest);
    }
    r := Some(d);
  }

  lemma AddHead(d: Dockerfile, text: string)
    requires text != ""
    ensures AddLines(d, Lines(text)) == AddLines(AddLine(d, FirstText(text)), Lines(AfterLine(text)))
    ensures '\n' !in FirstText(text)
  {
    var line, lines := FirstText(text), Lines(AfterLine(text));
    assert ([line] + lines)[1..] == lines;
  }

  // ---- What the result holds

  lemma Regroup(a: seq<ImageRef>, b: seq<ImageRef>, c: seq<ImageRef>)
    ensures a + b + c == a + (b + c)
  {}

  lemma {:induction false} LinesAdded(d: Dockerfile, lines: seq<string>)
    ensures AddLines(d, lines).from == d.from + Froms(lines)
    decreases |lines|
  {
    if lines != [] {
      var d' := AddLine(d, lines[0]);
      LinesAdded(d', lines[1..]);
      Regroup(d.from, Found(MatchFrom(lines[0])), Froms(lines[1..]));
    }
  }

  lemma {:induction false} TooLongItems(items: seq<Item>)
    requires forall k :: 0 <= k < |items| ==> ValidItem(items[k])
    ensures TooLong(Text(items)) <==> exists k :: 0 <= k < |items| && |ItemLine(items[k])| >= MAX_TOKEN
  {
    if items != [] {
      var line, rest := ItemLine(items[0]), Text(items[1..]);
      ItemMatch(items[0]);
      EolOf(line, rest);
      assert Text(items) == line + "\n" + rest && AfterLine(Text(items)) == rest;
      TooLongItems(items[1..]);
      assert forall k :: 0 < k < |items| ==> items[k] == items[1..][k-1];
    }
  }

  // A Dockerfile of FROM lines in any layout, among any other lines, is parsed iff every line fits the scanner's
  // buffer, and then to the same references in order.
  lemma ItemsParsed(items: seq<Item>, r: Option<Dockerfile>)
    requires (forall k :: 0 <= k < |items| ==> ValidItem(items[k])) && Parsed(Some(Text(items)), r)
    ensures r.Some? <==> forall k :: 0 <= k < |items| ==> |ItemLine(items[k])| < 65536
    ensures r.Some? ==> r.value.from == Refs(items)
  {
    TooLongItems(items);
    FileRoundTrip(items);
    LinesAdded(NOTHING, Lines(Text(items)));
    assert [] + Refs(items) == Refs(items);
  }

  // The last line that labels a name decides its value.
  ghost predicate LastLabels(lines: seq<string>, name: string, val: string, i: nat) {
    && i < |lines| && MatchLabel(lines[i]) == Some((name, val))
    && forall j :: i < j < |lines| ==> MatchLabel(lines[j]).None? || MatchLabel(lines[j]).value.0 != name
  }

  lemma {:induction false} LabelsUndisturbed(d: Dockerfile, lines: seq<string>, name: string)
    requires forall j :: 0 <= j < |lines| ==> MatchLabel(lines[j]).None? || MatchLabel(lines[j]).value.0 != name
    ensures name in AddLines(d, lines).labels <==> name in d.labels
    ensures name in d.labels ==> AddLines(d, lines).labels[name] == d.labels[name]
    decreases |lines|
  {
    if lines != [] { LabelsUndisturbed(AddLine(d, lines[0]), lines[1..], name); }
  }

  lemma {:induction false} LabelsKept(d: Dockerfile, lines: seq<string>, name: string, val: string, i: nat)
    requires LastLabels(lines, name, val, i)
    ensures name in AddLines(d, lines).labels && AddLines(d, lines).labels[name] == val
    decreases |lines|
  {
    if i == 0 {
      LabelAdded(d, lines[0], name, val);
      LabelsUndisturbed(AddLine(d, lines[0]), lines[1..], name);
    } else {
      LastLabelInRest(lines, name, val, i);
      LabelsKept(AddLine(d, lines[0]), lines[1..], name, val, i - 1);
    }
  }

  lemma LabelAdded(d: Dockerfile, line: string, name: string, val: string)
    requires MatchLabel(line) == Some((name, val))
    ensures name in AddLine(d, line).labels && AddLine(d, line).labels[name] == val
  {}

  lemma LastLabelInRest(lines: seq<string>, name: string, val: string, i: nat)
    requires LastLabels(lines, name, val, i) && i > 0
    ensures LastLabels(lines[1..], name, val, i - 1)
  {}

  // The last line that declares a name is the one kept for it.
  ghost predicate LastDeclares(lines: seq<string>, key: string, i: nat) {
    i < |lines| && ArgName(lines[i]) == Some(key) && forall j :: i < j < |lines| ==> ArgName(lines[j]) != Some(key)
  }

  lemma {:induction false} ArgsKept(d: Dockerfile, lines: seq<string>, key: string, i: nat)
    requires LastDeclares(lines, key, i) && '\n' !in lines[i]
    ensures key in AddLines(d, lines).args && AddLines(d, lines).args[key] == lines[i]
    decreases |lines|
  {
    var d' := AddLine(d, lines[0]);
    if i == 0 {
      ArgAdded(d, lines[0], key);
      ArgsUndisturbed(d', lines[1..], key);
    } else {
      LastInRest(lines, key, i);
      ArgsKept(d', lines[1..], key, i - 1);
    }
  }

  lemma LastInRest(lines: seq<string>, key: string, i: nat)
    requires LastDeclares(lines, key, i) && i > 0
    ensures LastDeclares(lines[1..], key, i - 1) && lines[1..][i-1] == lines[i]
  {}

  lemma ArgAdded(d: Dockerfile, line: string, key: string)
    requires ArgName(line) == Some(key) && '\n' !in line
    ensures key in AddLine(d, line).args && AddLine(d, line).args[key] == line
  {}

  lemma {:induction false} ArgsUndisturbed(d: Dockerfile, lines: seq<string>, key: string)
    requires forall j :: 0 <= j < |lines| ==> ArgName(lines[j]) != Some(key)
    ensures key in AddLines(d, lines).args <==> key in d.args
    ensures key in d.args ==> AddLines(d, lines).args[key] == d.args[key]
    decreases |lines|
  {
    if lines != [] { ArgsUndisturbed(AddLine(d, lines[0]), lines[1..], key); }
  }
}
