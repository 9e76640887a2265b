// The FROM lines of a Dockerfile and the references in them.
module FromLines {
  import opened Wrappers

  datatype ImageRef = ImageRef(name: string, tag: string, digest: string)

  // The white space of Go's regular expressions.
  predicate Space(c: char) { c == ' ' || c == '\t' || c == '\n' || c == '\U{000C}' || c == '\r' }

  predicate NameChar(c: char) { !Space(c) && c != ':' && c != '@' }

  predicate TagChar(c: char) { !Space(c) && c != '@' }

  predicate DigestChar(c: char) { !Space(c) }

  predicate All(s: string, kind: char -> bool) { forall i :: 0 <= i < |s| ==> kind(s[i]) }

  // The longest prefix of s made of such characters, and what follows it.
  function Span(s: string, kind: char -> bool): (r: (string, string))
    ensures s == r.0 + r.1 && All(r.0, kind) && (r.1 != "" ==> !kind(r.1[0]))
  {
    if s == "" || !kind(s[0]) then ("", s)
    else
      var r := Span(s[1..], kind);
      assert s == [s[0]] + s[1..];
      ([s[0]] + r.0, r.1)
  }

  function Skip(s: string, c: char): string { if s != "" && s[0] == c then s[1..] else s }

  const SHA := "sha256:"

  // What rxFrom captures in a line: each group takes as much as it can.
  function MatchFrom(line: string): Option<ImageRef> {
    if !("FROM" <= line) then None
    else
      var (spaces, afterSpaces) := Span(line[4..], Space);
      var (name, afterName) := Span(afterSpaces, NameChar);
      if spaces == "" || name == "" then None
      else
        var (tag, afterTag) := Span(Skip(afterName, ':'), TagChar);
        Some(ImageRef(name, tag, Digest(Skip(afterTag, '@'))))
  }

  function Digest(s: string): string {
    if !(SHA <= s) then ""
    else
      var rest := Span(s[|SHA|..], DigestChar).0;
      if rest == "" then "" else SHA + rest
  }

  // ---- Writing a reference

  predicate ValidDigest(d: string) { d == "" || (SHA < d && All(d[|SHA|..], DigestChar)) }

  predicate ValidRef(r: ImageRef) {
    r.name != "" && All(r.name, NameChar) && All(r.tag, TagChar) && ValidDigest(r.digest)
  }

  function ShowRef(r: ImageRef): string {
    r.name + (if r.tag != "" then ":" + r.tag else "") + (if r.digest != "" then "@" + r.digest else "")
  }

  // A FROM line with any white space after FROM and anything after white space behind the reference.
  function ShowFrom(spaces: string, r: ImageRef, tail: string): string { "FROM" + (spaces + (ShowRef(r) + tail)) }

  predicate ValidSpaces(spaces: string) { spaces != "" && All(spaces, Space) }

  predicate ValidTail(tail: string) { tail == "" || Space(tail[0]) }

  lemma {:induction false} SpanOf(a: string, b: string, kind: char -> bool)
    requires All(a, kind) && (b != "" ==> !kind(b[0]))
    ensures Span(a + b, kind) == (a, b)
  {
    if a == "" {
      assert a + b == b;
    } else {
      assert (a + b)[1..] == a[1..] + b;
      SpanOf(a[1..], b, kind);
      assert a == [a[0]] + a[1..];
    }
  }

  lemma DigestBack(d: string, tail: string)
    requires ValidDigest(d) && ValidTail(tail)
    ensures d != "" ==> Digest(d + tail) == d
    ensures Digest(tail) == ""
  {
    if d != "" {
      var body := d[|SHA|..];
      assert d == SHA + body && d + tail == SHA + (body + tail);
      assert (d + tail)[|SHA|..] == body + tail;
      SpanOf(body, tail, DigestChar);
    }
    assert SHA[0] == 's';
  }

  // What follows the name of a printed reference.
  function AfterName(r: ImageRef, tail: string): string {
    if r.tag != "" then ":" + (r.tag + AfterTag(r, tail)) else AfterTag(r, tail)
  }

  function AfterTag(r: ImageRef, tail: string): string { if r.digest != "" then "@" + (r.digest + tail) else tail }

  lemma RefSplit(r: ImageRef, tail: string)
    ensures ShowRef(r) + tail == r.name + AfterName(r, tail)
  {
    var t, d := if r.tag != "" then ":" + r.tag else "", if r.digest != "" then "@" + r.digest else "";
    assert ShowRef(r) + tail == r.name + (t + (d + tail));
    assert d + tail == AfterTag(r, tail);
    if r.tag != "" {
      assert ":" + r.tag + AfterTag(r, tail) == ":" + (r.tag + AfterTag(r, tail));
    } else {
      assert t + AfterTag(r, tail) == AfterTag(r, tail);
    }
  }

  lemma TagBack(r: ImageRef, tail: string)
    requires ValidRef(r) && ValidTail(tail)
    ensures Span(Skip(AfterName(r, tail), ':'), TagChar) == (r.tag, AfterTag(r, tail))
  {
    var rest := AfterTag(r, tail);
    assert rest != "" ==> !TagChar(rest[0]) && rest[0] != ':';
    SpanOf(r.tag, rest, TagChar);
    if r.tag == "" { assert r.tag + rest == rest; }
  }

  lemma FromBack(spaces: string, r: ImageRef, tail: string)
    requires ValidRef(r) && ValidSpaces(spaces) && ValidTail(tail)
    ensures MatchFrom(ShowFrom(spaces, r, tail)) == Some(r)
  {
    var line, rest := ShowFrom(spaces, r, tail), AfterName(r, tail);
    RefSplit(r, tail);
    assert line[4..] == spaces + (r.name + rest);
    assert NameChar(r.name[0]);
    SpanOf(spaces, r.name + rest, Space);
    SpanOf(r.name, rest, NameChar);
    TagBack(r, tail);
    DigestBack(r.digest, tail);
  }

  // Whatever the parser captures is a valid reference, so printing and parsing it again changes nothing.
  lemma MatchIsValid(line: string)
    requires MatchFrom(line).Some?
    ensures ValidRef(MatchFrom(line).value)
    ensures MatchFrom(ShowFrom(" ", MatchFrom(line).value, "")) == MatchFrom(line)
  {
    FromBack(" ", MatchFrom(line).value, "");
  }

  predicate FromShape(line: string, spaces: string, rest: string) {
    ValidSpaces(spaces) && rest != "" && NameChar(rest[0]) && line == "FROM" + (spaces + rest)
  }

  // Which lines are FROM lines.
  lemma IsFromLine(line: string)
    ensures MatchFrom(line).Some? <==> exists spaces, rest :: FromShape(line, spaces, rest)
  {
    if MatchFrom(line).Some? {
      var split := Span(line[4..], Space);
      assert line == "FROM" + line[4..];
      assert FromShape(line, split.0, split.1);
    }
    if spaces, rest :| FromShape(line, spaces, rest) { ShapeMatches(line, spaces, rest); }
  }

  lemma ShapeMatches(line: string, spaces: string, rest: string)
    requires FromShape(line, spaces, rest)
    ensures MatchFrom(line).Some?
  {
    assert line[4..] == spaces + rest;
    SpanOf(spaces, rest, Space);
  }

  // ---- Whole files

  // Up to the end of the first line.
  function Eol(text: string): (n: nat)
    ensures n <= |text| && '\n' !in text[..n] && (n < |text| ==> text[n] == '\n')
  {
    if text == "" || text[0] == '\n' then 0
    else
      var n := Eol(text[1..]);
      assert text[..n+1] == [text[0]] + text[1..][..n];
      n + 1
  }

  function TrimCR(line: string): string { if line != "" && line[|line|-1] == '\r' then line[..|line|-1] else line }

  function FirstText(text: string): string { TrimCR(text[..Eol(text)]) }

  function AfterLine(text: string): (rest: string)
    ensures text != "" ==> |rest| < |text|
  {
    if Eol(text) == |text| then "" else text[Eol(text)+1..]
  }

  // The lines that a bufio.Scanner delivers.
  function Lines(text: string): seq<string>
    decreases |text|
  {
    if text == "" then [] else [FirstText(text)] + Lines(AfterLine(text))
  }

  function Found(r: Option<ImageRef>): seq<ImageRef> { if r.Some? then [r.value] else [] }

  function Froms(lines: seq<string>): seq<ImageRef> {
    if lines == [] then [] else Found(MatchFrom(lines[0])) + Froms(lines[1..])
  }

  // A Dockerfile as a list of FROM lines and lines that are none.
  datatype Item = From(spaces: string, ref: ImageRef, tail: string) | Other(text: string)

  function ItemLine(i: Item): string {
    match i case From(spaces, r, tail) => ShowFrom(spaces, r, tail) case Other(t) => t
  }

  predicate ValidItem(i: Item) {
    match i
    case From(spaces, r, tail) =>
      ValidSpaces(spaces) && ValidRef(r) && ValidTail(tail) && '\n' !in spaces && '\n' !in tail
    case Other(t) => '\n' !in t && MatchFrom(TrimCR(t)).None?
  }

  function Text(items: seq<Item>): string { if items == [] then "" else ItemLine(items[0]) + "\n" + Text(items[1..]) }

  function Refs(items: seq<Item>): seq<ImageRef> {
    if items == [] then [] else (if items[0].From? then [items[0].ref] else []) + Refs(items[1..])
  }

  lemma {:induction false} EolOf(line: string, rest: string)
    requires '\n' !in line
    ensures Eol(line + "\n" + rest) == |line|
  {
    var text := line + "\n" + rest;
    if line != "" {
      assert text[0] == line[0] && text[1..] == line[1..] + "\n" + rest;
      EolOf(line[1..], rest);
    } else {
      assert text[0] == '\n';
    }
  }

  lemma LineFirst(line: string, rest: string)
    requires '\n' !in line
    ensures Lines(line + "\n" + rest) == [TrimCR(line)] + Lines(rest)
  {
    var text := line + "\n" + rest;
    EolOf(line, rest);
    assert FirstText(text) == TrimCR(line) && AfterLine(text) == rest && text != "";
  }

  // A line is delivered without its end, whether that is a newline or a carriage return and a newline.
  lemma LineEnds(line: string, rest: string)
    requires '\n' !in line && (line == "" || line[|line|-1] != '\r')
    ensures Lines(line + "\n" + rest) == [line] + Lines(rest)
    ensures Lines((line + "\r") + "\n" + rest) == [line] + Lines(rest)
  {
    LineFirst(line, rest);
    CarriageReturn(line);
    LineFirst(line + "\r", rest);
  }

  lemma CarriageReturn(line: string)
    ensures TrimCR(line + "\r") == line && ('\n' in line + "\r" <==> '\n' in line)
  {
    var s := line + "\r";
    assert s[|s|-1] == '\r' && s[..|line|] == line;
  }

  lemma RefOneLine(r: ImageRef)
    requires ValidRef(r)
    ensures ShowRef(r) != "" && !Space(ShowRef(r)[|ShowRef(r)|-1]) && '\n' !in ShowRef(r)
  {
    assert r.digest != "" ==> r.digest == SHA + r.digest[|SHA|..];
    assert '\n' !in SHA && forall i :: 0 <= i < |SHA| ==> !Space(SHA[i]);
    assert forall i :: 0 <= i < |r.digest| ==> !Space(r.digest[i]);
  }

  lemma ShowOneLine(spaces: string, r: ImageRef, tail: string)
    requires ValidRef(r) && '\n' !in spaces && '\n' !in tail
    ensures '\n' !in ShowFrom(spaces, r, tail)
  {
    RefOneLine(r);
    assert '\n' !in "FROM";
  }

  lemma Trimmed(front: string, tail: string)
    requires tail != ""
    ensures TrimCR(front + tail) == front + TrimCR(tail)
  {
    var line := front + tail;
    assert line[|line|-1] == tail[|tail|-1];
    assert line[..|line|-1] == front + tail[..|tail|-1];
  }

  lemma ShowTrimmed(spaces: string, r: ImageRef, tail: string)
    requires ValidRef(r) && ValidTail(tail)
    ensures TrimCR(ShowFrom(spaces, r, tail)) == ShowFrom(spaces, r, TrimCR(tail)) && ValidTail(TrimCR(tail))
  {
    var ref := ShowRef(r);
    RefOneLine(r);
    Trimmed("FROM", spaces + (ref + tail));
    Trimmed(spaces, ref + tail);
    if tail == "" { assert ref + tail == ref; } else { Trimmed(ref, tail); }
  }

  // The FROM line is recognised with and without a carriage return at its end.
  lemma ItemMatch(i: Item)
    requires ValidItem(i)
    ensures '\n' !in ItemLine(i)
    ensures MatchFrom(TrimCR(ItemLine(i))) == if i.From? then Some(i.ref) else None
  {
    if i.From? {
      ShowOneLine(i.spaces, i.ref, i.tail);
      ShowTrimmed(i.spaces, i.ref, i.tail);
      FromBack(i.spaces, i.ref, TrimCR(i.tail));
    }
  }

  // Every list of FROM lines, in any layout and among any other lines, is read back as written and in order.
  lemma {:induction false} FileRoundTrip(items: seq<Item>)
    requires forall k :: 0 <= k < |items| ==> ValidItem(items[k])
    ensures Froms(Lines(Text(items))) == Refs(items)
  {
    if items != [] {
      ItemMatch(items[0]);
      LineFirst(ItemLine(items[0]), Text(items[1..]));
      FileRoundTrip(items[1..]);
    }
  }

  // A newline at the end of the file makes no difference.
  lemma {:induction false} LastNewline(text: string)
    requires text != "" && text[|text|-1] != '\n'
    ensures Lines(text + "\n") == Lines(text)
    decreases |text|
  {
    var n := Eol(text);
    if n == |text| {
      assert text + "\n" == text + "\n" + "" && text[..n] == text;
      LineFirst(text, "");
    } else {
      var line, after := text[..n], text[n+1..];
      assert text == line + "\n" + after;
      assert text + "\n" == line + "\n" + (after + "\n");
      LastNewline(after);
      LineFirst(line, after);
      LineFirst(line, after + "\n");
    }
  }
}
