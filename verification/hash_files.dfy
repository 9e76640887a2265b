// hashFiles: what is fed to sha256, and what the result does and does not depend on.
module HashFiles {
  import opened Wrappers

  // ---- Go's order on strings, and slices.Sort

  predicate Le(a: string, b: string) {
    a == [] || (b != [] && (a[0] < b[0] || (a[0] == b[0] && Le(a[1..], b[1..]))))
  }

  lemma {:induction false} LeTotal(a: string, b: string)
    ensures Le(a, b) || Le(b, a)
    ensures Le(a, b) && Le(b, a) ==> a == b
  {
    if a != [] && b != [] && a[0] == b[0] {
      LeTotal(a[1..], b[1..]);
      assert a == [a[0]] + a[1..] && b == [b[0]] + b[1..];
    }
  }

  lemma {:induction false} LeTransitive(a: string, b: string, c: string)
    requires Le(a, b) && Le(b, c)
    ensures Le(a, c)
  {
    if a != [] && a[0] == b[0] == c[0] { LeTransitive(a[1..], b[1..], c[1..]); }
  }

  // A common prefix does not change the order.
  lemma {:induction false} LePrefix(p: string, a: string, b: string)
    ensures Le(p + a, p + b) <==> Le(a, b)
  {
    if p == [] {
      assert p + a == a && p + b == b;
    } else {
      assert (p + a)[1..] == p[1..] + a && (p + b)[1..] == p[1..] + b;
      LePrefix(p[1..], a, b);
    }
  }

  predicate Sorted(s: seq<string>) {
    forall i, j :: 0 <= i < j < |s| ==> Le(s[i], s[j])
  }

  function Insert(x: string, s: seq<string>): seq<string> {
    if s == [] || Le(x, s[0]) then [x] + s else [s[0]] + Insert(x, s[1..])
  }

  function Sort(s: seq<string>): seq<string> {
    if s == [] then [] else Insert(s[0], Sort(s[1..]))
  }

  lemma {:induction false} InsertSorted(x: string, s: seq<string>)
    requires Sorted(s)
    ensures Sorted(Insert(x, s)) && multiset(Insert(x, s)) == multiset{x} + multiset(s)
    ensures |Insert(x, s)| == |s| + 1
  {
    if s == [] || Le(x, s[0]) {
      forall i | 0 <= i < |s| ensures Le(x, s[i]) { if i > 0 { LeTransitive(x, s[0], s[i]); } }
    } else {
      LeTotal(x, s[0]);
      InsertSorted(x, s[1..]);
      var t := Insert(x, s[1..]);
      assert s == [s[0]] + s[1..];
      forall i | 0 <= i < |t| ensures Le(s[0], t[i]) {
        assert t[i] in multiset(t);
        assert t[i] == x || t[i] in s[1..];
      }
    }
  }

  lemma {:induction false} SortSorts(s: seq<string>)
    ensures Sorted(Sort(s)) && multiset(Sort(s)) == multiset(s) && |Sort(s)| == |s|
  {
    if s != [] {
      SortSorts(s[1..]);
      InsertSorted(s[0], Sort(s[1..]));
      assert s == [s[0]] + s[1..];
    }
  }

  lemma SortedHead(s: seq<string>, t: seq<string>)
    requires Sorted(s) && Sorted(t) && multiset(s) == multiset(t) && s != []
    ensures t != [] && s[0] == t[0]
  {
    assert s[0] in multiset(t);
    var j :| 0 <= j < |t| && t[j] == s[0];
    assert t[0] in multiset(s);
    var i :| 0 <= i < |s| && s[i] == t[0];
    LeTotal(s[0], t[0]);
    LeTotal(s[0], s[0]);
  }

  // A multiset has one sorted arrangement, so the sorting algorithm does not matter.
  lemma {:induction false} SortedUnique(s: seq<string>, t: seq<string>)
    requires Sorted(s) && Sorted(t) && multiset(s) == multiset(t)
    ensures s == t
  {
    if s != [] {
      SortedHead(s, t);
      assert s == [s[0]] + s[1..] && t == [t[0]] + t[1..];
      assert multiset(s[1..]) == multiset(s) - multiset{s[0]};
      assert multiset(t[1..]) == multiset(t) - multiset{t[0]};
      SortedUnique(s[1..], t[1..]);
    } else {
      assert |multiset(t)| == 0;
    }
  }

  // ---- The byte stream

  predicate NoNewline(s: string) { '\n' !in s }

  // The hexadecimal sha256 of a content: 64 characters, none of them a newline.
  ghost predicate IsHexDigest(sha: string -> string) {
    forall x :: |sha(x)| == 64 && NoNewline(sha(x))
  }

  datatype Entry = Entry(digest: string, name: string)

  function TrimPrefix(s: string, prefix: string): string {
    if prefix <= s then s[|prefix|..] else s
  }

  // The entries of a list of files, in its order; None at a name with a newline or an unreadable file.
  function Entries(base: string, files: seq<string>, read: string -> Option<string>,
                   sha: string -> string): Option<seq<Entry>> {
    if files == [] then Some([])
    else if '\n' in files[0] || read(files[0]).None? then None
    else
      var rest := Entries(base, files[1..], read, sha);
      if rest.None? then None
      else Some([Entry(sha(read(files[0]).value), TrimPrefix(files[0], base))] + rest.value)
  }

  function Line(e: Entry): string { e.digest + "  " + e.name + "\n" }

  function Lines(es: seq<Entry>): string {
    if es == [] then [] else Line(es[0]) + Lines(es[1..])
  }

  function Concat(ss: seq<string>): string {
    if ss == [] then [] else ss[0] + Concat(ss[1..])
  }

  // What is written to the hash before humanizing.
  function Stream(base: string, files: seq<string>, parents: seq<string>, read: string -> Option<string>,
                  sha: string -> string): Option<string> {
    var es := Entries(base, Sort(files), read, sha);
    if es.None? then None else Some(Lines(es.value) + Concat(Sort(parents)))
  }

  // humanize stands for the sha256 sum of the stream turned into words of the list.
  type Humanizer = (string, seq<string>) -> Option<string>

  function Hash(base: string, files: seq<string>, parents: seq<string>, words: seq<string>,
                read: string -> Option<string>, sha: string -> string, humanize: Humanizer): Option<string> {
    var s := Stream(base, files, parents, read, sha);
    if s.None? then None else humanize(s.value, words)
  }

  // slices.Sort
  method SortInPlace(a: array<string>)
    modifies a
    ensures a[..] == Sort(old(a[..]))
  {
    ghost var was := a[..];
    var s := Sort(a[..]);
    SortSorts(was);
    for i := 0 to a.Length
      invariant a[..i] == s[..i]
    {
      a[i] := s[i];
    }
    assert a[..] == a[..a.Length] == s[..|s|] == s;
  }

  function Joined(es: seq<Entry>, rest: Option<seq<Entry>>): Option<seq<Entry>> {
    if rest.None? then None else Some(es + rest.value)
  }

  lemma NextEntry(base: string, files: seq<string>, read: string -> Option<string>, sha: string -> string, i: nat,
                  es: seq<Entry>)
    requires i < |files|
    ensures '\n' in files[i] || read(files[i]).None? ==> Entries(base, files[i..], read, sha).None?
    ensures '\n' !in files[i] && read(files[i]).Some? ==>
      Joined(es, Entries(base, files[i..], read, sha))
        == Joined(es + [Entry(sha(read(files[i]).value), TrimPrefix(files[i], base))],
                  Entries(base, files[i+1..], read, sha))
  {
    assert files[i..][0] == files[i] && files[i..][1..] == files[i+1..];
    var rest := Entries(base, files[i+1..], read, sha);
    if '\n' !in files[i] && read(files[i]).Some? && rest.Some? {
      var e := Entry(sha(read(files[i]).value), TrimPrefix(files[i], base));
      assert es + ([e] + rest.value) == es + [e] + rest.value;
    }
  }

  method WriteFiles(baseDir: string, files: array<string>, read: string -> Option<string>, sha: string -> string)
    returns (r: Option<string>)
    ensures var es := Entries(baseDir, files[..], read, sha);
            r == if es.None? then None else Some(Lines(es.value))
  {
    var stream := "";
    ghost var es: seq<Entry>, names := [], files[..];
    ghost var all := Entries(baseDir, names, read, sha);
    assert names[0..] == names && (all.Some? ==> [] + all.value == all.value);
    for i := 0 to files.Length
      invariant stream == Lines(es) && files[..] == names
      invariant Entries(baseDir, names, read, sha) == Joined(es, Entries(baseDir, names[i..], read, sha))
    {
      var filename := files[i];
      NextEntry(baseDir, names, read, sha, i, es);
      if '\n' in filename { return None; }
      var content := read(filename);
      if content.None? { return None; }
      var e := Entry(sha(content.value), TrimPrefix(filename, baseDir));
      LinesAppend(es, e);
      stream := stream + Line(e);
      es := es + [e];
    }
    assert es + [] == es;
    r := Some(stream);
  }

  method HashFiles(baseDir: string, files: array<string>, parentHashes: array<string>, hashList: seq<string>,
                   defaultList: seq<string>, read: string -> Option<string>, sha: string -> string, humanize: Humanizer)
    returns (r: Option<string>)
    requires files != parentHashes
    modifies files, parentHashes
    ensures r == Hash(baseDir, old(files[..]), old(parentHashes[..]), if hashList == [] then defaultList else hashList,
                      read, sha, humanize)
    ensures files[..] == Sort(old(files[..]))
  {
    SortInPlace(files);
    var written := WriteFiles(baseDir, files, read, sha);
    if written.None? { return None; }
    SortInPlace(parentHashes);
    var stream := written.value;
    for i := 0 to parentHashes.Length
      invariant written.value + Concat(parentHashes[..]) == stream + Concat(parentHashes[..][i..])
    {
      assert parentHashes[..][i..][1..] == parentHashes[..][i+1..];
      stream := stream + parentHashes[i];
    }
    assert stream == written.value + Concat(parentHashes[..]);
    r := humanize(stream, if hashList == [] then defaultList else hashList);
  }

  lemma {:induction false} LinesAppend(es: seq<Entry>, e: Entry)
    ensures Lines(es + [e]) == Lines(es) + Line(e)
  {
    if es == [] {
      assert es + [e] == [e] && Lines([e][1..]) == "";
    } else {
      assert (es + [e])[1..] == es[1..] + [e];
      LinesAppend(es[1..], e);
      assert Line(es[0]) + (Lines(es[1..]) + Line(e)) == Line(es[0]) + Lines(es[1..]) + Line(e);
    }
  }

  // ---- The stream determines the files

  lemma FirstLine(a: string, b: string, x: string, y: string)
    requires NoNewline(a) && NoNewline(b) && a + "\n" + x == b + "\n" + y
    ensures a == b && x == y
  {
    var s := a + "\n" + x;
    assert s[|a|] == '\n' && s[|b|] == '\n';
    assert forall i :: 0 <= i < |a| ==> s[i] == a[i] && s[i] != '\n';
    assert forall i :: 0 <= i < |b| ==> s[i] == b[i] && s[i] != '\n';
    assert a == s[..|a|] && b == s[..|b|] && x == s[|a|+1..] && y == s[|b|+1..];
  }

  predicate WellFormed(es: seq<Entry>) {
    forall i :: 0 <= i < |es| ==> |es[i].digest| == 64 && NoNewline(es[i].digest) && NoNewline(es[i].name)
  }

  lemma LinesNewline(es: seq<Entry>, tail: string)
    ensures if es == [] then Lines(es) + tail == tail else '\n' in Lines(es) + tail
  {
    if es != [] {
      var a := es[0].digest + "  " + es[0].name;
      assert (Lines(es) + tail)[|a|] == '\n';
    }
  }

  lemma FirstEntry(es: seq<Entry>, tail: string)
    requires es != []
    ensures Lines(es) + tail == es[0].digest + "  " + es[0].name + "\n" + (Lines(es[1..]) + tail)
  {
    assert Line(es[0]) + Lines(es[1..]) + tail == Line(es[0]) + (Lines(es[1..]) + tail);
  }

  lemma {:induction false} LinesInjective(es: seq<Entry>, es': seq<Entry>, tail: string, tail': string)
    requires WellFormed(es) && WellFormed(es') && NoNewline(tail) && NoNewline(tail')
    requires Lines(es) + tail == Lines(es') + tail'
    ensures es == es' && tail == tail'
  {
    LinesNewline(es, tail);
    LinesNewline(es', tail');
    if es != [] && es' != [] {
      var e, e' := es[0], es'[0];
      var a, a' := e.digest + "  " + e.name, e'.digest + "  " + e'.name;
      FirstEntry(es, tail);
      FirstEntry(es', tail');
      FirstLine(a, a', Lines(es[1..]) + tail, Lines(es'[1..]) + tail');
      assert e.digest == a[..64] && e'.digest == a'[..64] && e.name == a[66..] && e'.name == a'[66..];
      LinesInjective(es[1..], es'[1..], tail, tail');
      assert es == [e] + es[1..] && es' == [e'] + es'[1..];
    }
  }

  lemma {:induction false} EntriesWellFormed(base: string, files: seq<string>, read: string -> Option<string>,
      sha: string -> string)
    requires IsHexDigest(sha)
    ensures var es := Entries(base, files, read, sha); es.Some? ==> WellFormed(es.value) && |es.value| == |files|
  {
    if files != [] { EntriesWellFormed(base, files[1..], read, sha); }
  }

  lemma {:induction false} ConcatNoNewline(ss: seq<string>)
    requires forall i :: 0 <= i < |ss| ==> NoNewline(ss[i])
    ensures NoNewline(Concat(ss))
  {
    if ss != [] { ConcatNoNewline(ss[1..]); }
  }

  // Two calls feed the same bytes iff they have the same files, by digest and relative name, in the same order,
  // and the same concatenation of parent hashes.
  lemma StreamDeterminesFiles(base: string, files: seq<string>, parents: seq<string>, read: string -> Option<string>,
                              base': string, files': seq<string>, parents': seq<string>,
                              read': string -> Option<string>, sha: string -> string)
    requires IsHexDigest(sha)
    requires forall p :: p in parents || p in parents' ==> NoNewline(p)
    requires Stream(base, files, parents, read, sha).Some? && Stream(base', files', parents', read', sha).Some?
    ensures Stream(base, files, parents, read, sha) == Stream(base', files', parents', read', sha) <==>
      Entries(base, Sort(files), read, sha) == Entries(base', Sort(files'), read',
                                                       sha) && Concat(Sort(parents)) == Concat(Sort(parents'))
  {
    var es, es' := Entries(base, Sort(files), read, sha).value, Entries(base', Sort(files'), read', sha).value;
    EntriesWellFormed(base, Sort(files), read, sha);
    EntriesWellFormed(base', Sort(files'), read', sha);
    SortedParents(parents);
    SortedParents(parents');
    if Lines(es) + Concat(Sort(parents)) == Lines(es') + Concat(Sort(parents')) {
      LinesInjective(es, es', Concat(Sort(parents)), Concat(Sort(parents')));
    }
  }

  // What is written for one file: the digest of its content, and its name without the directory.
  ghost predicate Describes(e: Entry, base: string, file: string, read: string -> Option<string>, sha: string -> string)
  {
    && read(file).Some? && e.digest == sha(read(file).value)
    && e.name == if base <= file then file[|base|..] else file
  }

  lemma {:induction false} EntriesAre(base: string, files: seq<string>, read: string -> Option<string>,
                                      sha: string -> string)
    requires Entries(base, files, read, sha).Some?
    ensures var es := Entries(base, files, read, sha).value;
      |es| == |files| && forall i :: 0 <= i < |files| ==> Describes(es[i], base, files[i], read, sha)
  {
    if files != [] { EntriesAre(base, files[1..], read, sha); }
  }

  // The same relative name, with a content of the same digest.
  ghost predicate SameFile(base: string, file: string, read: string -> Option<string>,
                           base': string, file': string, read': string -> Option<string>, sha: string -> string)
  {
    && read(file).Some? && read'(file').Some? && sha(read(file).value) == sha(read'(file').value)
    && (if base <= file then file[|base|..] else file) == if base' <= file' then file'[|base'|..] else file'
  }

  ghost predicate SameFiles(base: string, files: seq<string>, read: string -> Option<string>,
                            base': string, files': seq<string>, read': string -> Option<string>, sha: string -> string)
  {
    && |files| == |files'|
    && forall i :: 0 <= i < |files| ==> SameFile(base, files[i], read, base', files'[i], read', sha)
  }

  lemma DescribedAlike(e: Entry, base: string, file: string, read: string -> Option<string>,
                       e': Entry, base': string, file': string, read': string -> Option<string>, sha: string -> string)
    requires Describes(e, base, file, read, sha) && Describes(e', base', file', read', sha)
    ensures e == e' <==> SameFile(base, file, read, base', file', read', sha)
  {}

  lemma SameEntries(base: string, files: seq<string>, read: string -> Option<string>,
                    base': string, files': seq<string>, read': string -> Option<string>, sha: string -> string)
    requires Entries(base, files, read, sha).Some? && Entries(base', files', read', sha).Some?
    ensures Entries(base, files, read, sha) == Entries(base', files', read', sha) <==>
      SameFiles(base, files, read, base', files', read', sha)
  {
    EntriesAre(base, files, read, sha);
    EntriesAre(base', files', read', sha);
    var es, es' := Entries(base, files, read, sha).value, Entries(base', files', read', sha).value;
    forall i | 0 <= i < |files| && i < |files'|
      ensures es[i] == es'[i] <==> SameFile(base, files[i], read, base', files'[i], read', sha)
    {
      DescribedAlike(es[i], base, files[i], read, es'[i], base', files'[i], read', sha);
    }
  }

  // No two streams become the same words.
  ghost predicate Injective(humanize: Humanizer, words: seq<string>) {
    forall s, s' :: humanize(s, words).Some? && humanize(s, words) == humanize(s', words) ==> s == s'
  }

  // For a hash without collisions: two calls give the same hash iff they have the same files, by digest and relative
  // name, and their sorted parent hashes are the same text.
  lemma HashEqualIff(base: string, files: seq<string>, parents: seq<string>, read: string -> Option<string>,
                     base': string, files': seq<string>, parents': seq<string>, read': string -> Option<string>,
                     words: seq<string>, sha: string -> string, humanize: Humanizer)
    requires IsHexDigest(sha) && Injective(humanize, words)
    requires forall p :: p in parents || p in parents' ==> NoNewline(p)
    requires Hash(base, files, parents, words, read, sha, humanize).Some?
    requires Hash(base', files', parents', words, read', sha, humanize).Some?
    ensures
      (Hash(base, files, parents, words, read, sha, humanize)
         == Hash(base', files', parents', words, read', sha, humanize)) <==>
      && SameFiles(base, Sort(files), read, base', Sort(files'), read', sha)
      && Concat(Sort(parents)) == Concat(Sort(parents'))
  {
    StreamDeterminesFiles(base, files, parents, read, base', files', parents', read', sha);
    SameEntries(base, Sort(files), read, base', Sort(files'), read', sha);
  }

  lemma SortedParents(parents: seq<string>)
    requires forall p :: p in parents ==> NoNewline(p)
    ensures NoNewline(Concat(Sort(parents)))
  {
    SortSorts(parents);
    forall i | 0 <= i < |parents| ensures NoNewline(Sort(parents)[i]) {
      assert Sort(parents)[i] in multiset(parents);
    }
    ConcatNoNewline(Sort(parents));
  }

  // Four words of the list with a dash between them, as every hash is.
  predicate Humanized(s: string, words: seq<string>) {
    exists a, b, c, d :: a in words && b in words && c in words && d in words && s == a + "-" + b + "-" + c + "-" + d
  }

  lemma SortTwo(x: string, y: string)
    requires x != "" && y != "" && x[0] < y[0]
    ensures Sort([x, y]) == [x, y] && Concat(Sort([x, y])) == x + y
  {
    assert [x, y][1..] == [y] && Sort([y]) == [y];
    assert Concat([y]) == y && Concat([x, y]) == x + y;
  }

  lemma SameStream(base: string, x: string, y: string, x': string, y': string, read: string -> Option<string>,
                   sha: string -> string)
    requires x != "" && y != "" && x[0] < y[0] && x' != "" && y' != "" && x'[0] < y'[0] && x + y == x' + y'
    ensures Stream(base, [], [x, y], read, sha) == Stream(base, [], [x', y'], read, sha)
    ensures x != x' ==> Sort([x, y]) != Sort([x', y'])
  {
    SortTwo(x, y);
    SortTwo(x', y');
    assert x != x' ==> [x, y][0] != [x', y'][0];
  }

  // The parents themselves are not determined: no separator is written between their hashes. Both lists here are
  // hashes that a custom word list can give.
  lemma ParentsNotDetermined(base: string, read: string -> Option<string>, sha: string -> string, x: string, y: string,
                             x': string, y': string, words: seq<string>)
    requires words == ["a", "b", "bc", "cz", "z", "q"]
    requires x == "a-a-a-b" && y == "cz-q-q-q" && x' == "a-a-a-bc" && y' == "z-q-q-q"
    ensures Stream(base, [], [x, y], read, sha) == Stream(base, [], [x', y'], read, sha)
    ensures Sort([x, y]) != Sort([x', y'])
    ensures Humanized(x, words) && Humanized(y, words) && Humanized(x', words) && Humanized(y', words)
  {
    assert x + y == "a-a-a-bcz-q-q-q" == x' + y' && |x| != |x'|;
    SameStream(base, x, y, x', y', read, sha);
    Producible(words, x, y, x', y');
  }

  lemma Producible(words: seq<string>, x: string, y: string, x': string, y': string)
    requires words == ["a", "b", "bc", "cz", "z", "q"]
    requires x == "a-a-a-b" && y == "cz-q-q-q" && x' == "a-a-a-bc" && y' == "z-q-q-q"
    ensures Humanized(x, words) && Humanized(y, words) && Humanized(x', words) && Humanized(y', words)
  {
    AreWords(words);
    LastWord("b", words);
    LastWord("bc", words);
    FirstWord("cz", words);
    FirstWord("z", words);
    assert x == "a-a-a-" + "b" && x' == "a-a-a-" + "bc" && y == "cz" + "-q-q-q" && y' == "z" + "-q-q-q";
  }

  lemma LastWord(d: string, words: seq<string>)
    requires "a" in words && d in words
    ensures Humanized("a-a-a-" + d, words)
  {
    FourWords("a", "a", "a", d, words);
    assert "a" + "-" + "a" + "-" + "a" + "-" == "a-a-a-";
  }

  lemma FirstWord(a: string, words: seq<string>)
    requires a in words && "q" in words
    ensures Humanized(a + "-q-q-q", words)
  {
    FourWords(a, "q", "q", "q", words);
    assert a + "-" + "q" + "-" + "q" + "-" + "q" == a + "-q-q-q";
  }

  lemma AreWords(words: seq<string>)
    requires words == ["a", "b", "bc", "cz", "z", "q"]
    ensures "a" in words && "b" in words && "bc" in words && "cz" in words && "z" in words && "q" in words
  {
    assert words[0] == "a" && words[1] == "b" && words[2] == "bc" && words[3] == "cz" && words[4] == "z";
    assert words[5] == "q";
  }

  lemma FourWords(a: string, b: string, c: string, d: string, words: seq<string>)
    requires a in words && b in words && c in words && d in words
    ensures Humanized(a + "-" + b + "-" + c + "-" + d, words)
  {}

  // No hash is empty or begins another one.
  predicate PrefixFree(hs: seq<string>) {
    (forall h :: h in hs ==> h != "") && forall h, k :: h in hs && k in hs && h <= k ==> h == k
  }

  lemma ConcatEmpty(s: seq<string>)
    requires forall h :: h in s ==> h != ""
    ensures Concat(s) == "" <==> s == []
  {
    if s != [] { assert s[0] in s; }
  }

  lemma {:induction false} ConcatDetermines(s: seq<string>, t: seq<string>)
    requires PrefixFree(s + t) && Concat(s) == Concat(t)
    ensures s == t
  {
    assert forall x :: x in s + t <==> x in s || x in t;
    if s == [] {
      ConcatEmpty(t);
    } else {
      assert s[0] in s;
      ConcatEmpty(s);
      assert t[0] in t;
      FirstsEqual(s[0], t[0], Concat(s[1..]), Concat(t[1..]));
      assert forall x :: x in s[1..] + t[1..] ==> x in s + t;
      ConcatDetermines(s[1..], t[1..]);
      assert s == [s[0]] + s[1..] && t == [t[0]] + t[1..];
    }
  }

  lemma FirstsEqual(a: string, b: string, x: string, y: string)
    requires a + x == b + y && (a <= b ==> a == b) && (b <= a ==> b == a)
    ensures a == b && x == y
  {
    var s := a + x;
    assert a == s[..|a|] && b == s[..|b|];
    assert |a| <= |b| ==> a <= b;
    assert |b| <= |a| ==> b <= a;
    assert x == s[|a|..] && y == s[|b|..];
  }

  // When no parent hash begins another one, the bytes determine the parents, up to their order.
  lemma ParentsDetermined(base: string, files: seq<string>, parents: seq<string>, read: string -> Option<string>,
                          base': string, files': seq<string>, parents': seq<string>, read': string -> Option<string>,
                          sha: string -> string)
    requires IsHexDigest(sha) && PrefixFree(parents + parents')
    requires forall p :: p in parents || p in parents' ==> NoNewline(p)
    requires Stream(base, files, parents, read, sha).Some?
    requires Stream(base, files, parents, read, sha) == Stream(base', files', parents', read', sha)
    ensures multiset(parents) == multiset(parents')
  {
    StreamDeterminesFiles(base, files, parents, read, base', files', parents', read', sha);
    SortSorts(parents);
    SortSorts(parents');
    var s, t := Sort(parents), Sort(parents');
    forall x | x in s + t ensures x in parents + parents' {
      assert x in s ==> x in multiset(parents);
      assert x in t ==> x in multiset(parents');
      assert x in s || x in t;
    }
    ConcatDetermines(s, t);
  }

  // The bytes in full, for two files and two parents.
  lemma StreamExample(read: string -> Option<string>, sha: string -> string)
    requires read("/d/a") == Some("x") && read("/d/b") == Some("y")
    ensures Stream("/d", ["/d/b", "/d/a"], ["q", "p"], read, sha)
         == Some(sha("x") + "  " + "/a" + "\n" + (sha("y") + "  " + "/b" + "\n") + "pq")
  {
    SortTwoBack("/d/b", "/d/a", 3);
    SortTwoBack("q", "p", 0);
    TwoEntries(read, sha);
    TwoLines(Entry(sha("x"), "/a"), Entry(sha("y"), "/b"));
    assert ["p", "q"][1..] == ["q"] && ["q"][1..] == [] && Concat(["q"]) == "q" + "";
    assert Concat(["p", "q"]) == "p" + "q" == "pq";
  }

  lemma TwoLines(e: Entry, e': Entry)
    ensures Lines([e, e']) == e.digest + "  " + e.name + "\n" + (e'.digest + "  " + e'.name + "\n")
  {
    assert [e, e'][1..] == [e'] && [e'][1..] == [];
    assert Lines([e']) == Line(e') + "" == Line(e');
  }

  lemma MoreEntries(base: string, file: string, files: seq<string>, read: string -> Option<string>,
                    sha: string -> string, es: seq<Entry>)
    requires '\n' !in file && read(file).Some? && Entries(base, files, read, sha) == Some(es)
    ensures Entries(base, [file] + files, read, sha)
         == Some([Entry(sha(read(file).value), TrimPrefix(file, base))] + es)
  {
    assert ([file] + files)[1..] == files;
  }

  lemma TwoEntries(read: string -> Option<string>, sha: string -> string)
    requires read("/d/a") == Some("x") && read("/d/b") == Some("y")
    ensures Entries("/d", ["/d/a", "/d/b"], read, sha) == Some([Entry(sha("x"), "/a"), Entry(sha("y"), "/b")])
  {
    assert "/d" <= "/d/a" && "/d" <= "/d/b" && "/d/a"[2..] == "/a" && "/d/b"[2..] == "/b";
    MoreEntries("/d", "/d/b", [], read, sha, []);
    assert ["/d/b"] + [] == ["/d/b"] && [Entry(sha("y"), "/b")] + [] == [Entry(sha("y"), "/b")];
    MoreEntries("/d", "/d/a", ["/d/b"], read, sha, [Entry(sha("y"), "/b")]);
    assert ["/d/a"] + ["/d/b"] == ["/d/a", "/d/b"];
    assert [Entry(sha("x"), "/a")] + [Entry(sha("y"), "/b")] == [Entry(sha("x"), "/a"), Entry(sha("y"), "/b")];
  }

  // x and y agree before k, where y is less.
  lemma SortTwoBack(x: string, y: string, k: nat)
    requires k < |x| && k < |y| && x[..k] == y[..k] && y[k] < x[k]
    ensures Sort([x, y]) == [y, x]
  {
    assert x == x[..k] + x[k..] && y == y[..k] + y[k..];
    LePrefix(x[..k], x[k..], y[k..]);
    assert !Le(x[k..], y[k..]);
    assert [x, y][1..] == [y] && [y][1..] == [];
    assert [y][0] == y && Insert(x, [y][1..]) == [x];
    assert Sort([y]) == [y] && Insert(x, [y]) == [y] + [x];
  }

  // ---- Which word lists let the bytes determine the parents

  // What is given to one call besides the word list.
  datatype Call = Call(base: string, files: seq<string>, parents: seq<string>, read: string -> Option<string>)

  function Bytes(c: Call, sha: string -> string): Option<string> {
    Stream(c.base, c.files, c.parents, c.read, sha)
  }

  predicate AllHumanized(hs: seq<string>, words: seq<string>) {
    forall h :: h in hs ==> Humanized(h, words)
  }

  // Words that come as lines of a file, without the separator that humanizing puts between them.
  predicate Plain(words: seq<string>) {
    forall w :: w in words ==> NoNewline(w) && '-' !in w
  }

  // Where the last word of a hash meets the first word of the next, it is clear where the one ends.
  predicate JoinsUnique(words: seq<string>) {
    forall d, a, d', a' :: d in words && a in words && d' in words && a' in words && d + a == d' + a' ==> d == d'
  }

  // If the bytes are the same, so are the parents, up to their order.
  ghost predicate SameParents(c: Call, c': Call, words: seq<string>, sha: string -> string) {
    AllHumanized(c.parents, words) && AllHumanized(c'.parents, words) &&
    Bytes(c, sha).Some? && Bytes(c, sha) == Bytes(c', sha) ==>
      multiset(c.parents) == multiset(c'.parents)
  }

  ghost predicate BytesDetermineParents(words: seq<string>, sha: string -> string) {
    forall c: Call, c': Call :: SameParents(c, c', words, sha)
  }

  lemma FirstDash(a: string, b: string, x: string, y: string)
    requires '-' !in a && '-' !in b && a + ("-" + x) == b + ("-" + y)
    ensures a == b && x == y
  {
    var s := a + ("-" + x);
    assert s[|a|] == '-' && s[|b|] == '-';
    assert forall i :: 0 <= i < |a| ==> s[i] == a[i] && s[i] != '-';
    assert forall i :: 0 <= i < |b| ==> s[i] == b[i] && s[i] != '-';
    assert a == s[..|a|] && b == s[..|b|] && x == s[|a|+1..] && y == s[|b|+1..];
  }

  function Hashed(a: string, b: string, c: string, d: string): string { a + "-" + b + "-" + c + "-" + d }

  // The four words of a hash.
  lemma WordsOf(h: string, words: seq<string>) returns (a: string, b: string, c: string, d: string)
    requires Humanized(h, words)
    ensures a in words && b in words && c in words && d in words && h == Hashed(a, b, c, d)
  {
    a, b, c, d :| a in words && b in words && c in words && d in words && h == a + "-" + b + "-" + c + "-" + d;
  }

  lemma Unfold(a: string, b: string, c: string, d: string, x: string)
    ensures Hashed(a, b, c, d) + x == a + ("-" + (b + ("-" + (c + ("-" + (d + x))))))
  {}

  // A list of hashes that is not empty begins with a word and a dash.
  lemma FirstOfList(s: seq<string>, words: seq<string>) returns (a: string, x: string)
    requires s != [] && AllHumanized(s, words)
    ensures a in words && Concat(s) == a + ("-" + x)
  {
    var b, c, d;
    a, b, c, d := WordsOf(s[0], words);
    Unfold(a, b, c, d, Concat(s[1..]));
    x := b + ("-" + (c + ("-" + (d + Concat(s[1..])))));
  }

  lemma HasDash(d: string, s: seq<string>, words: seq<string>)
    requires s != [] && AllHumanized(s, words)
    ensures '-' in d + Concat(s)
  {
    var a, x := FirstOfList(s, words);
    assert (d + Concat(s))[|d| + |a|] == '-';
  }

  lemma JoinFirst(d: string, a: string, x: string)
    ensures d + (a + ("-" + x)) == (d + a) + ("-" + x)
  {}

  lemma JoinKnown(d: string, d': string, s: seq<string>, t: seq<string>, words: seq<string>)
    requires Plain(words) && JoinsUnique(words) && d in words && d' in words && s != [] && t != []
    requires AllHumanized(s, words) && AllHumanized(t, words) && d + Concat(s) == d' + Concat(t)
    ensures d == d'
  {
    var a, x := FirstOfList(s, words);
    var a', y := FirstOfList(t, words);
    JoinFirst(d, a, x);
    JoinFirst(d', a', y);
    FirstDash(d + a, d' + a', x, y);
  }

  // The last word of the first hash, from what follows its third dash.
  lemma LastWordKnown(d: string, d': string, s: seq<string>, t: seq<string>, words: seq<string>)
    requires Plain(words) && JoinsUnique(words) && d in words && d' in words
    requires AllHumanized(s, words) && AllHumanized(t, words) && d + Concat(s) == d' + Concat(t)
    ensures d == d' && Concat(s) == Concat(t)
  {
    if s != [] && t != [] {
      JoinKnown(d, d', s, t, words);
    } else if s != [] {
      HasDash(d, s, words);
    } else if t != [] {
      HasDash(d', t, words);
    }
    assert Concat(s) == (d + Concat(s))[|d|..] && Concat(t) == (d' + Concat(t))[|d'|..];
  }

  // Splitting at the dashes reads a list of hashes back.
  lemma {:induction false} ListReadBack(s: seq<string>, t: seq<string>, words: seq<string>)
    requires Plain(words) && JoinsUnique(words) && AllHumanized(s, words) && AllHumanized(t, words)
    requires Concat(s) == Concat(t)
    ensures s == t
  {
    if s == [] {
      if t != [] { var a, x := FirstOfList(t, words); }
    } else if t == [] {
      var a, x := FirstOfList(s, words);
    } else {
      var a, b, c, d := WordsOf(s[0], words);
      var a', b', c', d' := WordsOf(t[0], words);
      Unfold(a, b, c, d, Concat(s[1..]));
      Unfold(a', b', c', d', Concat(t[1..]));
      FirstDash(a, a', b + ("-" + (c + ("-" + (d + Concat(s[1..]))))),
                b' + ("-" + (c' + ("-" + (d' + Concat(t[1..]))))));
      FirstDash(b, b', c + ("-" + (d + Concat(s[1..]))), c' + ("-" + (d' + Concat(t[1..]))));
      FirstDash(c, c', d + Concat(s[1..]), d' + Concat(t[1..]));
      LastWordKnown(d, d', s[1..], t[1..], words);
      ListReadBack(s[1..], t[1..], words);
      assert s == [s[0]] + s[1..] && t == [t[0]] + t[1..];
    }
  }

  lemma SortedHumanized(hs: seq<string>, words: seq<string>)
    requires AllHumanized(hs, words)
    ensures AllHumanized(Sort(hs), words) && multiset(Sort(hs)) == multiset(hs)
  {
    SortSorts(hs);
    forall h | h in Sort(hs) ensures Humanized(h, words) { assert h in multiset(hs); }
  }

  lemma HashesNoNewline(hs: seq<string>, words: seq<string>)
    requires Plain(words) && AllHumanized(hs, words)
    ensures forall h :: h in hs ==> NoNewline(h)
  {
    forall h | h in hs ensures NoNewline(h) { var a, b, c, d := WordsOf(h, words); }
  }

  // Of two different words the first in order, where each is followed by a dash.
  lemma DashOrder(a: string, b: string, x: string, y: string)
    requires '-' !in a && '-' !in b && a != b && Le(a + "-", b + "-")
    ensures Le(a + ("-" + x), b + ("-" + y))
  {
    if a == [] {
      assert (a + "-")[0] == '-' == (a + ("-" + x))[0] && b[0] == (b + "-")[0] == (b + ("-" + y))[0];
    } else if b == [] {
      assert (b + "-")[0] == '-' == (b + ("-" + y))[0] && a[0] == (a + "-")[0] == (a + ("-" + x))[0];
    } else {
      assert (a + "-")[0] == a[0] == (a + ("-" + x))[0] && (b + "-")[0] == b[0] == (b + ("-" + y))[0];
      assert (a + "-")[1..] == a[1..] + "-" && (b + "-")[1..] == b[1..] + "-";
      assert (a + ("-" + x))[1..] == a[1..] + ("-" + x) && (b + ("-" + y))[1..] == b[1..] + ("-" + y);
      assert a == [a[0]] + a[1..] && b == [b[0]] + b[1..];
      if a[0] == b[0] { DashOrder(a[1..], b[1..], x, y); }
    }
  }

  // w-w-w-d comes before m-m-m-m and before w-m-m-m.
  lemma WitnessSorted(w: string, m: string, d: string)
    requires '-' !in w && '-' !in m && w != m && Le(w + "-", m + "-")
    ensures Le(Hashed(w, w, w, d), Hashed(m, m, m, m)) && Le(Hashed(w, w, w, d), Hashed(w, m, m, m))
  {
    var x, y := w + ("-" + d), m + ("-" + m);
    FourParts(w, w, w, d);
    FourParts(m, m, m, m);
    FourParts(w, m, m, m);
    DashOrder(w, m, w + ("-" + x), m + ("-" + y));
    DashOrder(w, m, x, y);
    BehindDash(w, w + ("-" + x), m + ("-" + y));
  }

  lemma FourParts(a: string, b: string, c: string, d: string)
    ensures Hashed(a, b, c, d) == a + ("-" + (b + ("-" + (c + ("-" + d)))))
  {}

  lemma BehindDash(w: string, x: string, y: string)
    requires Le(x, y)
    ensures Le(w + ("-" + x), w + ("-" + y))
  {
    LePrefix(w + "-", x, y);
    assert w + "-" + x == w + ("-" + x) && w + "-" + y == w + ("-" + y);
  }

  lemma SortedStays(x: string, y: string)
    requires Le(x, y)
    ensures Sort([x, y]) == [x, y] && Concat([x, y]) == x + y
  {
    assert [x, y][1..] == [y] && Sort([y]) == [y] && Concat([y]) == y;
  }

  lemma BytesOfTwo(c: Call, x: string, y: string, sha: string -> string)
    requires c.files == [] && c.parents == [x, y] && Le(x, y)
    ensures Bytes(c, sha) == Some(x + y)
  {
    SortedStays(x, y);
    assert Lines([]) + (x + y) == x + y;
  }

  lemma OtherFirst(x: string, y: string, x': string, y': string)
    requires Le(x, y) && Le(x', y') && x != x'
    ensures multiset([x, y]) != multiset([x', y'])
  {
    assert [x, y][0] != [x', y'][0];
    if multiset([x, y]) == multiset([x', y']) { SortedUnique([x, y], [x', y']); }
  }

  lemma TwoLists(words: seq<string>, sha: string -> string, x: string, y: string, x': string, y': string)
    requires AllHumanized([x, y], words) && AllHumanized([x', y'], words)
    requires Le(x, y) && Le(x', y') && x + y == x' + y' && x != x'
    ensures !BytesDetermineParents(words, sha)
  {
    var c, c' := Call("", [], [x, y], _ => None), Call("", [], [x', y'], _ => None);
    BytesOfTwo(c, x, y, sha);
    BytesOfTwo(c', x', y', sha);
    OtherFirst(x, y, x', y');
    NotTold(c, c', words, sha);
  }

  lemma NotTold(c: Call, c': Call, words: seq<string>, sha: string -> string)
    requires AllHumanized(c.parents, words) && AllHumanized(c'.parents, words)
    requires Bytes(c, sha).Some? && Bytes(c, sha) == Bytes(c', sha) && multiset(c.parents) != multiset(c'.parents)
    ensures !BytesDetermineParents(words, sha)
  {
    assert !SameParents(c, c', words, sha);
  }

  lemma TwoHumanized(w: string, m: string, d: string, a: string, words: seq<string>)
    requires w in words && m in words && d in words && a in words
    ensures AllHumanized([Hashed(w, w, w, d), Hashed(a, m, m, m)], words)
  {
    FourWords(w, w, w, d, words);
    FourWords(a, m, m, m, words);
  }

  // A join read in two ways gives two lists of parents with the same bytes.
  lemma Confused(words: seq<string>, sha: string -> string, w: string, m: string, d: string, a: string, d': string,
                 a': string)
    requires Plain(words) && d in words && a in words && d' in words && a' in words
    requires d + a == d' + a' && d != d'
    requires (w == a && m == a') || (w == a' && m == a)
    requires Le(w + "-", m + "-")
    ensures !BytesDetermineParents(words, sha)
  {
    OtherSecond(d, a, d', a');
    TwoHumanized(w, m, d, a, words);
    TwoHumanized(w, m, d', a', words);
    WitnessSorted(w, m, d);
    WitnessSorted(w, m, d');
    SameJoin(w, m, d, a, d', a');
    TwoLists(words, sha, Hashed(w, w, w, d), Hashed(a, m, m, m), Hashed(w, w, w, d'), Hashed(a', m, m, m));
  }

  lemma OtherSecond(d: string, a: string, d': string, a': string)
    requires d + a == d' + a' && d != d'
    ensures a != a'
  {
    assert d == (d + a)[..|d|] && d' == (d' + a')[..|d'|];
  }

  lemma SameJoin(w: string, m: string, d: string, a: string, d': string, a': string)
    requires d + a == d' + a'
    ensures Hashed(w, w, w, d) + Hashed(a, m, m, m) == Hashed(w, w, w, d') + Hashed(a', m, m, m)
    ensures d != d' ==> Hashed(w, w, w, d) != Hashed(w, w, w, d')
  {
    var p, q := w + "-" + w + "-" + w + "-", "-" + m + "-" + m + "-" + m;
    assert Hashed(w, w, w, d) == p + d && Hashed(w, w, w, d') == p + d';
    assert Hashed(a, m, m, m) == a + q && Hashed(a', m, m, m) == a' + q;
    assert (p + d) + (a + q) == p + (d + a) + q && (p + d') + (a' + q) == p + (d' + a') + q;
    assert (p + d)[|p|..] == d && (p + d')[|p|..] == d';
  }

  lemma ReadBack(c: Call, c': Call, words: seq<string>, sha: string -> string)
    requires IsHexDigest(sha) && Plain(words) && JoinsUnique(words)
    ensures SameParents(c, c', words, sha)
  {
    if AllHumanized(c.parents, words) && AllHumanized(c'.parents, words) && Bytes(c, sha).Some? &&
       Bytes(c, sha) == Bytes(c', sha)
    {
      HashesNoNewline(c.parents, words);
      HashesNoNewline(c'.parents, words);
      StreamDeterminesFiles(c.base, c.files, c.parents, c.read, c'.base, c'.files, c'.parents, c'.read, sha);
      SortedHumanized(c.parents, words);
      SortedHumanized(c'.parents, words);
      ListReadBack(Sort(c.parents), Sort(c'.parents), words);
    }
  }

  // For any list of words without dash and newline: the bytes of a call determine the parents, up to their order,
  // iff joining two words, in whatever way the result can be read, tells the first one.
  lemma ParentsDeterminedIff(words: seq<string>, sha: string -> string)
    requires IsHexDigest(sha) && Plain(words)
    ensures BytesDetermineParents(words, sha) <==> JoinsUnique(words)
  {
    if JoinsUnique(words) {
      forall c: Call, c': Call ensures SameParents(c, c', words, sha) {
        ReadBack(c, c', words, sha);
      }
    } else {
      var d, a, d', a' :| d in words && a in words && d' in words && a' in words && d + a == d' + a' && d != d';
      LeTotal(a + "-", a' + "-");
      if Le(a + "-", a' + "-") {
        Confused(words, sha, a, a', d, a, d', a');
      } else {
        Confused(words, sha, a', a, d, a, d', a');
      }
    }
  }

  // ---- The hash does not depend on the place of the directory or on any order

  function Under(base: string, names: seq<string>): seq<string> {
    if names == [] then [] else [base + names[0]] + Under(base, names[1..])
  }

  lemma {:induction false} InsertUnder(base: string, x: string, names: seq<string>)
    ensures Insert(base + x, Under(base, names)) == Under(base, Insert(x, names))
  {
    if names != [] {
      LePrefix(base, x, names[0]);
      InsertUnder(base, x, names[1..]);
    }
  }

  // Sorting full names under one directory is sorting the relative names.
  lemma {:induction false} SortUnder(base: string, names: seq<string>)
    ensures Sort(Under(base, names)) == Under(base, Sort(names))
  {
    if names != [] {
      SortUnder(base, names[1..]);
      InsertUnder(base, names[0], Sort(names[1..]));
    }
  }

  lemma SortPermutation(s: seq<string>, t: seq<string>)
    requires multiset(s) == multiset(t)
    ensures Sort(s) == Sort(t)
  {
    SortSorts(s);
    SortSorts(t);
    SortedUnique(Sort(s), Sort(t));
  }

  lemma {:induction false} EntriesMoved(base: string, base': string, names: seq<string>, read: string -> Option<string>,
                                        read': string -> Option<string>, sha: string -> string)
    requires NoNewline(base) && NoNewline(base')
    requires forall n :: n in names ==> read(base + n) == read'(base' + n)
    ensures Entries(base, Under(base, names), read, sha) == Entries(base', Under(base', names), read', sha)
  {
    if names != [] {
      var n := names[0];
      assert (base + n)[|base|..] == n && (base' + n)[|base'|..] == n;
      assert '\n' in base + n <==> '\n' in n;
      assert '\n' in base' + n <==> '\n' in n;
      EntriesMoved(base, base', names[1..], read, read', sha);
    }
  }

  // The same relative files with the same contents, under any directory, listed in any order, with the parent
  // hashes in any order, have the same hash; and the one call fails iff the other does.
  lemma LocationIndependent(base: string, base': string, names: seq<string>, names': seq<string>,
                            parents: seq<string>, parents': seq<string>, words: seq<string>,
                            read: string -> Option<string>, read': string -> Option<string>,
                            sha: string -> string, humanize: Humanizer)
    requires NoNewline(base) && NoNewline(base')
    requires multiset(names) == multiset(names') && multiset(parents) == multiset(parents')
    requires forall n :: n in names ==> read(base + n) == read'(base' + n)
    ensures Hash(base, Under(base, names), parents, words, read, sha, humanize)
         == Hash(base', Under(base', names'), parents', words, read', sha, humanize)
  {
    SortUnder(base, names);
    SortUnder(base', names');
    SortPermutation(names, names');
    SortPermutation(parents, parents');
    SortSorts(names);
    forall n | n in Sort(names) ensures read(base + n) == read'(base' + n) { assert n in multiset(names); }
    EntriesMoved(base, base', Sort(names), read, read', sha);
  }

  lemma {:induction false} EntriesFail(base: string, files: seq<string>, read: string -> Option<string>,
                                       sha: string -> string)
    ensures Entries(base, files, read, sha).Some? <==>
      forall i :: 0 <= i < |files| ==> NoNewline(files[i]) && read(files[i]).Some?
  {
    if files != [] {
      EntriesFail(base, files[1..], read, sha);
      assert forall i :: 0 < i < |files| ==> files[i] == files[1..][i-1];
    }
  }

  // A newline in the directory name makes every non-empty context fail.
  lemma StreamFails(base: string, files: seq<string>, parents: seq<string>, read: string -> Option<string>,
                    sha: string -> string)
    ensures Stream(base, files, parents, read, sha).Some? <==> forall f :: f in files ==> NoNewline(f) && read(f).Some?
  {
    SortSorts(files);
    EntriesFail(base, Sort(files), read, sha);
    forall f ensures f in files <==> f in Sort(files) {
      assert f in multiset(files) <==> f in multiset(Sort(files));
    }
  }
}
