// Replacing words that contain no newline: a text is edited line by line.
module LineEdits {
  import opened Rewriting
  import opened BuildNode
  import Laws = RewritingLaws

  // ---- Lines

  function Join(lines: seq<string>): string {
    if lines == [] then "" else if |lines| == 1 then lines[0] else lines[0] + "\n" + Join(lines[1..])
  }

  predicate OneLine(s: string) { '\n' !in s }

  function Split(text: string): (lines: seq<string>)
    ensures lines != [] && forall i :: 0 <= i < |lines| ==> OneLine(lines[i])
  {
    if text == "" then [""]
    else
      var rest := Split(text[1..]);
      if text[0] == '\n' then [""] + rest else [[text[0]] + rest[0]] + rest[1..]
  }

  lemma {:induction false} SplitJoins(text: string)
    ensures Join(Split(text)) == text
  {
    if text != "" {
      var rest := Split(text[1..]);
      SplitJoins(text[1..]);
      assert text == [text[0]] + text[1..];
      if text[0] == '\n' {
        assert Split(text)[1..] == rest;
        assert "" + "\n" + Join(rest) == [text[0]] + Join(rest);
      } else {
        HeadLonger([text[0]], rest);
      }
    }
  }

  lemma HeadLonger(a: string, lines: seq<string>)
    requires lines != []
    ensures Join([a + lines[0]] + lines[1..]) == a + Join(lines)
  {
    var longer := [a + lines[0]] + lines[1..];
    assert longer[1..] == lines[1..];
    if |lines| > 1 { assert (a + lines[0]) + "\n" + Join(lines[1..]) == a + (lines[0] + "\n" + Join(lines[1..])); }
  }

  // ---- One replacement

  lemma ReplaceAcross(a: string, b: string, u: string, x: string)
    requires u != "" && OneLine(u)
    ensures ReplaceAll(a + "\n" + b, u, x) == ReplaceAll(a, u, x) + "\n" + ReplaceAll(b, u, x)
  {
    Laws.ReplaceApart(a + "\n", b, u, x, {'\n'});
    Laws.ReplaceApart(a, "\n", u, x, {'\n'});
    Laws.OneDelimiter("\n", u, x, {'\n'});
  }

  function ReplaceEach(lines: seq<string>, u: string, x: string): seq<string> {
    seq(|lines|, i requires 0 <= i < |lines| => ReplaceAll(lines[i], u, x))
  }

  lemma {:induction false} ReplaceLines(lines: seq<string>, u: string, x: string)
    requires u != "" && OneLine(u)
    ensures ReplaceAll(Join(lines), u, x) == Join(ReplaceEach(lines, u, x))
  {
    if |lines| > 1 {
      ReplaceAcross(lines[0], Join(lines[1..]), u, x);
      ReplaceLines(lines[1..], u, x);
      assert ReplaceEach(lines, u, x)[1..] == ReplaceEach(lines[1..], u, x);
    }
  }

  lemma {:induction false} ReplaceSame(s: string, u: string)
    requires u != ""
    ensures ReplaceAll(s, u, u) == s
    decreases |s|
  {
    if |s| >= |u| {
      if u <= s { ReplaceSame(s[|u|..], u); } else { ReplaceSame(s[1..], u); }
    }
  }

  // Replacing by a word that is not shorter shortens nothing, and one that is not longer lengthens nothing.
  lemma {:induction false} ReplaceLength(s: string, u: string, x: string)
    requires u != ""
    ensures |u| <= |x| ==> |s| <= |ReplaceAll(s, u, x)|
    ensures |x| <= |u| ==> |ReplaceAll(s, u, x)| <= |s|
    decreases |s|
  {
    if |s| >= |u| {
      if u <= s { ReplaceLength(s[|u|..], u, x); } else { ReplaceLength(s[1..], u, x); }
    }
  }

  lemma ReplaceMoves(s: string, u: string, x: string)
    requires u != "" && u <= s
    ensures u != x ==> ReplaceAll(s, u, x) != s
  {
    var t := ReplaceAll(s[|u|..], u, x);
    ReplaceLength(s[|u|..], u, x);
    assert s == u + s[|u|..] && s[..|u|] == u;
    if |x| == |u| { assert (x + t)[..|u|] == x; }
  }

  // A word that is replaced by another one leaves a trace.
  lemma {:induction false} ReplaceChanges(s: string, u: string, x: string)
    requires u != "" && u != x && ReplaceAll(s, u, x) == s
    ensures !Contains(s, u)
    decreases |s|
  {
    if |s| >= |u| {
      if u <= s {
        ReplaceMoves(s, u, x);
        assert false;
      } else {
        assert s == [s[0]] + s[1..];
        ReplaceChanges(s[1..], u, x);
        assert StartsAt(s, u, 0) ==> u <= s;
        forall i: nat ensures !StartsAt(s, u, i) {
          if i > 0 { StartsShift(s, u, i - 1); }
        }
      }
    }
  }

  // ---- Texts with equal joins

  ghost predicate NotShorter(a: seq<string>, b: seq<string>) {
    |a| == |b| && forall i :: 0 <= i < |a| ==> |b[i]| <= |a[i]|
  }

  lemma {:induction false} JoinLength(a: seq<string>, b: seq<string>)
    requires NotShorter(a, b)
    ensures |Join(b)| <= |Join(a)|
  {
    if |a| > 1 { JoinLength(a[1..], b[1..]); }
  }

  lemma {:induction false} JoinEqual(a: seq<string>, b: seq<string>)
    requires NotShorter(a, b) && Join(a) == Join(b)
    ensures a == b
  {
    if |a| > 1 {
      JoinLength(a[1..], b[1..]);
      assert |a[0]| == |b[0]|;
      var s := Join(a);
      assert a[0] == s[..|a[0]|] && b[0] == s[..|a[0]|];
      assert Join(a[1..]) == s[|a[0]|+1..] && Join(b[1..]) == s[|a[0]|+1..];
      JoinEqual(a[1..], b[1..]);
      assert a == [a[0]] + a[1..] && b == [b[0]] + b[1..];
    } else if |a| == 1 {
      assert a == [a[0]] && b == [b[0]];
    }
  }

  lemma EachEqual(lines: seq<string>, shown: seq<string>, u: string, x: string)
    requires u != "" && |shown| == |lines| && Join(ReplaceEach(lines, u, x)) == Join(shown)
    requires forall i :: 0 <= i < |lines| ==> shown[i] == lines[i] || shown[i] == ReplaceAll(lines[i], u, x)
    ensures ReplaceEach(lines, u, x) == shown
  {
    forall i | 0 <= i < |lines|
      ensures |u| <= |x| ==> |shown[i]| <= |ReplaceAll(lines[i], u, x)|
      ensures |x| <= |u| ==> |ReplaceAll(lines[i], u, x)| <= |shown[i]|
    {
      ReplaceLength(lines[i], u, x);
    }
    if |u| <= |x| { JoinEqual(ReplaceEach(lines, u, x), shown); } else { JoinEqual(shown, ReplaceEach(lines, u, x)); }
  }

  // ---- Many replacements

  // A line, what it is to become, and the pair that does it; |pairs| if none.
  datatype Row = Row(before: string, after: string, owner: nat)

  predicate ProperRow(r: Row, pairs: seq<Pair>) {
    if r.owner < |pairs| then
      ReplaceAll(r.before, pairs[r.owner].key, pairs[r.owner].val) == r.after
    else r.after == r.before
  }

  predicate ProperPairs(pairs: seq<Pair>) {
    forall k :: 0 <= k < |pairs| ==> pairs[k].key != "" && OneLine(pairs[k].key)
  }

  ghost predicate ProperRows(rows: seq<Row>, pairs: seq<Pair>) {
    forall i :: 0 <= i < |rows| ==> ProperRow(rows[i], pairs)
  }

  // The line once the pairs of order have been walked.
  function ShownBy(r: Row, order: seq<nat>): string { if r.owner in order then r.after else r.before }

  function Shown(rows: seq<Row>, order: seq<nat>): seq<string> {
    seq(|rows|, i requires 0 <= i < |rows| => ShownBy(rows[i], order))
  }

  // No pair but the owner finds its word in the line, neither before nor after.
  ghost predicate Untouched(r: Row, pairs: seq<Pair>) {
    forall k :: 0 <= k < |pairs| && k != r.owner && pairs[k].key != pairs[k].val ==>
      !Contains(r.before, pairs[k].key) && !Contains(r.after, pairs[k].key)
  }

  lemma RowStep(r: Row, pairs: seq<Pair>, order: seq<nat>, k: nat)
    requires ProperPairs(pairs) && ProperRow(r, pairs) && Untouched(r, pairs) && k < |pairs| && k !in order
    ensures ReplaceAll(ShownBy(r, order), pairs[k].key, pairs[k].val) == ShownBy(r, order + [k])
  {
    if k != r.owner {
      if pairs[k].key == pairs[k].val {
        ReplaceSame(ShownBy(r, order), pairs[k].key);
      } else {
        ReplaceAbsent(ShownBy(r, order), pairs[k].key, pairs[k].val);
      }
    }
  }

  lemma {:induction false} RowsWalked(rows: seq<Row>, pairs: seq<Pair>, order: seq<nat>)
    requires ProperPairs(pairs) && ProperRows(rows, pairs) && DistinctBelow(order, |pairs|)
    requires forall i :: 0 <= i < |rows| ==> Untouched(rows[i], pairs)
    ensures ReplacePairs(Join(Shown(rows, [])), pairs, order) == Join(Shown(rows, order))
  {
    if order != [] {
      var front, k := order[..|order|-1], order[|order|-1];
      assert order == front + [k] && k !in front;
      RowsWalked(rows, pairs, front);
      ReplaceAppend(Join(Shown(rows, [])), pairs, front, k);
      ReplaceLines(Shown(rows, front), pairs[k].key, pairs[k].val);
      forall i | 0 <= i < |rows|
        ensures ReplaceAll(Shown(rows, front)[i], pairs[k].key, pairs[k].val) == Shown(rows, order)[i]
      {
        RowStep(rows[i], pairs, front, k);
      }
      assert ReplaceEach(Shown(rows, front), pairs[k].key, pairs[k].val) == Shown(rows, order);
    }
  }

  // Whatever part of the pairs is walked, in whatever order, exactly the lines of their owners change.
  ghost predicate EditsRows(rows: seq<Row>, pairs: seq<Pair>) {
    forall order :: DistinctBelow(order, |pairs|) ==>
      ReplacePairs(Join(Shown(rows, [])), pairs, order) == Join(Shown(rows, order))
  }

  lemma NextWalked(rows: seq<Row>, pairs: seq<Pair>, order: seq<nat>, k: nat, i: nat)
    requires ProperPairs(pairs) && ProperRows(rows, pairs) && EditsRows(rows, pairs)
    requires DistinctBelow(order + [k], |pairs|)
    requires DistinctBelow(order, |pairs|) && k < |pairs| && k !in order && i < |rows|
    ensures ReplaceAll(ShownBy(rows[i], order), pairs[k].key, pairs[k].val) == ShownBy(rows[i], order + [k])
  {
    var u, x, now, next := pairs[k].key, pairs[k].val, Shown(rows, order), Shown(rows, order + [k]);
    assert ReplacePairs(Join(Shown(rows, [])), pairs, order) == Join(now);
    assert ReplacePairs(Join(Shown(rows, [])), pairs, order + [k]) == Join(next);
    ReplaceAppend(Join(Shown(rows, [])), pairs, order, k);
    ReplaceLines(now, u, x);
    forall j | 0 <= j < |now| ensures next[j] == now[j] || next[j] == ReplaceAll(now[j], u, x) {
      assert ProperRow(rows[j], pairs);
    }
    EachEqual(now, next, u, x);
    assert ReplaceEach(now, u, x)[i] == next[i];
  }

  // That is so iff no pair finds its word in a line of another pair or of none.
  lemma EditsRowsIff(rows: seq<Row>, pairs: seq<Pair>)
    requires ProperPairs(pairs) && ProperRows(rows, pairs)
    ensures EditsRows(rows, pairs) <==> forall i :: 0 <= i < |rows| ==> Untouched(rows[i], pairs)
  {
    if forall i :: 0 <= i < |rows| ==> Untouched(rows[i], pairs) {
      forall order | DistinctBelow(order, |pairs|)
        ensures ReplacePairs(Join(Shown(rows, [])), pairs, order) == Join(Shown(rows, order))
      {
        RowsWalked(rows, pairs, order);
      }
    }
    if EditsRows(rows, pairs) {
      forall i | 0 <= i < |rows| ensures Untouched(rows[i], pairs) { RowUntouched(rows, pairs, i); }
    }
  }

  lemma RowUntouched(rows: seq<Row>, pairs: seq<Pair>, i: nat)
    requires ProperPairs(pairs) && ProperRows(rows, pairs) && EditsRows(rows, pairs) && i < |rows|
    ensures Untouched(rows[i], pairs)
  {
    var r := rows[i];
    forall k | 0 <= k < |pairs| && k != r.owner && pairs[k].key != pairs[k].val
      ensures !Contains(r.before, pairs[k].key) && !Contains(r.after, pairs[k].key)
    {
      assert [] + [k] == [k];
      NextWalked(rows, pairs, [], k, i);
      ReplaceChanges(r.before, pairs[k].key, pairs[k].val);
      if r.owner < |pairs| {
        NextWalked(rows, pairs, [r.owner], k, i);
        ReplaceChanges(r.after, pairs[k].key, pairs[k].val);
      }
    }
  }
}
