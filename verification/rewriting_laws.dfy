// Conditions on the pairs and on the text under which ResetFile undoes ReplaceInFile.
module RewritingLaws {
  import opened Rewriting

  // ---- Independent words: every text can be read, and the round trip is exact

  // A proper end of w is a proper beginning of u.
  ghost predicate Overlap(w: string, u: string) {
    exists k: nat :: 0 < k < |w| && k < |u| && w[|w|-k..] == u[..k]
  }

  // No word ends as another one begins; only a key may end as it begins itself.
  ghost predicate Independent(pairs: seq<Pair>) {
    && PairsApart(pairs, true)
    && (forall i, j, f, f' :: 0 <= i < |pairs| && 0 <= j < |pairs| && (i != j || f || f') ==>
          !Overlap(Word(pairs[i], f), Word(pairs[j], f')))
  }

  // No word starts anywhere in t, even if s follows.
  ghost predicate Plain(pairs: seq<Pair>, t: string, s: string) {
    forall m, f, i: nat :: 0 <= m < |pairs| && i < |t| ==> !StartsAt(t + s, Word(pairs[m], f), i)
  }

  lemma GapOfPlain(pairs: seq<Pair>, prev: int, t: string, s: string, next: int, nextVal: bool)
    requires Independent(pairs) && prev < |pairs| && next < |pairs| && Plain(pairs, t, s)
    requires next >= 0 ==> Word(pairs[next], nextVal) <= s
    ensures GapApart(pairs, true, prev, t, next, nextVal)
  {
    forall m, f, a, b | 0 <= m < |pairs| && !(nextVal && next == m && !f && !b)
      ensures !Contains(Tail(pairs, prev, a, Word(pairs[m], f)) + t + Front(pairs, next, b), Word(pairs[m], f))
    {
      forall i: nat
        ensures !StartsAt(Tail(pairs, prev, a, Word(pairs[m], f)) + t + Front(pairs, next, b), Word(pairs[m], f), i)
      {
        NotInGap(pairs, prev, t, s, next, nextVal, m, f, a, b, i);
      }
    }
  }

  lemma NotFromTail(pairs: seq<Pair>, prev: int, t: string, next: int, m: nat, f: bool, a: bool, b: bool, i: nat)
    requires Independent(pairs) && prev < |pairs| && next < |pairs| && m < |pairs|
    requires i < |Tail(pairs, prev, a, Word(pairs[m], f))|
    ensures !StartsAt(Tail(pairs, prev, a, Word(pairs[m], f)) + t + Front(pairs, next, b), Word(pairs[m], f), i)
  {
    var u, v := Word(pairs[m], f), Word(pairs[prev], a);
    var before := Tail(pairs, prev, a, u);
    FromTail(v, t + Front(pairs, next, b), u, i);
    assert before + t + Front(pairs, next, b) == before + (t + Front(pairs, next, b));
    assert !Overlap(v, u) && !Contains(v, u);
  }

  lemma NotInGap(pairs: seq<Pair>, prev: int, t: string, s: string, next: int, nextVal: bool, m: nat, f: bool, a: bool,
                 b: bool, i: nat)
    requires Independent(pairs) && prev < |pairs| && next < |pairs| && m < |pairs| && Plain(pairs, t, s)
    requires next >= 0 ==> Word(pairs[next], nextVal) <= s
    requires !(nextVal && next == m && !f && !b)
    ensures !StartsAt(Tail(pairs, prev, a, Word(pairs[m], f)) + t + Front(pairs, next, b), Word(pairs[m], f), i)
  {
    var u := Word(pairs[m], f);
    var before, w := Tail(pairs, prev, a, u), if next < 0 then [] else Word(pairs[next], b);
    var g := before + t + Front(pairs, next, b);
    assert u != [];
    if i < |before| {
      NotFromTail(pairs, prev, t, next, m, f, a, b, i);
    } else if i < |before| + |t| {
      assert !StartsAt(t + s, u, i - |before|);
      if next == m && !f && !b {
        FromTextHere(before, t, s, u, i, w);
      } else {
        FromText(before, t, s, u, i, w);
        assert next >= 0 ==> !Overlap(u, w);
      }
    } else {
      FromFront(before + t, u, i, w);
      assert next >= 0 && w != u ==> !Contains(w, u);
    }
  }

  lemma FromTail(w: string, r: string, u: string, i: nat)
    requires w != [] && u != [] && i < |w| - 1
    ensures StartsAt(w[1..] + r, u, i) ==> Contains(w, u) || Overlap(w, u)
  {
    if StartsAt(w[1..] + r, u, i) {
      if i + 1 + |u| <= |w| {
        assert w[i+1..i+1+|u|] == (w[1..] + r)[i..i+|u|];
        assert StartsAt(w, u, i + 1);
      } else {
        var k := |w| - 1 - i;
        assert w[|w|-k..] == (w[1..] + r)[i..i+k];
        assert u[..k] == (w[1..] + r)[i..i+|u|][..k];
        assert Overlap(w, u);
      }
    }
  }

  // w is the word whose front follows the text; empty if there is none.
  lemma FromText(before: string, t: string, s: string, u: string, i: nat, w: string)
    requires |before| <= i < |before| + |t| && u != []
    ensures var after := if w == [] then [] else w[..|w|-1];
      StartsAt(before + t + after, u, i) ==> StartsAt(t + s, u, i - |before|) || Overlap(u, w)
  {
    var after := if w == [] then [] else w[..|w|-1];
    var g, j := before + t + after, i - |before|;
    if StartsAt(g, u, i) {
      if j + |u| <= |t| {
        assert (t + s)[j..j+|u|] == g[i..i+|u|];
      } else {
        var k := j + |u| - |t|;
        assert u[|u|-k..] == g[i..i+|u|][|u|-k..] == after[..k];
        assert after[..k] == w[..k];
        assert Overlap(u, w);
      }
    }
  }

  // The word that follows is the one that stands there.
  lemma FromTextHere(before: string, t: string, s: string, u: string, i: nat, w: string)
    requires |before| <= i < |before| + |t| && w != [] && w <= s
    ensures StartsAt(before + t + w[..|w|-1], u, i) ==> StartsAt(t + s, u, i - |before|)
  {
    var g, j := before + t + w[..|w|-1], i - |before|;
    if i + |u| <= |g| {
      var tw := t + w[..|w|-1];
      assert g == before + tw && tw == (t + s)[..|tw|];
      assert g[i..i+|u|] == tw[j..j+|u|] == (t + s)[j..j+|u|];
    }
  }

  lemma FromFront(g: string, u: string, i: nat, w: string)
    requires |g| <= i && u != []
    ensures StartsAt(g + (if w == [] then [] else w[..|w|-1]), u, i) ==> |u| < |w| && Contains(w, u)
  {
    var after := if w == [] then [] else w[..|w|-1];
    if StartsAt(g + after, u, i) {
      var j := i - |g|;
      assert w[j..j+|u|] == (g + after)[i..i+|u|];
      assert StartsAt(w, u, j);
    }
  }

  lemma PlainGrows(pairs: seq<Pair>, t: string, s: string)
    requires Plain(pairs, t, s) && s != [] && forall k, f :: 0 <= k < |pairs| ==> !(Word(pairs[k], f) <= s)
    ensures Plain(pairs, t + [s[0]], s[1..]) && t + [s[0]] + s[1..] == t + s
  {
    var t', s' := t + [s[0]], s[1..];
    assert t' + s' == t + s;
    forall m, f, i: nat | 0 <= m < |pairs| && i < |t'| ensures !StartsAt(t' + s', Word(pairs[m], f), i) {
      if i == |t| {
        assert (t + s)[|t|..] == s;
        StartsSuffix(t + s, Word(pairs[m], f), i);
      }
    }
  }

  lemma ReadWord(pairs: seq<Pair>, t: string, s: string, k: nat, f: bool, rest: Pieces)
    requires k < |pairs| && Word(pairs[k], f) <= s && InPairs(rest, |pairs|)
    requires Original(rest, pairs) == [] + s[|Word(pairs[k], f)|..]
    ensures Original(Piece(t, k, f, rest), pairs) == t + s
  {
    var w := Word(pairs[k], f);
    assert s == w + s[|w|..] && [] + s[|w|..] == s[|w|..];
    assert t + w + s[|w|..] == t + (w + s[|w|..]);
  }

  // Reading a text from left to right; t is the plain text met since the last word.
  lemma {:induction false} Read(pairs: seq<Pair>, prev: int, t: string, s: string) returns (p: Pieces)
    requires Independent(pairs) && prev < |pairs| && Plain(pairs, t, s)
    ensures InPairs(p, |pairs|) && Original(p, pairs) == t + s && Gaps(p, pairs, true, prev)
    decreases |s|
  {
    if k, f :| 0 <= k < |pairs| && Word(pairs[k], f) <= s {
      GapOfPlain(pairs, prev, t, s, k, f);
      var rest := Read(pairs, k, [], s[|Word(pairs[k], f)|..]);
      ReadWord(pairs, t, s, k, f, rest);
      p := Piece(t, k, f, rest);
    } else if s == [] {
      p := End(t);
      GapOfPlain(pairs, prev, t, s, -1, false);
    } else {
      PlainGrows(pairs, t, s);
      p := Read(pairs, prev, t + [s[0]], s[1..]);
    }
  }

  // For independent words the round trip restores a text, in all orders, iff no value occurs in it,
  // and the replaced text does not depend on the order.
  lemma RoundTripExact(pairs: seq<Pair>, s: string, order: seq<nat>, order': seq<nat>)
    requires Independent(pairs) && IsOrder(order, |pairs|) && IsOrder(order', |pairs|)
    ensures ReplacePairs(s, pairs, order) == ReplacePairs(s, pairs, order')
    ensures ResetPairs(ReplacePairs(s, pairs, order), pairs, order') == s <==> !ValueOccurs(s, pairs)
  {
    var p := Read(pairs, -1, [], s);
    assert [] + s == s;
    RoundTrip(p, pairs, true, order, order');
    RoundTrip(p, pairs, true, order', order);
    if NoValues(p) {
      forall j: nat, i: nat | j < |pairs| && i <= |s| ensures !StartsAt(s, pairs[j].val, i) {
        NoValueWord(p, j);
        AbsentWord(p, pairs, -1, j, true, i);
      }
    } else {
      ValuesDiffer(p, pairs);
      ShownWord(p, pairs);
    }
  }

  // A pair that was replaced and not reset leaves its mark, if its key occurs.
  lemma PartlyReset(pairs: seq<Pair>, s: string, order: seq<nat>, order': seq<nat>, k: nat)
    requires Independent(pairs) && !ValueOccurs(s, pairs)
    requires (forall i :: 0 <= i < |order| ==> order[i] < |pairs|)
    requires (forall i, j :: 0 <= i < j < |order| ==> order[i] != order[j])
    requires (forall i :: 0 <= i < |order'| ==> order'[i] in order)
    requires (forall i, j :: 0 <= i < j < |order'| ==> order'[i] != order'[j])
    requires k in order && k !in order' && k < |pairs| && Contains(s, pairs[k].key)
    ensures forall i :: 0 <= i < |order'| ==> order'[i] < |pairs|
    ensures ResetPairs(ReplacePairs(s, pairs, order), pairs, order') != s
  {
    forall i | 0 <= i < |order'| ensures order'[i] < |pairs| { assert order'[i] in order; }
    var p := Read(pairs, -1, [], s);
    assert [] + s == s;
    if !NoValues(p) { ShownWord(p, pairs); }
    var replaced := Marked(All(|pairs|, Orig), order, Up);
    ReplaceOrder(p, pairs, true, All(|pairs|, Orig), order);
    ResetOrder(p, pairs, true, replaced, order');
    if !HasWord(p, k, false) {
      forall i: nat | i <= |s| ensures !StartsAt(s, pairs[k].key, i) { AbsentWord(p, pairs, -1, k, false, i); }
      assert false;
    }
    ShownDiffers(p, pairs, Marked(replaced, order', Down), k);
  }

  // ---- Delimited words: what references between blanks are

  ghost predicate Free(s: string, delims: set<char>) {
    forall i :: 0 <= i < |s| ==> s[i] !in delims
  }

  // The keys stand between delimiters or at the ends of the text, and the plain text holds no word.
  ghost predicate Delimited(p: Pieces, pairs: seq<Pair>, delims: set<char>, first: bool)
    requires InPairs(p, |pairs|)
  {
    && (forall m, f :: 0 <= m < |pairs| ==> !Contains(p.text, Word(pairs[m], f)))
    && (first || (p.text == [] && p.End?) || (p.text != [] && p.text[0] in delims))
    && (p.Piece? ==>
          && !p.isVal
          && (p.text == [] || p.text[|p.text|-1] in delims)
          && Delimited(p.rest, pairs, delims, false))
  }

  lemma NotAcross(l: string, r: string, u: string, delims: set<char>, i: nat)
    requires u != [] && Free(u, delims)
    requires l == [] || r == [] || l[|l|-1] in delims || r[0] in delims
    ensures StartsAt(l + r, u, i) ==> Contains(l, u) || Contains(r, u)
  {
    var g := l + r;
    if StartsAt(g, u, i) {
      if i + |u| <= |l| {
        assert l[i..i+|u|] == g[i..i+|u|];
        assert StartsAt(l, u, i);
      } else if i >= |l| {
        assert r[i-|l|..i-|l|+|u|] == g[i..i+|u|];
        assert StartsAt(r, u, i - |l|);
      } else {
        BothSides(l, r, u, i);
        assert false;
      }
    }
  }

  lemma BothSides(l: string, r: string, u: string, i: nat)
    requires StartsAt(l + r, u, i) && i < |l| < i + |u|
    ensures r != [] && l[|l|-1] in u && r[0] in u
  {
    var g := l + r;
    assert u[|l|-i] == g[i..i+|u|][|l|-i] == r[0];
    assert u[|l|-1-i] == g[i..i+|u|][|l|-1-i] == l[|l|-1];
  }

  lemma NotAcrossText(before: string, t: string, after: string, u: string, delims: set<char>)
    requires u != [] && Free(u, delims)
    requires before == [] || (after == [] && t == []) || (t != [] && t[0] in delims)
    requires after == [] || t == [] || t[|t|-1] in delims
    requires !Contains(before, u) && !Contains(t, u) && !Contains(after, u)
    ensures !Contains(before + t + after, u)
  {
    assert before + t + after == before + (t + after);
    forall i: nat ensures !StartsAt(t + after, u, i) { NotAcross(t, after, u, delims, i); }
    forall i: nat ensures !StartsAt(before + (t + after), u, i) { NotAcross(before, t + after, u, delims, i); }
  }

  lemma TailWithout(pairs: seq<Pair>, prev: int, f: bool, u: string)
    requires prev < |pairs| && u != []
    requires prev >= 0 ==> Word(pairs[prev], f) == u || !Contains(Word(pairs[prev], f), u)
    ensures !Contains(Tail(pairs, prev, f, u), u)
  {
    if prev >= 0 {
      var w := Word(pairs[prev], f);
      if w != u && w != [] {
        assert w[1..|w|] == w[1..];
        ContainsPart(w, u, 1, |w|);
      }
    }
  }

  lemma FrontWithout(pairs: seq<Pair>, next: int, f: bool, u: string)
    requires next < |pairs| && u != []
    requires next >= 0 ==> Word(pairs[next], f) == u || !Contains(Word(pairs[next], f), u)
    ensures !Contains(Front(pairs, next, f), u)
  {
    if next >= 0 {
      var w := Word(pairs[next], f);
      if w != [] {
        assert w[0..|w|-1] == w[..|w|-1];
        ContainsPart(w, u, 0, |w| - 1);
      }
    }
  }

  lemma {:induction false} DelimitedGaps(p: Pieces, pairs: seq<Pair>, delims: set<char>, prev: int)
    requires InPairs(p, |pairs|) && prev < |pairs| && PairsApart(pairs, false)
    requires forall m, f :: 0 <= m < |pairs| ==> Free(Word(pairs[m], f), delims)
    requires Delimited(p, pairs, delims, prev < 0)
    ensures Gaps(p, pairs, false, prev) && NoValues(p)
    decreases p
  {
    var next := if p.End? then -1 else p.pair;
    forall m, f, a, b | 0 <= m < |pairs| && (prev == m ==> a == f) && (next == m ==> b == f)
      ensures !Contains(Tail(pairs, prev, a, Word(pairs[m], f)) + p.text + Front(pairs, next, b), Word(pairs[m], f))
    {
      var u := Word(pairs[m], f);
      var before, after := Tail(pairs, prev, a, u), Front(pairs, next, b);
      TailWithout(pairs, prev, a, u);
      FrontWithout(pairs, next, b, u);
      NotAcrossText(before, p.text, after, u, delims);
    }
    if p.Piece? { DelimitedGaps(p.rest, pairs, delims, p.pair); }
  }

  // References between delimiters are restored whatever letters they begin and end with, and even when a key is
  // part of its own value.
  lemma RoundTripDelimited(p: Pieces, pairs: seq<Pair>, delims: set<char>, order: seq<nat>, order': seq<nat>)
    requires InPairs(p, |pairs|) && PairsApart(pairs, false) && IsOrder(order, |pairs|) && IsOrder(order', |pairs|)
    requires forall m, f :: 0 <= m < |pairs| ==> Free(Word(pairs[m], f), delims)
    requires Delimited(p, pairs, delims, true)
    ensures ResetPairs(ReplacePairs(Original(p, pairs), pairs, order), pairs, order') == Original(p, pairs)
    ensures ReplacePairs(Original(p, pairs), pairs, order) == Render(p, pairs, All(|pairs|, Up))
  {
    DelimitedGaps(p, pairs, delims, -1);
    RoundTrip(p, pairs, false, order, order');
  }

  // What follows a word: nothing, or a delimiter.
  ghost predicate Ends(r: string, delims: set<char>) { r == [] || r[0] in delims }

  lemma FirstWordKnown(w: string, w': string, r: string, r': string, delims: set<char>)
    requires Free(w, delims) && Free(w', delims) && Ends(r, delims) && Ends(r', delims) && w + r == w' + r'
    ensures w == w'
  {
    var s := w + r;
    assert forall i :: 0 <= i < |w| ==> s[i] == w[i];
    assert forall i :: 0 <= i < |w'| ==> s[i] == w'[i];
    assert |w| < |s| ==> s[|w|] in delims;
    assert |w'| < |s| ==> s[|w'|] in delims;
    assert w == s[..|w|] && w' == s[..|w'|];
  }

  lemma RestEnds(p: Pieces, pairs: seq<Pair>, delims: set<char>, modes: seq<Mode>)
    requires InPairs(p, |pairs|) && |modes| == |pairs| && Delimited(p, pairs, delims, false)
    ensures Ends(Render(p, pairs, modes), delims)
  {}

  // A text of delimited keys of which some key shows its value is another text.
  lemma {:induction false} DelimitedShown(p: Pieces, pairs: seq<Pair>, delims: set<char>, first: bool, modes: seq<Mode>,
                                          k: nat)
    requires InPairs(p, |pairs|) && Delimited(p, pairs, delims, first) && |modes| == |pairs|
    requires forall m, f :: 0 <= m < |pairs| ==> Free(Word(pairs[m], f), delims)
    requires forall m :: 0 <= m < |pairs| ==> pairs[m].key != pairs[m].val
    requires k < |pairs| && modes[k] == Up && HasWord(p, k, false)
    ensures Render(p, pairs, modes) != Original(p, pairs)
    decreases p
  {
    var t, w, w' := p.text, pairs[p.pair].key, Word(pairs[p.pair], Shows(modes[p.pair], false));
    var r, r' := Original(p.rest, pairs), Render(p.rest, pairs, modes);
    assert (t + w + r)[|t|..] == w + r && (t + w' + r')[|t|..] == w' + r';
    if Shows(modes[p.pair], false) {
      RestEnds(p.rest, pairs, delims, All(|pairs|, Orig));
      RestEnds(p.rest, pairs, delims, modes);
      assert w == Word(pairs[p.pair], false);
      if w + r == w' + r' { FirstWordKnown(w, w', r, r', delims); }
    } else {
      DelimitedShown(p.rest, pairs, delims, false, modes, k);
      assert (w + r)[|w|..] == r && (w' + r')[|w|..] == r';
    }
  }

  // The same for delimited keys as PartlyReset for independent words.
  lemma PartlyResetDelimited(p: Pieces, pairs: seq<Pair>, delims: set<char>, order: seq<nat>, order': seq<nat>, k: nat)
    requires InPairs(p, |pairs|) && PairsApart(pairs, false) && Delimited(p, pairs, delims, true)
    requires forall m, f :: 0 <= m < |pairs| ==> Free(Word(pairs[m], f), delims)
    requires forall m :: 0 <= m < |pairs| ==> pairs[m].key != pairs[m].val
    requires forall i :: 0 <= i < |order| ==> order[i] < |pairs|
    requires forall i, j :: 0 <= i < j < |order| ==> order[i] != order[j]
    requires forall i :: 0 <= i < |order'| ==> order'[i] in order
    requires forall i, j :: 0 <= i < j < |order'| ==> order'[i] != order'[j]
    requires k in order && k !in order' && k < |pairs| && HasWord(p, k, false)
    ensures forall i :: 0 <= i < |order'| ==> order'[i] < |pairs|
    ensures ResetPairs(ReplacePairs(Original(p, pairs), pairs, order), pairs, order') != Original(p, pairs)
  {
    forall i | 0 <= i < |order'| ensures order'[i] < |pairs| { assert order'[i] in order; }
    DelimitedGaps(p, pairs, delims, -1);
    var replaced := Marked(All(|pairs|, Orig), order, Up);
    ReplaceOrder(p, pairs, false, All(|pairs|, Orig), order);
    ResetOrder(p, pairs, false, replaced, order');
    DelimitedShown(p, pairs, delims, true, Marked(replaced, order', Down), k);
  }

  // ---- Delimited parts of a text are rewritten each for itself

  lemma HeadMatch(l: string, r: string, u: string, delims: set<char>)
    requires u != [] && Free(u, delims) && l != [] && (l[|l|-1] in delims || Ends(r, delims))
    ensures u <= l + r <==> u <= l
  {
    var s := l + r;
    assert |u| <= |l| ==> s[..|u|] == l[..|u|];
    if u <= s && |l| < |u| { BothSides(l, r, u, 0); }
  }

  lemma HitApart(l: string, r: string, u: string, x: string)
    requires u != [] && u <= l
    ensures var l' := l[|u|..];
      ReplaceAll(l, u, x) == x + ReplaceAll(l', u, x) && ReplaceAll(l + r, u, x) == x + ReplaceAll(l' + r, u, x)
  {
    var l' := l[|u|..];
    assert l == u + l' && l + r == u + (l' + r);
    ReplaceHits(l', u, x);
    ReplaceHits(l' + r, u, x);
  }

  lemma StepApart(l: string, r: string, u: string, x: string)
    requires u != [] && l != [] && !(u <= l) && !(u <= l + r)
    ensures ReplaceAll(l, u, x) == [l[0]] + ReplaceAll(l[1..], u, x)
    ensures ReplaceAll(l + r, u, x) == [l[0]] + ReplaceAll(l[1..] + r, u, x)
  {
    assert (l + r)[1..] == l[1..] + r && (l + r)[0] == l[0];
    assert l[0..] == l && (l + r)[0..] == l + r;
    StartsSuffix(l, u, 0);
    StartsSuffix(l + r, u, 0);
    ReplaceStep(l, u, x);
    ReplaceStep(l + r, u, x);
  }

  lemma Regroup(a: string, b: string, c: string)
    ensures a + (b + c) == a + b + c
  {}

  lemma {:induction false} ReplaceApart(l: string, r: string, u: string, x: string, delims: set<char>)
    requires u != [] && Free(u, delims) && (l == [] || l[|l|-1] in delims || Ends(r, delims))
    ensures ReplaceAll(l + r, u, x) == ReplaceAll(l, u, x) + ReplaceAll(r, u, x)
    decreases |l|
  {
    if l == [] {
      assert l + r == r;
    } else {
      HeadMatch(l, r, u, delims);
      if u <= l {
        HitApart(l, r, u, x);
        ReplaceApart(l[|u|..], r, u, x, delims);
        Regroup(x, ReplaceAll(l[|u|..], u, x), ReplaceAll(r, u, x));
      } else {
        StepApart(l, r, u, x);
        ReplaceApart(l[1..], r, u, x, delims);
        Regroup([l[0]], ReplaceAll(l[1..], u, x), ReplaceAll(r, u, x));
      }
    }
  }

  // A text keeps the delimiter at its end, and the one at its beginning.
  lemma DelimitersStay(s: string, u: string, x: string, delims: set<char>)
    requires u != [] && Free(u, delims)
    ensures s != [] && s[|s|-1] in delims ==>
      ReplaceAll(s, u, x) != [] && ReplaceAll(s, u, x)[|ReplaceAll(s, u, x)|-1] in delims
    ensures Ends(s, delims) ==> Ends(ReplaceAll(s, u, x), delims)
  {
    if s != [] && s[|s|-1] in delims {
      var c := [s[|s|-1]];
      assert s == s[..|s|-1] + c;
      ReplaceApart(s[..|s|-1], c, u, x, delims);
      OneDelimiter(c, u, x, delims);
    }
    if s != [] && s[0] in delims {
      assert u[0] !in delims;
      ReplaceStep(s, u, x);
    }
  }

  lemma OneDelimiter(c: string, u: string, x: string, delims: set<char>)
    requires |c| == 1 && c[0] in delims && u != [] && Free(u, delims)
    ensures ReplaceAll(c, u, x) == c
  {
    assert u[0] !in delims;
    ReplaceStep(c, u, x);
    assert c[1..] == [];
  }

  // The part between l and r is rewritten as if it stood alone.
  lemma {:induction false} ReplacePart(l: string, w: string, r: string, pairs: seq<Pair>, delims: set<char>,
                                       order: seq<nat>)
    requires forall i :: 0 <= i < |order| ==> order[i] < |pairs|
    requires forall m :: 0 <= m < |pairs| ==> pairs[m].key != [] && Free(pairs[m].key, delims)
    requires l == [] || l[|l|-1] in delims
    requires Ends(r, delims)
    ensures ReplacePairs(l + (w + r), pairs, order)
         == ReplacePairs(l, pairs, order) + (ReplacePairs(w, pairs, order) + ReplacePairs(r, pairs, order))
    decreases |order|
  {
    if order != [] {
      var u, x := pairs[order[0]].key, pairs[order[0]].val;
      ReplaceApart(l, w + r, u, x, delims);
      ReplaceApart(w, r, u, x, delims);
      DelimitersStay(l, u, x, delims);
      DelimitersStay(r, u, x, delims);
      assert l == [] ==> ReplaceAll(l, u, x) == [];
      ReplacePart(ReplaceAll(l, u, x), ReplaceAll(w, u, x), ReplaceAll(r, u, x), pairs, delims, order[1..]);
    }
  }
}
