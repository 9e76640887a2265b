// ReplaceInFile and ResetFile: when does the second undo the first, whatever order the map is walked in?
module Rewriting {

  // ---- strings.ReplaceAll

  function Interleave(s: string, x: string): string {
    if s == [] then x else x + [s[0]] + Interleave(s[1..], x)
  }

  // Leftmost matches, without overlap; the empty string matches before every character and at the end.
  function ReplaceAll(s: string, u: string, x: string): string {
    if u == [] then Interleave(s, x)
    else if |s| < |u| then s
    else if u <= s then x + ReplaceAll(s[|u|..], u, x)
    else [s[0]] + ReplaceAll(s[1..], u, x)
  }

  lemma EmptyMatches(x: string)
    ensures ReplaceAll("ab", "", x) == x + "a" + x + "b" + x
  {
    assert Interleave("b", x) == x + "b" + x;
    assert x + "a" + (x + "b" + x) == x + "a" + x + "b" + x;
  }

  predicate StartsAt(s: string, u: string, i: nat) {
    i + |u| <= |s| && s[i..i + |u|] == u
  }

  predicate Contains(s: string, u: string) {
    exists i: nat :: i <= |s| && StartsAt(s, u, i)
  }

  lemma StartsShift(s: string, u: string, i: nat)
    requires s != []
    ensures StartsAt(s[1..], u, i) <==> StartsAt(s, u, i + 1)
  {
    if i + 1 + |u| <= |s| { assert s[1..][i..i+|u|] == s[i+1..i+1+|u|]; }
  }

  lemma {:induction false} ReplaceSkips(a: string, b: string, u: string, x: string)
    requires u != [] && forall i: nat :: i < |a| ==> !StartsAt(a + b, u, i)
    ensures ReplaceAll(a + b, u, x) == a + ReplaceAll(b, u, x)
  {
    if a == [] {
      assert a + b == b;
    } else {
      assert !StartsAt(a + b, u, 0);
      assert (a + b)[1..] == a[1..] + b;
      forall i: nat | i < |a[1..]| ensures !StartsAt(a[1..] + b, u, i) { StartsShift(a + b, u, i); }
      ReplaceSkips(a[1..], b, u, x);
      ReplaceStep(a + b, u, x);
      HeadBack(a, ReplaceAll(b, u, x));
    }
  }

  lemma HeadBack(a: string, r: string)
    requires a != []
    ensures [a[0]] + (a[1..] + r) == a + r
  {}

  lemma ReplaceStep(s: string, u: string, x: string)
    requires u != [] && s != [] && !StartsAt(s, u, 0)
    ensures ReplaceAll(s, u, x) == [s[0]] + ReplaceAll(s[1..], u, x)
  {
    assert u <= s <==> StartsAt(s, u, 0);
    assert |s| < |u| ==> ReplaceAll(s[1..], u, x) == s[1..];
  }

  lemma ReplaceHits(b: string, u: string, x: string)
    requires u != []
    ensures ReplaceAll(u + b, u, x) == x + ReplaceAll(b, u, x)
  {
    assert (u + b)[|u|..] == b;
  }

  lemma ReplaceAbsent(s: string, u: string, x: string)
    requires u != [] && !Contains(s, u)
    ensures ReplaceAll(s, u, x) == s
  {
    assert s + [] == s;
    ReplaceSkips(s, [], u, x);
  }

  lemma ContainsPart(s: string, u: string, i: nat, j: nat)
    requires i <= j <= |s|
    ensures Contains(s[i..j], u) ==> Contains(s, u)
  {
    if k: nat :| k <= |s[i..j]| && StartsAt(s[i..j], u, k) {
      var part := s[i..j][k..k+|u|];
      assert |part| == |u| && forall m :: 0 <= m < |u| ==> part[m] == s[i+k..i+k+|u|][m];
      assert StartsAt(s, u, i + k);
    }
  }

  // ---- A text seen as plain pieces between words

  // A key of the map and its value.
  datatype Pair = Pair(key: string, val: string)

  function Word(p: Pair, isVal: bool): string { if isVal then p.val else p.key }

  // A text: plain text, then a word (the key or the value of a pair), and so on.
  datatype Pieces = End(text: string) | Piece(text: string, pair: nat, isVal: bool, rest: Pieces)

  // What the words of a pair currently show: as in the original, all replaced, or all reset.
  datatype Mode = Orig | Up | Down

  function Shows(m: Mode, isVal: bool): bool {
    match m case Orig => isVal case Up => true case Down => false
  }

  ghost predicate InPairs(p: Pieces, n: nat) {
    p.Piece? ==> p.pair < n && InPairs(p.rest, n)
  }

  function Render(p: Pieces, pairs: seq<Pair>, modes: seq<Mode>): string
    requires InPairs(p, |pairs|) && |modes| == |pairs|
  {
    match p
    case End(t) => t
    case Piece(t, k, isVal, rest) => t + Word(pairs[k], Shows(modes[k], isVal)) + Render(rest, pairs, modes)
  }

  ghost predicate NoValues(p: Pieces) {
    p.Piece? ==> !p.isVal && NoValues(p.rest)
  }

  // No word contains a word of another pair; if strict, nor the other word of its own pair.
  ghost predicate PairsApart(pairs: seq<Pair>, strict: bool) {
    && (forall i, f :: 0 <= i < |pairs| ==> Word(pairs[i], f) != [])
    && (forall i, j, f, f' :: 0 <= i < |pairs| && 0 <= j < |pairs| && (i != j || (strict && f != f')) ==>
          !Contains(Word(pairs[i], f), Word(pairs[j], f')))
  }

  // The place of a plain text: the words around it, where -1 stands for none.
  function Tail(pairs: seq<Pair>, prev: int, f: bool, u: string): string
    requires prev < |pairs|
  {
    if prev < 0 then [] else
      var w := Word(pairs[prev], f);
      if w == u || w == [] then [] else w[1..]
  }

  function Front(pairs: seq<Pair>, next: int, f: bool): string
    requires next < |pairs|
  {
    if next < 0 then [] else
      var w := Word(pairs[next], f);
      if w == [] then [] else w[..|w|-1]
  }

  // No word begins or ends in this plain text, whichever words are shown around it. Unless strict,
  // the two words of one pair need not be considered together. Where the original has a value, its key is
  // shown only when it is no longer looked for.
  ghost predicate GapApart(pairs: seq<Pair>, strict: bool, prev: int, t: string, next: int, nextVal: bool)
    requires prev < |pairs| && next < |pairs|
  {
    forall m, f, a, b {:trigger Word(pairs[m], f), Tail(pairs, prev, a, Word(pairs[m], f)), Front(pairs, next, b)} ::
      0 <= m < |pairs| && (strict || ((prev == m ==> a == f) && (next == m ==> b == f))) &&
      !(nextVal && next == m && !f && !b) ==>
        !Contains(Tail(pairs, prev, a, Word(pairs[m], f)) + t + Front(pairs, next, b), Word(pairs[m], f))
  }

  ghost predicate Gaps(p: Pieces, pairs: seq<Pair>, strict: bool, prev: int)
    requires InPairs(p, |pairs|) && prev < |pairs|
  {
    match p
    case End(t) => GapApart(pairs, strict, prev, t, -1, false)
    case Piece(t, k, isVal, rest) => GapApart(pairs, strict, prev, t, k, isVal) && Gaps(rest, pairs, strict, k)
  }

  // The pieces are a fair reading of the text: words are met nowhere but where the pieces say.
  ghost predicate Fits(p: Pieces, pairs: seq<Pair>, strict: bool) {
    InPairs(p, |pairs|) && PairsApart(pairs, strict) && Gaps(p, pairs, strict, -1) && (strict || NoValues(p))
  }

  // ---- One replacement

  // The words of pair j that show f now show the other word.
  ghost predicate Flips(p: Pieces, modes: seq<Mode>, modes': seq<Mode>, j: nat, f: bool)
    requires InPairs(p, |modes|) && |modes| == |modes'|
  {
    p.Piece? ==>
      && (var now, then_ := Shows(modes[p.pair], p.isVal), Shows(modes'[p.pair], p.isVal);
          if p.pair == j && now == f then then_ == !f else then_ == now)
      && Flips(p.rest, modes, modes', j, f)
  }

  // Unless strict, all words of pair j show f.
  ghost predicate OneSided(p: Pieces, modes: seq<Mode>, j: nat, f: bool)
    requires InPairs(p, |modes|)
  {
    p.Piece? ==> (p.pair == j ==> Shows(modes[j], p.isVal) == f) && OneSided(p.rest, modes, j, f)
  }

  lemma NoStart(p: Pieces, pairs: seq<Pair>, modes: seq<Mode>, strict: bool, prev: int, a: bool, j: nat, f: bool,
                i: nat)
    requires InPairs(p, |pairs|) && |modes| == |pairs| && j < |pairs| && prev < |pairs|
    requires f || modes[j] != Down
    requires PairsApart(pairs, strict) && Gaps(p, pairs, strict, prev)
    requires strict || (OneSided(p, modes, j, f) && (prev == j ==> a == f))
    requires var before := Tail(pairs, prev, a, Word(pairs[j], f)); i < |before| + |p.text|
    ensures !StartsAt(Tail(pairs, prev, a, Word(pairs[j], f)) + Render(p, pairs, modes), Word(pairs[j], f), i)
  {
    var u := Word(pairs[j], f);
    var before := Tail(pairs, prev, a, u);
    var s := before + Render(p, pairs, modes);
    if p.End? {
      assert Front(pairs, -1, false) == [] && before + p.text + [] == s;
      assert StartsAt(s, u, i) ==> Contains(s, u);
    } else {
      var b := Shows(modes[p.pair], p.isVal);
      var w, rest := Word(pairs[p.pair], b), Render(p.rest, pairs, modes);
      assert Front(pairs, p.pair, b) == w[..|w|-1];
      assert s == before + p.text + w + rest;
      if i + |u| <= |before| + |p.text| + |w| - 1 {
        InGap(before + p.text, w, rest, u, i);
      } else {
        CoversWord(before + p.text, w, rest, u, i);
      }
    }
  }

  lemma InGap(g: string, w: string, r: string, u: string, i: nat)
    requires w != [] && i + |u| <= |g| + |w| - 1
    ensures StartsAt(g + w + r, u, i) ==> Contains(g + w[..|w|-1], u)
  {
    assert (g + w + r)[i..i+|u|] == (g + w[..|w|-1])[i..i+|u|];
    assert StartsAt(g + w + r, u, i) ==> StartsAt(g + w[..|w|-1], u, i);
  }

  lemma CoversWord(g: string, w: string, r: string, u: string, i: nat)
    requires i < |g| && i + |u| >= |g| + |w|
    ensures StartsAt(g + w + r, u, i) ==> Contains(u, w) && |u| > |w|
  {
    if StartsAt(g + w + r, u, i) {
      var k := |g| - i;
      assert u[k..k+|w|] == (g + w + r)[|g|..|g|+|w|] == w;
      assert StartsAt(u, w, k);
    }
  }

  lemma StartsBehind(a: string, b: string, u: string, i: nat)
    ensures StartsAt(b, u, i) ==> StartsAt(a + b, u, |a| + i)
  {
    if i + |u| <= |b| { assert (a + b)[|a|+i..|a|+i+|u|] == b[i..i+|u|]; }
  }

  lemma ContainsItself(u: string)
    ensures Contains(u, u)
  {
    assert StartsAt(u, u, 0);
  }

  lemma SameStart(w: string, r: string, u: string)
    ensures StartsAt(w + r, u, 0) ==> Contains(w, u) || Contains(u, w)
  {
    if StartsAt(w + r, u, 0) {
      if |u| <= |w| {
        assert w[..|u|] == (w + r)[..|u|];
        assert StartsAt(w, u, 0);
      } else {
        assert u[..|w|] == (w + r)[..|w|];
        assert StartsAt(u, w, 0);
      }
    }
  }

  lemma ReplaceHere(t: string, r: string, u: string, x: string)
    requires u != [] && forall i: nat :: i < |t| ==> !StartsAt(t + u + r, u, i)
    ensures ReplaceAll(t + u + r, u, x) == t + x + ReplaceAll(r, u, x)
  {
    assert t + u + r == t + (u + r);
    ReplaceSkips(t, u + r, u, x);
    ReplaceHits(r, u, x);
  }

  lemma ReplacePast(s: string, t: string, w: string, r: string, u: string, x: string)
    requires u != [] && s == t + (w + r)
    requires forall i: nat :: i < |t| ==> !StartsAt(s, u, i)
    requires forall i: nat :: i < |w| ==> !StartsAt(w + r, u, i)
    ensures ReplaceAll(s, u, x) == t + w + ReplaceAll(r, u, x)
  {
    ReplaceSkips(t, w + r, u, x);
    ReplaceSkips(w, r, u, x);
    assert t + (w + ReplaceAll(r, u, x)) == t + w + ReplaceAll(r, u, x);
  }

  lemma WordsApart(pairs: seq<Pair>, strict: bool, k: nat, now: bool, j: nat, f: bool)
    requires PairsApart(pairs, strict) && k < |pairs| && j < |pairs| && (k != j || (strict && now != f))
    ensures var w, u := Word(pairs[k], now), Word(pairs[j], f); !Contains(w, u) && !Contains(u, w)
  {}

  // Words other than u are passed over.
  lemma PassWord(p: Pieces, pairs: seq<Pair>, modes: seq<Mode>, strict: bool, j: nat, f: bool, i: nat)
    requires p.Piece? && InPairs(p, |pairs|) && |modes| == |pairs| && j < |pairs|
    requires f || modes[j] != Down
    requires PairsApart(pairs, strict) && Gaps(p.rest, pairs, strict, p.pair)
    requires strict || OneSided(p, modes, j, f)
    requires var now := Shows(modes[p.pair], p.isVal); (p.pair != j || now != f) && i < |Word(pairs[p.pair], now)|
    ensures !StartsAt(Word(pairs[p.pair], Shows(modes[p.pair], p.isVal)) + Render(p.rest, pairs, modes),
                      Word(pairs[j], f), i)
  {
    var u, now := Word(pairs[j], f), Shows(modes[p.pair], p.isVal);
    var w, r := Word(pairs[p.pair], now), Render(p.rest, pairs, modes);
    assert p.pair == j ==> strict;
    WordsApart(pairs, strict, p.pair, now, j, f);
    if i == 0 {
      SameStart(w, r, u);
    } else {
      assert w != u by { ContainsItself(u); }
      assert Tail(pairs, p.pair, now, u) == w[1..];
      NoStart(p.rest, pairs, modes, strict, p.pair, now, j, f, i - 1);
      assert (w + r)[1..] == w[1..] + r;
      StartsShift(w + r, u, i - 1);
    }
  }

  lemma PassText(p: Pieces, pairs: seq<Pair>, modes: seq<Mode>, strict: bool, prev: int, j: nat, f: bool, i: nat)
    requires InPairs(p, |pairs|) && |modes| == |pairs| && j < |pairs| && prev < |pairs|
    requires f || modes[j] != Down
    requires PairsApart(pairs, strict) && Gaps(p, pairs, strict, prev)
    requires strict || OneSided(p, modes, j, f)
    requires i < |p.text|
    ensures !StartsAt(Render(p, pairs, modes), Word(pairs[j], f), i)
  {
    var before := Tail(pairs, prev, f, Word(pairs[j], f));
    NoStart(p, pairs, modes, strict, prev, f, j, f, |before| + i);
    StartsBehind(before, Render(p, pairs, modes), Word(pairs[j], f), i);
  }

  // Replacing one word of pair j by the other changes exactly the places where the pieces have it.
  lemma {:induction false} ReplaceFlips(p: Pieces, pairs: seq<Pair>, modes: seq<Mode>, modes': seq<Mode>, strict: bool,
                                        prev: int, j: nat, f: bool)
    requires InPairs(p, |pairs|) && |modes| == |modes'| == |pairs| && j < |pairs| && prev < |pairs|
    requires f || modes[j] != Down
    requires PairsApart(pairs, strict) && Gaps(p, pairs, strict, prev)
    requires strict || OneSided(p, modes, j, f)
    requires Flips(p, modes, modes', j, f)
    ensures ReplaceAll(Render(p, pairs, modes), Word(pairs[j], f), Word(pairs[j], !f)) == Render(p, pairs, modes')
    decreases p
  {
    var u, x, s := Word(pairs[j], f), Word(pairs[j], !f), Render(p, pairs, modes);
    forall i: nat | i < |p.text| ensures !StartsAt(s, u, i) { PassText(p, pairs, modes, strict, prev, j, f, i); }
    match p
    case End(t) =>
      assert t + [] == s;
      ReplaceSkips(t, [], u, x);
    case Piece(t, k, isVal, rest) =>
      var w, r := Word(pairs[k], Shows(modes[k], isVal)), Render(rest, pairs, modes);
      ReplaceFlips(rest, pairs, modes, modes', strict, k, j, f);
      if k == j && Shows(modes[k], isVal) == f {
        ReplaceHere(t, r, u, x);
      } else {
        forall i: nat | i < |w| ensures !StartsAt(w + r, u, i) { PassWord(p, pairs, modes, strict, j, f, i); }
        assert s == t + (w + r);
        ReplacePast(s, t, w, r, u, x);
      }
  }

  // ---- All pairs, in any order

  // ReplaceInFile and ResetFile without the file; order is the order in which the map yields its pairs.
  function ReplacePairs(s: string, pairs: seq<Pair>, order: seq<nat>): string
    requires forall i :: 0 <= i < |order| ==> order[i] < |pairs|
    decreases |order|
  {
    if order == [] then s else ReplacePairs(ReplaceAll(s, pairs[order[0]].key, pairs[order[0]].val), pairs, order[1..])
  }

  function ResetPairs(s: string, pairs: seq<Pair>, order: seq<nat>): string
    requires forall i :: 0 <= i < |order| ==> order[i] < |pairs|
    decreases |order|
  {
    if order == [] then s else ResetPairs(ReplaceAll(s, pairs[order[0]].val, pairs[order[0]].key), pairs, order[1..])
  }

  ghost predicate IsOrder(order: seq<nat>, n: nat) {
    && (forall i :: 0 <= i < |order| ==> order[i] < n)
    && (forall i, j :: 0 <= i < j < |order| ==> order[i] != order[j])
    && (forall k: nat :: k < n ==> k in order)
  }

  function All(n: nat, m: Mode): seq<Mode> { seq(n, _ => m) }

  lemma {:induction false} FlipOf(p: Pieces, modes: seq<Mode>, j: nat, strict: bool)
    requires InPairs(p, |modes|) && j < |modes| && (strict || NoValues(p))
    ensures modes[j] == Orig ==> Flips(p, modes, modes[j := Up], j, false) && (strict || OneSided(p, modes, j, false))
    ensures modes[j] == Up ==> Flips(p, modes, modes[j := Down], j, true) && (strict || OneSided(p, modes, j, true))
  {
    if p.Piece? { FlipOf(p.rest, modes, j, strict); }
  }

  // The modes after the pairs of order have been walked.
  function Marked(modes: seq<Mode>, order: seq<nat>, m: Mode): seq<Mode> {
    seq(|modes|, k requires 0 <= k < |modes| => if k in order then m else modes[k])
  }

  // Any part of the pairs, in any order.
  lemma {:induction false} ReplaceOrder(p: Pieces, pairs: seq<Pair>, strict: bool, modes: seq<Mode>, order: seq<nat>)
    requires Fits(p, pairs, strict) && |modes| == |pairs|
    requires forall i :: 0 <= i < |order| ==> order[i] < |pairs| && modes[order[i]] == Orig
    requires forall i, j :: 0 <= i < j < |order| ==> order[i] != order[j]
    ensures ReplacePairs(Render(p, pairs, modes), pairs, order) == Render(p, pairs, Marked(modes, order, Up))
    decreases |order|
  {
    if order == [] {
      assert Marked(modes, order, Up) == modes;
    } else {
      var j := order[0];
      FlipOf(p, modes, j, strict);
      ReplaceFlips(p, pairs, modes, modes[j := Up], strict, -1, j, false);
      assert forall k :: k in order <==> k == j || k in order[1..];
      ReplaceOrder(p, pairs, strict, modes[j := Up], order[1..]);
      assert Marked(modes[j := Up], order[1..], Up) == Marked(modes, order, Up);
    }
  }

  lemma {:induction false} ResetOrder(p: Pieces, pairs: seq<Pair>, strict: bool, modes: seq<Mode>, order: seq<nat>)
    requires Fits(p, pairs, strict) && |modes| == |pairs|
    requires forall i :: 0 <= i < |order| ==> order[i] < |pairs| && modes[order[i]] == Up
    requires forall i, j :: 0 <= i < j < |order| ==> order[i] != order[j]
    ensures ResetPairs(Render(p, pairs, modes), pairs, order) == Render(p, pairs, Marked(modes, order, Down))
    decreases |order|
  {
    if order == [] {
      assert Marked(modes, order, Down) == modes;
    } else {
      var j := order[0];
      FlipOf(p, modes, j, strict);
      ReplaceFlips(p, pairs, modes, modes[j := Down], strict, -1, j, true);
      assert forall k :: k in order <==> k == j || k in order[1..];
      ResetOrder(p, pairs, strict, modes[j := Down], order[1..]);
      assert Marked(modes[j := Down], order[1..], Down) == Marked(modes, order, Down);
    }
  }

  function Original(p: Pieces, pairs: seq<Pair>): string
    requires InPairs(p, |pairs|)
  {
    Render(p, pairs, All(|pairs|, Orig))
  }

  lemma {:induction false} NoValuesDown(p: Pieces, pairs: seq<Pair>)
    requires InPairs(p, |pairs|) && NoValues(p)
    ensures Render(p, pairs, All(|pairs|, Down)) == Original(p, pairs)
  {
    if p.Piece? { NoValuesDown(p.rest, pairs); }
  }

  lemma {:induction false} ValuesDiffer(p: Pieces, pairs: seq<Pair>)
    requires InPairs(p, |pairs|) && PairsApart(pairs, true) && !NoValues(p)
    ensures Render(p, pairs, All(|pairs|, Down)) != Original(p, pairs)
  {
    var t, k, v := p.text, pairs[p.pair].key, pairs[p.pair].val;
    var r, r' := Render(p.rest, pairs, All(|pairs|, Orig)), Render(p.rest, pairs, All(|pairs|, Down));
    if p.isVal {
      assert !Contains(Word(pairs[p.pair], true), Word(pairs[p.pair], false));
      assert !Contains(Word(pairs[p.pair], false), Word(pairs[p.pair], true));
      SameStart(v, r, k);
      assert (t + v + r)[|t|..] == v + r && (t + k + r')[|t|..] == k + r';
      assert StartsAt(k + r', k, 0);
    } else {
      ValuesDiffer(p.rest, pairs);
      assert (t + k + r)[|t|+|k|..] == r && (t + k + r')[|t|+|k|..] == r';
    }
  }

  // Some piece has this word of pair j.
  predicate HasWord(p: Pieces, j: nat, f: bool) {
    p.Piece? && ((p.pair == j && p.isVal == f) || HasWord(p.rest, j, f))
  }

  lemma {:induction false} NoValueWord(p: Pieces, j: nat)
    requires NoValues(p)
    ensures !HasWord(p, j, true)
  {
    if p.Piece? { NoValueWord(p.rest, j); }
  }

  // A word that no piece has does not occur at all.
  lemma {:induction false} AbsentWord(p: Pieces, pairs: seq<Pair>, prev: int, j: nat, f: bool, i: nat)
    requires InPairs(p, |pairs|) && j < |pairs| && prev < |pairs| && !HasWord(p, j, f)
    requires PairsApart(pairs, true) && Gaps(p, pairs, true, prev)
    requires i <= |Original(p, pairs)|
    ensures !StartsAt(Original(p, pairs), Word(pairs[j], f), i)
    decreases p
  {
    var modes, s, u := All(|pairs|, Orig), Original(p, pairs), Word(pairs[j], f);
    assert u != [];
    if i < |p.text| {
      PassText(p, pairs, modes, true, prev, j, f, i);
    } else if p.Piece? {
      var w, r := Word(pairs[p.pair], p.isVal), Original(p.rest, pairs);
      assert s == p.text + (w + r);
      assert s[i..] == (w + r)[i - |p.text|..];
      StartsSuffix(s, u, i);
      StartsSuffix(w + r, u, i - |p.text|);
      if i < |p.text| + |w| {
        PassWord(p, pairs, modes, true, j, f, i - |p.text|);
      } else {
        AbsentWord(p.rest, pairs, p.pair, j, f, i - |p.text| - |w|);
        assert (w + r)[i - |p.text|..] == r[i - |p.text| - |w|..];
        StartsSuffix(r, u, i - |p.text| - |w|);
      }
    }
  }

  // A text without values of which some key shows its value is another text.
  lemma {:induction false} ShownDiffers(p: Pieces, pairs: seq<Pair>, modes: seq<Mode>, k: nat)
    requires InPairs(p, |pairs|) && PairsApart(pairs, true) && |modes| == |pairs| && NoValues(p)
    requires k < |pairs| && modes[k] == Up && HasWord(p, k, false)
    ensures Render(p, pairs, modes) != Original(p, pairs)
  {
    var t, q, shown := p.text, pairs[p.pair], Shows(modes[p.pair], false);
    var r, r' := Original(p.rest, pairs), Render(p.rest, pairs, modes);
    if shown {
      assert !Contains(Word(q, true), Word(q, false)) && !Contains(Word(q, false), Word(q, true));
      SameStart(q.val, r', q.key);
      assert (t + q.val + r')[|t|..] == q.val + r' && (t + q.key + r)[|t|..] == q.key + r;
      assert StartsAt(q.key + r, q.key, 0);
    } else {
      ShownDiffers(p.rest, pairs, modes, k);
      assert (t + q.key + r)[|t|+|q.key|..] == r && (t + q.key + r')[|t|+|q.key|..] == r';
    }
  }

  lemma StartsSuffix(s: string, u: string, i: nat)
    requires i <= |s|
    ensures StartsAt(s, u, i) <==> u <= s[i..]
  {
    if i + |u| <= |s| { assert s[i..][..|u|] == s[i..i+|u|]; }
  }

  lemma {:induction false} ShownWord(p: Pieces, pairs: seq<Pair>)
    requires InPairs(p, |pairs|) && !NoValues(p)
    ensures exists j: nat :: j < |pairs| && Contains(Original(p, pairs), pairs[j].val)
  {
    var s, w, r := Original(p, pairs), Word(pairs[p.pair], p.isVal), Original(p.rest, pairs);
    assert s == p.text + w + r;
    if p.isVal {
      assert StartsAt(s, w, |p.text|);
    } else {
      ShownWord(p.rest, pairs);
      var j: nat :| j < |pairs| && Contains(r, pairs[j].val);
      assert s[|p.text + w|..|s|] == r;
      ContainsPart(s, pairs[j].val, |p.text + w|, |s|);
    }
  }

  ghost predicate ValueOccurs(s: string, pairs: seq<Pair>) {
    exists j: nat :: j < |pairs| && Contains(s, pairs[j].val)
  }

  // On a text read without values: the same replaced text for every order, and every reset order restores it.
  lemma RoundTrip(p: Pieces, pairs: seq<Pair>, strict: bool, order: seq<nat>, order': seq<nat>)
    requires Fits(p, pairs, strict) && IsOrder(order, |pairs|) && IsOrder(order', |pairs|)
    ensures ReplacePairs(Original(p, pairs), pairs, order) == Render(p, pairs, All(|pairs|, Up))
    ensures ResetPairs(ReplacePairs(Original(p, pairs), pairs, order), pairs, order')
         == Render(p, pairs, All(|pairs|, Down))
    ensures NoValues(p) ==>
      ResetPairs(ReplacePairs(Original(p, pairs), pairs, order), pairs, order') == Original(p, pairs)
  {
    ReplaceOrder(p, pairs, strict, All(|pairs|, Orig), order);
    ResetOrder(p, pairs, strict, All(|pairs|, Up), order');
    assert Marked(All(|pairs|, Orig), order, Up) == All(|pairs|, Up);
    assert Marked(All(|pairs|, Up), order', Down) == All(|pairs|, Down);
    if NoValues(p) { NoValuesDown(p, pairs); }
  }
}
