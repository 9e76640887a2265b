// The Dockerfile around a build: references to parents are rewritten before and restored after.
module BuildNode {
  import opened Wrappers
  import opened Rewriting
  import Laws = RewritingLaws
  import opened Refs
  import opened Graphs

  // A file on disk. works(k) tells whether the k-th read or write succeeds.
  class File {
    const works: nat -> bool
    var ops: nat
    var text: string

    constructor (text: string, works: nat -> bool)
      ensures this.text == text && ops == 0 && this.works == works
    {
      this.text, this.works, ops := text, works, 0;
    }

    method Replace(previous: string, next: string) returns (ok: bool)
      modifies this
      ensures text == if ok then ReplaceAll(old(text), previous, next) else old(text)
      ensures ok <==> works(old(ops)) && works(old(ops) + 1)
      ensures ops == old(ops) + if works(old(ops)) then 2 else 1
    {
      ops := ops + 1;
      if !works(ops - 1) { return false; }
      ops := ops + 1;
      if !works(ops - 1) { return false; }
      text := ReplaceAll(text, previous, next);
      ok := true;
    }
  }

  // pairs lists the entries of the map, each once.
  ghost predicate Lists(pairs: seq<Pair>, diff: map<string, string>) {
    && (forall i :: 0 <= i < |pairs| ==> pairs[i].key in diff && diff[pairs[i].key] == pairs[i].val)
    && (forall i, j :: 0 <= i < j < |pairs| ==> pairs[i].key != pairs[j].key)
    && (forall k :: k in diff ==> exists i :: 0 <= i < |pairs| && pairs[i].key == k)
  }

  lemma {:induction false} Listed(diff: map<string, string>) returns (pairs: seq<Pair>)
    ensures Lists(pairs, diff)
    decreases |diff|
  {
    if diff == map[] {
      pairs := [];
    } else {
      var k :| k in diff;
      pairs := Listed(diff - {k});
      ListsMore(pairs, diff, k);
      pairs := pairs + [Pair(k, diff[k])];
    }
  }

  lemma ListsMore(pairs: seq<Pair>, diff: map<string, string>, k: string)
    requires k in diff && Lists(pairs, diff - {k})
    ensures Lists(pairs + [Pair(k, diff[k])], diff)
  {
    var more := pairs + [Pair(k, diff[k])];
    forall x | x in diff ensures exists i :: 0 <= i < |more| && more[i].key == x {
      if x == k {
        assert more[|pairs|].key == x;
      } else {
        assert x in diff - {k};
        var i :| 0 <= i < |pairs| && pairs[i].key == x;
        assert more[i].key == x;
      }
    }
  }

  ghost predicate DistinctBelow(order: seq<nat>, n: nat) {
    && (forall i :: 0 <= i < |order| ==> order[i] < n)
    && (forall i, j :: 0 <= i < j < |order| ==> order[i] != order[j])
  }

  lemma {:induction false} ReplaceAppend(s: string, pairs: seq<Pair>, order: seq<nat>, j: nat)
    requires DistinctBelow(order, |pairs|) && j < |pairs|
    ensures ReplacePairs(s, pairs, order + [j]) == ReplaceAll(ReplacePairs(s, pairs, order), pairs[j].key, pairs[j].val)
    ensures ResetPairs(s, pairs, order + [j]) == ReplaceAll(ResetPairs(s, pairs, order), pairs[j].val, pairs[j].key)
    decreases |order|
  {
    if order == [] {
      assert order + [j] == [j];
    } else {
      assert (order + [j])[1..] == order[1..] + [j];
      ReplaceAppend(ReplaceAll(s, pairs[order[0]].key, pairs[order[0]].val), pairs, order[1..], j);
      ReplaceAppend(ReplaceAll(s, pairs[order[0]].val, pairs[order[0]].key), pairs, order[1..], j);
    }
  }

  // The pairs still in the map are those not yet in the order.
  ghost predicate Remaining(pairs: seq<Pair>, rest: set<string>, order: seq<nat>) {
    && DistinctBelow(order, |pairs|)
    && forall i: nat :: i < |pairs| ==> (pairs[i].key in rest <==> i !in order)
  }

  lemma RemainingStep(pairs: seq<Pair>, diff: map<string, string>, rest: set<string>, order: seq<nat>, j: nat)
    requires Lists(pairs, diff) && Remaining(pairs, rest, order) && j < |pairs| && pairs[j].key in rest
    ensures Remaining(pairs, rest - {pairs[j].key}, order + [j])
  {
    assert j !in order;
    assert forall i: nat :: i in order + [j] <==> i in order || i == j;
  }

  function Below(n: nat): set<nat> { if n == 0 then {} else Below(n - 1) + {n - 1} }

  lemma {:induction false} BelowSize(n: nat)
    ensures |Below(n)| == n && forall k: nat :: k in Below(n) <==> k < n
  {
    if n > 0 { BelowSize(n - 1); }
  }

  lemma {:induction false} DistinctSize(order: seq<nat>, n: nat)
    requires DistinctBelow(order, n)
    ensures |Elems(order)| == |order|
  {
    if order != [] {
      var front, last := order[..|order|-1], order[|order|-1];
      assert order == front + [last] && last !in front;
      DistinctSize(front, n);
      ElemsConcat(front, [last]);
      assert Elems([last]) == {last};
    }
  }

  lemma Subset(a: set<nat>, b: set<nat>)
    requires a <= b
    ensures |a| <= |b| && (|a| == |b| <==> a == b)
  {
    assert b == a + (b - a);
    assert |b| == |a| + |b - a|;
  }

  // A list of distinct numbers below n has n of them iff it misses none.
  lemma OrderLength(order: seq<nat>, n: nat)
    requires DistinctBelow(order, n)
    ensures |order| <= n && (|order| == n <==> IsOrder(order, n))
  {
    BelowSize(n);
    DistinctSize(order, n);
    Subset(Elems(order), Below(n));
    if |order| == n {
      forall k: nat | k < n ensures k in order { assert k in Elems(order); }
    }
    if IsOrder(order, n) { assert Elems(order) == Below(n); }
  }

  lemma RemainingNone(pairs: seq<Pair>, order: seq<nat>)
    requires Remaining(pairs, {}, order)
    ensures IsOrder(order, |pairs|) && |order| == |pairs|
  {
    forall k: nat | k < |pairs| ensures k in order { assert pairs[k].key !in {}; }
    OrderLength(order, |pairs|);
  }

  // ---- File accesses

  // How many of n pairs are replaced when accesses from at on are made, two for each pair, up to the first that fails.
  function Done(works: nat -> bool, at: nat, n: nat): (d: nat)
    ensures d <= n
    decreases n
  {
    if n == 0 || !works(at) || !works(at + 1) then 0 else 1 + Done(works, at + 2, n - 1)
  }

  ghost predicate WorksFrom(works: nat -> bool, at: nat, n: nat) { forall k: nat :: at <= k < at + n ==> works(k) }

  lemma {:induction false} DoneAll(works: nat -> bool, at: nat, n: nat)
    ensures Done(works, at, n) == n <==> WorksFrom(works, at, 2 * n)
    ensures WorksFrom(works, at, 2 * Done(works, at, n))
    ensures Done(works, at, n) < n ==> !(works(at + 2 * Done(works, at, n)) && works(at + 2 * Done(works, at, n) + 1))
    decreases n
  {
    if n > 0 && works(at) && works(at + 1) {
      DoneAll(works, at + 2, n - 1);
      assert WorksFrom(works, at, 2 * n) <==> WorksFrom(works, at + 2, 2 * (n - 1));
    } else if n > 0 {
      assert !WorksFrom(works, at, 2 * n);
    }
  }

  lemma {:induction false} DoneMore(works: nat -> bool, at: nat, n: nat, d: nat)
    requires d < n && WorksFrom(works, at, 2 * d)
    ensures works(at + 2 * d) && works(at + 2 * d + 1) ==> WorksFrom(works, at, 2 * (d + 1))
    ensures !(works(at + 2 * d) && works(at + 2 * d + 1)) ==> Done(works, at, n) == d
    decreases d
  {
    if d > 0 { DoneMore(works, at + 2, n - 1, d - 1); }
  }

  // Some of the pairs have been walked and every access so far has succeeded.
  ghost predicate Walking(pairs: seq<Pair>, rest: set<string>, order: seq<nat>, works: nat -> bool, at: nat, ops: nat) {
    Remaining(pairs, rest, order) && ops == at + 2 * |order| && WorksFrom(works, at, 2 * |order|)
  }

  lemma WalkNext(pairs: seq<Pair>, diff: map<string, string>, rest: set<string>, order: seq<nat>, works: nat -> bool,
                 at: nat, ops: nat, j: nat)
    requires Lists(pairs, diff) && Walking(pairs, rest, order, works, at, ops) && j < |pairs| && pairs[j].key in rest
    ensures works(ops) && works(ops + 1) ==> Walking(pairs, rest - {pairs[j].key}, order + [j], works, at, ops + 2)
    ensures !(works(ops) && works(ops + 1)) ==>
      |order| == Done(works, at, |pairs|) && !WorksFrom(works, at, 2 * |pairs|)
  {
    RemainingShorter(pairs, rest, order, j);
    AccessNext(works, at, |pairs|, |order|);
    if works(ops) && works(ops + 1) { WalkGoes(pairs, diff, rest, order, works, at, ops, j); }
  }

  lemma WalkGoes(pairs: seq<Pair>, diff: map<string, string>, rest: set<string>, order: seq<nat>, works: nat -> bool,
                 at: nat, ops: nat, j: nat)
    requires Lists(pairs, diff) && Remaining(pairs, rest, order) && j < |pairs| && pairs[j].key in rest
    requires ops == at + 2 * |order| && WorksFrom(works, at, 2 * (|order| + 1))
    ensures Walking(pairs, rest - {pairs[j].key}, order + [j], works, at, ops + 2)
  {
    RemainingStep(pairs, diff, rest, order, j);
  }

  lemma RemainingShorter(pairs: seq<Pair>, rest: set<string>, order: seq<nat>, j: nat)
    requires Remaining(pairs, rest, order) && j < |pairs| && pairs[j].key in rest
    ensures |order| < |pairs|
  {
    assert j !in order;
    OrderLength(order, |pairs|);
  }

  lemma AccessNext(works: nat -> bool, at: nat, n: nat, d: nat)
    requires d < n && WorksFrom(works, at, 2 * d)
    ensures works(at + 2 * d) && works(at + 2 * d + 1) ==> WorksFrom(works, at, 2 * (d + 1))
    ensures !(works(at + 2 * d) && works(at + 2 * d + 1)) ==> d == Done(works, at, n) && !WorksFrom(works, at, 2 * n)
  {
    DoneMore(works, at, n, d);
    DoneAll(works, at, n);
  }

  lemma PairOf(pairs: seq<Pair>, diff: map<string, string>, ref: string) returns (j: nat)
    requires Lists(pairs, diff) && ref in diff
    ensures j < |pairs| && pairs[j].key == ref && pairs[j].val == diff[ref]
  {
    j :| 0 <= j < |pairs| && pairs[j].key == ref;
  }

  lemma WalkEnd(pairs: seq<Pair>, order: seq<nat>, works: nat -> bool, at: nat, ops: nat)
    requires Walking(pairs, {}, order, works, at, ops)
    ensures IsOrder(order, |pairs|) && |order| == |pairs| == Done(works, at, |pairs|)
    ensures WorksFrom(works, at, 2 * |pairs|)
  {
    RemainingNone(pairs, order);
    DoneAll(works, at, |pairs|);
  }

  // The pairs replaced are those walked before the first access that fails, in the order in which the map happened to
  // be walked; the result tells whether all accesses succeeded.
  method ReplaceInFile(f: File, diff: map<string, string>, ghost pairs: seq<Pair>) returns (ok: bool,
      ghost order: seq<nat>)
    requires Lists(pairs, diff)
    modifies f
    ensures DistinctBelow(order, |pairs|) && f.text == ReplacePairs(old(f.text), pairs, order)
    ensures |order| == Done(f.works, old(f.ops), |pairs|)
    ensures ok <==> WorksFrom(f.works, old(f.ops), 2 * |pairs|)
    ensures ok ==> IsOrder(order, |pairs|) && f.ops == old(f.ops) + 2 * |pairs|
  {
    var rest := diff.Keys;
    ok, order := true, [];
    ghost var at := f.ops;
    while rest != {}
      invariant ok && rest <= diff.Keys && Walking(pairs, rest, order, f.works, at, f.ops)
      invariant f.text == ReplacePairs(old(f.text), pairs, order)
    {
      var ref :| ref in rest;
      ghost var j := PairOf(pairs, diff, ref);
      WalkNext(pairs, diff, rest, order, f.works, at, f.ops, j);
      ok := f.Replace(ref, diff[ref]);
      if !ok { return; }
      ReplaceAppend(old(f.text), pairs, order, j);
      rest, order := rest - {ref}, order + [j];
    }
    WalkEnd(pairs, order, f.works, at, f.ops);
  }

  method ResetFile(f: File, diff: map<string, string>, ghost pairs: seq<Pair>) returns (ok: bool, ghost order: seq<nat>)
    requires Lists(pairs, diff)
    modifies f
    ensures DistinctBelow(order, |pairs|) && f.text == ResetPairs(old(f.text), pairs, order)
    ensures |order| == Done(f.works, old(f.ops), |pairs|)
    ensures ok <==> WorksFrom(f.works, old(f.ops), 2 * |pairs|)
    ensures ok ==> IsOrder(order, |pairs|)
  {
    var rest := diff.Keys;
    ok, order := true, [];
    ghost var at := f.ops;
    while rest != {}
      invariant ok && rest <= diff.Keys && Walking(pairs, rest, order, f.works, at, f.ops)
      invariant f.text == ResetPairs(old(f.text), pairs, order)
    {
      var ref :| ref in rest;
      ghost var j := PairOf(pairs, diff, ref);
      WalkNext(pairs, diff, rest, order, f.works, at, f.ops, j);
      ok := f.Replace(diff[ref], ref);
      if !ok { return; }
      ReplaceAppend(old(f.text), pairs, order, j);
      rest, order := rest - {ref}, order + [j];
    }
    WalkEnd(pairs, order, f.works, at, f.ops);
  }

  // ---- buildNode

  datatype Parent = Parent(name: string, hash: string, needsRebuild: bool) {
    function Pair(placeholder: string): Rewriting.Pair {
      Rewriting.Pair(DockerRef(name, placeholder), CurrentRef(name, hash, needsRebuild))
    }
  }

  ghost predicate IsParentPair(parents: seq<Parent>, placeholder: string, q: Pair) {
    exists p :: p in parents && q == p.Pair(placeholder)
  }

  // One pair for each parent name.
  ghost predicate FromParents(pairs: seq<Pair>, parents: seq<Parent>, placeholder: string) {
    && (forall i :: 0 <= i < |pairs| ==> IsParentPair(parents, placeholder, pairs[i]))
    && (forall i, j :: 0 <= i < j < |pairs| ==> pairs[i].key != pairs[j].key)
    && (forall p :: p in parents ==> exists i :: 0 <= i < |pairs| && pairs[i].key == p.Pair(placeholder).key)
  }

  ghost predicate TagsOf(tags: map<string, string>, parents: seq<Parent>, placeholder: string) {
    && (forall k :: k in tags ==> IsParentPair(parents, placeholder, Pair(k, tags[k])))
    && (forall p :: p in parents ==> p.Pair(placeholder).key in tags)
  }

  method TagsToReplace(parents: seq<Parent>, placeholder: string) returns (tags: map<string, string>)
    ensures TagsOf(tags, parents, placeholder)
  {
    tags := map[];
    for i := 0 to |parents|
      invariant TagsOf(tags, parents[..i], placeholder)
    {
      var p := parents[i];
      assert parents[..i+1] == parents[..i] + [p];
      assert p in parents[..i+1];
      assert p.Pair(placeholder) == Pair(DockerRef(p.name, placeholder), CurrentRef(p.name, p.hash, p.needsRebuild));
      tags := tags[DockerRef(p.name, placeholder) := CurrentRef(p.name, p.hash, p.needsRebuild)];
    }
    assert parents[..|parents|] == parents;
  }

  lemma ListedFromParents(pairs: seq<Pair>, tags: map<string, string>, parents: seq<Parent>, placeholder: string)
    requires Lists(pairs, tags) && TagsOf(tags, parents, placeholder)
    ensures FromParents(pairs, parents, placeholder)
  {
    forall i | 0 <= i < |pairs| ensures IsParentPair(parents, placeholder, pairs[i]) {
      assert IsParentPair(parents, placeholder, Pair(pairs[i].key, tags[pairs[i].key]));
    }
  }

  // build maps the Dockerfile it is given to an error or not; setup tells whether the report file could be created.
  // A failed replacement returns before the restoring is arranged, so nothing is reset then.
  method BuildImage(f: File, parents: seq<Parent>, placeholder: string, setup: bool, build: string -> Option<string>)
    returns (err: Option<string>, replaced: bool, ghost pairs: seq<Pair>, ghost order: seq<nat>, ghost order': seq<nat>)
    modifies f
    ensures FromParents(pairs, parents, placeholder)
    ensures Bracket(f.works, old(f.ops), old(f.text), f.text, pairs, replaced, order, order')
    ensures replaced ==>
      err == if setup then build(ReplacePairs(old(f.text), pairs, order)) else Some("failed to create report file")
    ensures !replaced ==> err == Some("failed to replace tag in dockerfile")
  {
    var tags := TagsToReplace(parents, placeholder);
    pairs := Listed(tags);
    ListedFromParents(pairs, tags, parents, placeholder);
    replaced, order := ReplaceInFile(f, tags, pairs);
    order' := [];
    if !replaced { return Some("failed to replace tag in dockerfile"), replaced, pairs, order, order'; }
    if setup { err := build(f.text); } else { err := Some("failed to create report file"); }
    var ok;
    ok, order' := ResetFile(f, tags, pairs);
  }

  // A replacement at the accesses from at on and, if it succeeds, a reset right after it, each up to its first access
  // that fails. order and order' are the pairs replaced and the pairs reset.
  ghost predicate Bracket(works: nat -> bool, at: nat, before: string, after: string, pairs: seq<Pair>, replaced: bool,
                          order: seq<nat>, order': seq<nat>)
  {
    && DistinctBelow(order, |pairs|) && DistinctBelow(order', |pairs|)
    && after == ResetPairs(ReplacePairs(before, pairs, order), pairs, order')
    && (replaced <==> WorksFrom(works, at, 2 * |pairs|))
    && |order| == Done(works, at, |pairs|)
    && |order'| == (if replaced then Done(works, at + 2 * |pairs|, |pairs|) else 0)
    && (replaced ==> IsOrder(order, |pairs|))
  }

  lemma WorksTwice(works: nat -> bool, at: nat, n: nat)
    ensures WorksFrom(works, at, 4 * n) <==> WorksFrom(works, at, 2 * n) && WorksFrom(works, at + 2 * n, 2 * n)
  {
    assert WorksFrom(works, at, 4 * n) ==> WorksFrom(works, at, 2 * n);
  }

  // With every access working, all pairs are replaced and reset.
  lemma BracketWorks(works: nat -> bool, at: nat, before: string, after: string, pairs: seq<Pair>, replaced: bool,
                     order: seq<nat>, order': seq<nat>)
    requires Bracket(works, at, before, after, pairs, replaced, order, order') && WorksFrom(works, at, 4 * |pairs|)
    ensures replaced && IsOrder(order, |pairs|) && IsOrder(order', |pairs|)
  {
    WorksTwice(works, at, |pairs|);
    DoneAll(works, at + 2 * |pairs|, |pairs|);
    OrderLength(order', |pairs|);
  }

  // Tags have no colon, no name ends another one, and no name contains another one's reference, which only
  // names with a colon can.
  ghost predicate PlainRefs(parents: seq<Parent>, placeholder: string) {
    && ColonFree(placeholder)
    && (forall p :: p in parents ==> ColonFree(p.hash))
    && (forall p, q :: p in parents && q in parents && p.name != q.name ==>
          !SuffixOf(p.name, q.name) && !Contains(q.name, DockerRef(p.name, placeholder)) &&
          !Contains(q.name, CurrentRef(p.name, p.hash, p.needsRebuild)))
  }

  // Names without colon, of which none ends another one, meet this.
  lemma ColonFreeNames(parents: seq<Parent>, placeholder: string)
    requires ColonFree(placeholder) && forall p :: p in parents ==> ColonFree(p.name) && ColonFree(p.hash)
    requires forall p, q :: p in parents && q in parents && p.name != q.name ==> !SuffixOf(p.name, q.name)
    ensures PlainRefs(parents, placeholder)
  {
    forall p, q, tag | p in parents && q in parents ensures !Contains(q.name, DockerRef(p.name, tag)) {
      forall i: nat ensures !StartsAt(q.name, DockerRef(p.name, tag), i) {
        var r := DockerRef(p.name, tag);
        assert r[|p.name|] == ':';
        if i + |r| <= |q.name| { assert q.name[i..i+|r|][|p.name|] == q.name[i+|p.name|] != ':'; }
      }
    }
  }

  lemma ParentPairsApart(pairs: seq<Pair>, parents: seq<Parent>, placeholder: string)
    requires FromParents(pairs, parents, placeholder) && PlainRefs(parents, placeholder)
    ensures PairsApart(pairs, false)
  {
    forall i, j, f, f' | 0 <= i < |pairs| && 0 <= j < |pairs| && i != j
      ensures !Contains(Word(pairs[i], f), Word(pairs[j], f'))
    {
      PairApart(pairs[i], pairs[j], parents, placeholder, f, f');
    }
    forall i, f | 0 <= i < |pairs| ensures Word(pairs[i], f) != [] {
      assert IsParentPair(parents, placeholder, pairs[i]);
    }
  }

  lemma PairApart(q: Pair, q': Pair, parents: seq<Parent>, placeholder: string, f: bool, f': bool)
    requires IsParentPair(parents, placeholder, q) && IsParentPair(parents, placeholder, q') && q.key != q'.key
    requires PlainRefs(parents, placeholder)
    ensures !Contains(Word(q, f), Word(q', f'))
  {
    var p :| p in parents && q == p.Pair(placeholder);
    var p' :| p' in parents && q' == p'.Pair(placeholder);
    RefsApart(p.name, if f then CurrentTag(p.hash, p.needsRebuild) else placeholder,
              p'.name, if f' then CurrentTag(p'.hash, p'.needsRebuild) else placeholder);
  }

  lemma RefsApart(n: string, v: string, n': string, v': string)
    requires ColonFree(v) && ColonFree(v') && !SuffixOf(n', n) && !Contains(n, DockerRef(n', v'))
    ensures !Contains(DockerRef(n, v), DockerRef(n', v'))
  {
    forall k: nat ensures !StartsAt(DockerRef(n, v), DockerRef(n', v'), k) {
      assert !StartsAt(n, DockerRef(n', v'), k);
      if StartsAt(DockerRef(n, v), DockerRef(n', v'), k) { RefInside(n', v', n, v, k); }
    }
  }

  // The Dockerfile is left as it was found and the builder saw every parent reference replaced, whatever the order
  // of the map, when references stand between delimiters.
  lemma DockerfileRestored(p: Pieces, pairs: seq<Pair>, parents: seq<Parent>, placeholder: string, delims: set<char>,
                           order: seq<nat>, order': seq<nat>)
    requires FromParents(pairs, parents, placeholder) && PlainRefs(parents, placeholder)
    requires InPairs(p, |pairs|) && Laws.Delimited(p, pairs, delims, true)
    requires forall m, f :: 0 <= m < |pairs| ==> Laws.Free(Word(pairs[m], f), delims)
    requires IsOrder(order, |pairs|) && IsOrder(order', |pairs|)
    ensures ReplacePairs(Original(p, pairs), pairs, order) == Render(p, pairs, All(|pairs|, Up))
    ensures ResetPairs(ReplacePairs(Original(p, pairs), pairs, order), pairs, order') == Original(p, pairs)
  {
    ParentPairsApart(pairs, parents, placeholder);
    Laws.RoundTripDelimited(p, pairs, delims, order, order');
  }

  // ---- References with another tag

  lemma OwnStart(n: string, tag: string, placeholder: string, i: nat)
    requires ColonFree(tag) && ColonFree(placeholder) && StartsAt(DockerRef(n, tag), DockerRef(n, placeholder), i)
    ensures i == 0 && placeholder <= tag
  {
    var s, u := DockerRef(n, tag), DockerRef(n, placeholder);
    assert s[i..i+|u|][|n|] == u[|n|] == ':' && s[i..i+|u|][|n|] == s[i+|n|];
    NoColonInTag(n, tag, i + |n|);
    assert placeholder == u[|n|+1..] == s[|n|+1..|u|] && tag == s[|n|+1..];
  }

  lemma NotInTag(n: string, v: string, tag: string)
    requires ColonFree(tag)
    ensures !Contains(tag, DockerRef(n, v))
  {
    var u := DockerRef(n, v);
    assert u[|n|] == ':';
    forall i: nat ensures !StartsAt(tag, u, i) {
      if i + |u| <= |tag| { assert tag[i..i+|u|][|n|] == tag[i+|n|] != ':'; }
    }
  }

  // What a reference with this tag becomes, when cur is put for the placeholder.
  function Becomes(n: string, cur: string, tag: string, placeholder: string): string {
    DockerRef(n, if placeholder <= tag then cur + tag[|placeholder|..] else tag)
  }

  // A reference of the same name is replaced at its beginning, if the placeholder begins its tag, and nowhere else.
  lemma OwnRef(n: string, cur: string, tag: string, placeholder: string)
    requires ColonFree(tag) && ColonFree(placeholder)
    ensures ReplaceAll(DockerRef(n, tag), DockerRef(n, placeholder), DockerRef(n, cur))
         == Becomes(n, cur, tag, placeholder)
  {
    var s, u, x := DockerRef(n, tag), DockerRef(n, placeholder), DockerRef(n, cur);
    if placeholder <= tag {
      var rest := tag[|placeholder|..];
      assert s == u + rest && x + rest == Becomes(n, cur, tag, placeholder);
      ReplaceHits(rest, u, x);
      NotInTag(n, placeholder, rest);
      ReplaceAbsent(rest, u, x);
    } else {
      forall i: nat ensures !StartsAt(s, u, i) { if StartsAt(s, u, i) { OwnStart(n, tag, placeholder, i); } }
      ReplaceAbsent(s, u, x);
    }
  }

  // The keys of the other pairs are in no reference of this name.
  ghost predicate OthersAbsent(pairs: seq<Pair>, n: string, j: nat) {
    && (forall i :: 0 <= i < |pairs| ==> pairs[i].key != [])
    && (forall i, tag :: 0 <= i < |pairs| && i != j && ColonFree(tag) ==> !Contains(DockerRef(n, tag), pairs[i].key))
  }

  lemma ParentsAbsent(pairs: seq<Pair>, parents: seq<Parent>, placeholder: string, p: Parent, j: nat)
    requires FromParents(pairs, parents, placeholder) && PlainRefs(parents, placeholder) && p in parents
    requires j < |pairs| && pairs[j] == p.Pair(placeholder)
    ensures OthersAbsent(pairs, p.name, j)
  {
    forall i | 0 <= i < |pairs| ensures pairs[i].key != [] { assert IsParentPair(parents, placeholder, pairs[i]); }
    forall i, tag | 0 <= i < |pairs| && i != j && ColonFree(tag)
      ensures !Contains(DockerRef(p.name, tag), pairs[i].key)
    {
      assert IsParentPair(parents, placeholder, pairs[i]);
      var q :| q in parents && pairs[i] == q.Pair(placeholder);
      RefsApart(p.name, tag, q.name, placeholder);
    }
  }

  lemma {:induction false} RefKept(pairs: seq<Pair>, n: string, j: nat, tag: string, order: seq<nat>)
    requires OthersAbsent(pairs, n, j) && ColonFree(tag) && DistinctBelow(order, |pairs|) && j !in order
    ensures ReplacePairs(DockerRef(n, tag), pairs, order) == DockerRef(n, tag)
    decreases |order|
  {
    if order != [] {
      ReplaceAbsent(DockerRef(n, tag), pairs[order[0]].key, pairs[order[0]].val);
      RefKept(pairs, n, j, tag, order[1..]);
    }
  }

  lemma {:induction false} RefReplaced(pairs: seq<Pair>, n: string, cur: string, placeholder: string, j: nat,
                                       tag: string, order: seq<nat>)
    requires OthersAbsent(pairs, n, j) && j < |pairs| && DistinctBelow(order, |pairs|) && j in order
    requires pairs[j] == Pair(DockerRef(n, placeholder), DockerRef(n, cur))
    requires ColonFree(tag) && ColonFree(placeholder) && ColonFree(cur)
    ensures ReplacePairs(DockerRef(n, tag), pairs, order) == Becomes(n, cur, tag, placeholder)
    decreases |order|
  {
    if order[0] == j {
      OwnRef(n, cur, tag, placeholder);
      RefKept(pairs, n, j, if placeholder <= tag then cur + tag[|placeholder|..] else tag, order[1..]);
    } else {
      ReplaceAbsent(DockerRef(n, tag), pairs[order[0]].key, pairs[order[0]].val);
      RefReplaced(pairs, n, cur, placeholder, j, tag, order[1..]);
    }
  }

  lemma OtherTag(n: string, cur: string, tag: string, placeholder: string)
    requires cur != placeholder
    ensures Becomes(n, cur, tag, placeholder) == DockerRef(n, tag) <==> !(placeholder <= tag)
  {
    if placeholder <= tag {
      var rest := tag[|placeholder|..];
      assert tag == placeholder + rest;
      assert placeholder == tag[..|tag|-|rest|] && cur == (cur + rest)[..|cur + rest|-|rest|];
      assert DockerRef(n, tag)[|n|+1..] == tag && DockerRef(n, cur + rest)[|n|+1..] == cur + rest;
    }
  }

  // s becomes shown, wherever it stands between delimiters.
  ghost predicate RewrittenTo(s: string, shown: string, pairs: seq<Pair>, delims: set<char>, order: seq<nat>)
    requires forall i :: 0 <= i < |order| ==> order[i] < |pairs|
  {
    forall l, r :: (l == [] || l[|l|-1] in delims) && Laws.Ends(r, delims) ==>
      ReplacePairs(l + (s + r), pairs, order) == ReplacePairs(l, pairs, order) + (shown + ReplacePairs(r, pairs, order))
  }

  lemma PartRewritten(s: string, shown: string, pairs: seq<Pair>, delims: set<char>, order: seq<nat>)
    requires forall i :: 0 <= i < |order| ==> order[i] < |pairs|
    requires forall m :: 0 <= m < |pairs| ==> pairs[m].key != [] && Laws.Free(pairs[m].key, delims)
    requires ReplacePairs(s, pairs, order) == shown
    ensures RewrittenTo(s, shown, pairs, delims, order)
  {
    forall l, r | (l == [] || l[|l|-1] in delims) && Laws.Ends(r, delims)
      ensures ReplacePairs(l + (s + r), pairs, order)
           == ReplacePairs(l, pairs, order) + (shown + ReplacePairs(r, pairs, order))
    {
      Laws.ReplacePart(l, s, r, pairs, delims, order);
    }
  }

  // Anywhere in a Dockerfile, a reference of a parent's name that stands between delimiters is left alone iff the
  // placeholder does not begin its tag; if it does, that beginning is replaced. The text around it is rewritten as if
  // it stood alone.
  lemma FrozenIff(tag: string, pairs: seq<Pair>, parents: seq<Parent>, placeholder: string, p: Parent, j: nat,
                  delims: set<char>, order: seq<nat>)
    requires FromParents(pairs, parents, placeholder) && PlainRefs(parents, placeholder) && p in parents
    requires j < |pairs| && pairs[j] == p.Pair(placeholder) && pairs[j].key != pairs[j].val && ColonFree(tag)
    requires forall m :: 0 <= m < |pairs| ==> Laws.Free(pairs[m].key, delims)
    requires IsOrder(order, |pairs|)
    ensures var shown := Becomes(p.name, CurrentTag(p.hash, p.needsRebuild), tag, placeholder);
      && RewrittenTo(DockerRef(p.name, tag), shown, pairs, delims, order)
      && (shown == DockerRef(p.name, tag) <==> !(placeholder <= tag))
  {
    var cur := CurrentTag(p.hash, p.needsRebuild);
    ParentsAbsent(pairs, parents, placeholder, p, j);
    RefReplaced(pairs, p.name, cur, placeholder, j, tag, order);
    PartRewritten(DockerRef(p.name, tag), Becomes(p.name, cur, tag, placeholder), pairs, delims, order);
    OtherTag(p.name, cur, tag, placeholder);
  }

  // A text that already holds a value is not restored: the reset turns that value into the key as well.
  lemma ResetLosesValue()
    ensures ResetPairs(ReplacePairs("ba", [Pair("a", "b")], [0]), [Pair("a", "b")], [0]) == "aa"
  {
    assert ReplaceAll("a", "a", "b") == "b" + [] && "b" + [] == "b";
    assert ReplaceAll("ba", "a", "b") == "bb";
    assert ReplaceAll("b", "b", "a") == "a" + [] && "a" + [] == "a";
    assert ReplaceAll("bb", "b", "a") == "aa";
  }

  // ---- Failing file accesses

  // Two parents, of four accesses the third fails: the first parent's references are replaced and stay so.
  lemma HalfReplaced(before: string, after: string, pairs: seq<Pair>, replaced: bool, order: seq<nat>, order': seq<nat>)
    requires |pairs| == 2 && Bracket((k: nat) => k != 2, 0, before, after, pairs, replaced, order, order')
    ensures !replaced && |order| == 1 && order' == []
    ensures after == ReplaceAll(before, pairs[order[0]].key, pairs[order[0]].val)
  {
    var works := (k: nat) => k != 2;
    assert !works(2) && works(0) && works(1);
    assert Done(works, 2, 1) == 0;
    assert order == [order[0]] && order[1..] == [];
    var once := ReplaceAll(before, pairs[order[0]].key, pairs[order[0]].val);
    assert ReplacePairs(before, pairs, order) == ReplacePairs(once, pairs, []) == once;
    assert ResetPairs(once, pairs, []) == once;
  }

  // The Dockerfile ends as it was found iff one of the first two accesses fails, so that nothing was replaced, or none
  // of them all does; for independent references that all occur and replacements that do not.
  lemma FileAsFound(works: nat -> bool, at: nat, before: string, after: string, pairs: seq<Pair>, replaced: bool,
                    order: seq<nat>, order': seq<nat>)
    requires Bracket(works, at, before, after, pairs, replaced, order, order') && pairs != []
    requires Laws.Independent(pairs) && !ValueOccurs(before, pairs)
    requires forall k :: 0 <= k < |pairs| ==> Contains(before, pairs[k].key)
    ensures after == before <==> !works(at) || !works(at + 1) || WorksFrom(works, at, 4 * |pairs|)
  {
    if |order| == 0 {
      assert order == [] && order' == [];
      assert !works(at) || !works(at + 1);
    } else if WorksFrom(works, at, 4 * |pairs|) {
      BracketWorks(works, at, before, after, pairs, replaced, order, order');
      Laws.RoundTripExact(pairs, before, order, order');
    } else {
      assert works(at) && works(at + 1);
      var k := StillReplaced(works, at, before, after, pairs, replaced, order, order');
      Laws.PartlyReset(pairs, before, order, order', k);
    }
  }

  // The same for references of parents that stand between delimiters, whatever letters they begin and end with. No
  // parent has the placeholder as its tag.
  lemma ParentsAsFound(works: nat -> bool, at: nat, p: Pieces, after: string, pairs: seq<Pair>, parents: seq<Parent>,
                       placeholder: string, delims: set<char>, replaced: bool, order: seq<nat>, order': seq<nat>)
    requires FromParents(pairs, parents, placeholder) && PlainRefs(parents, placeholder) && pairs != []
    requires InPairs(p, |pairs|) && Laws.Delimited(p, pairs, delims, true)
    requires forall m, f :: 0 <= m < |pairs| ==> Laws.Free(Word(pairs[m], f), delims)
    requires forall m :: 0 <= m < |pairs| ==> pairs[m].key != pairs[m].val && HasWord(p, m, false)
    requires Bracket(works, at, Original(p, pairs), after, pairs, replaced, order, order')
    ensures after == Original(p, pairs) <==> !works(at) || !works(at + 1) || WorksFrom(works, at, 4 * |pairs|)
  {
    var before := Original(p, pairs);
    if |order| == 0 {
      assert order == [] && order' == [];
      assert !works(at) || !works(at + 1);
    } else if WorksFrom(works, at, 4 * |pairs|) {
      BracketWorks(works, at, before, after, pairs, replaced, order, order');
      DockerfileRestored(p, pairs, parents, placeholder, delims, order, order');
    } else {
      assert works(at) && works(at + 1);
      var k := StillReplaced(works, at, before, after, pairs, replaced, order, order');
      ParentPairsApart(pairs, parents, placeholder);
      Laws.PartlyResetDelimited(p, pairs, delims, order, order', k);
    }
  }

  // Otherwise some pair was replaced and not reset.
  lemma StillReplaced(works: nat -> bool, at: nat, before: string, after: string, pairs: seq<Pair>, replaced: bool,
                      order: seq<nat>, order': seq<nat>) returns (k: nat)
    requires Bracket(works, at, before, after, pairs, replaced, order, order') && order != []
    requires !WorksFrom(works, at, 4 * |pairs|)
    ensures k in order && k !in order' && k < |pairs| && forall j :: j in order' ==> j in order
  {
    if replaced {
      var n := |pairs|;
      DoneAll(works, at + 2 * n, n);
      WorksTwice(works, at, n);
      OrderLength(order', n);
      k :| 0 <= k < n && k !in order';
    } else {
      k := order[0];
    }
  }
}
