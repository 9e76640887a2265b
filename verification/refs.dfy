// Image references: name, colon, tag.
module Refs {
  import opened Rewriting

  function DockerRef(name: string, version: string): string { name + ":" + version }

  // An image to be rebuilt is known under a temporary tag.
  function CurrentTag(hash: string, needsRebuild: bool): string { if needsRebuild then "dev-" + hash else hash }

  function CurrentRef(name: string, hash: string, needsRebuild: bool): string {
    DockerRef(name, CurrentTag(hash, needsRebuild))
  }

  // An image to be rebuilt has another current ref than its final one, until it is retagged.
  lemma CurrentTags(name: string, hash: string)
    ensures CurrentRef(name, hash, true) == name + ":dev-" + hash && CurrentRef(name, hash, false) == name + ":" + hash
    ensures CurrentRef(name, hash, true) != DockerRef(name, hash) == CurrentRef(name, hash, false)
  {
    assert name + ":" + ("dev-" + hash) == name + ":dev-" + hash;
    assert |CurrentRef(name, hash, true)| != |DockerRef(name, hash)|;
  }

  predicate ColonFree(s: string) { ':' !in s }

  // Names without colon make references unambiguous, even when tags have colons.
  lemma RefUnique(n: string, v: string, n': string, v': string)
    requires ColonFree(n) && ColonFree(n') && DockerRef(n, v) == DockerRef(n', v')
    ensures n == n' && v == v'
  {
    var s := DockerRef(n, v);
    assert s[|n|] == ':' && s[|n'|] == ':';
    assert forall i :: 0 <= i < |n| ==> s[i] == n[i] && s[i] != ':';
    assert forall i :: 0 <= i < |n'| ==> s[i] == n'[i] && s[i] != ':';
    assert n == s[..|n|] && n' == s[..|n'|] && v == s[|n|+1..] && v' == s[|n'|+1..];
  }

  // So do tags without colon, even when names have colons, as in a registry address with a port.
  lemma RefUniqueTags(n: string, v: string, n': string, v': string)
    requires ColonFree(v) && ColonFree(v') && DockerRef(n, v) == DockerRef(n', v')
    ensures n == n' && v == v'
  {
    var s := DockerRef(n, v);
    assert s[|n|] == ':' && s[|n'|] == ':';
    assert forall i :: |n| < i < |s| ==> s[i] == v[i-|n|-1] && s[i] != ':';
    assert forall i :: |n'| < i < |s| ==> s[i] == v'[i-|n'|-1] && s[i] != ':';
    assert n == s[..|n|] && n' == s[..|n'|] && v == s[|n|+1..] && v' == s[|n'|+1..];
  }

  predicate SuffixOf(a: string, b: string) {
    |a| <= |b| && b[|b|-|a|..] == a
  }

  lemma NoColonInTag(n: string, v: string, j: int)
    requires ColonFree(v)
    ensures |n| < j < |DockerRef(n, v)| ==> DockerRef(n, v)[j] != ':'
  {
    if |n| < j < |DockerRef(n, v)| { assert DockerRef(n, v)[j] == v[j-|n|-1]; }
  }

  // With colon-free tags, a reference lies inside another only if its name ends the other's name,
  // or if it lies within that name, as in a registry address with a port.
  lemma RefInside(n: string, v: string, n': string, v': string, i: nat)
    requires ColonFree(v) && ColonFree(v') && StartsAt(DockerRef(n', v'), DockerRef(n, v), i)
    ensures SuffixOf(n, n') || StartsAt(n', DockerRef(n, v), i)
  {
    var s, r := DockerRef(n', v'), DockerRef(n, v);
    var part := s[i..i+|r|];
    assert part[|n|] == r[|n|] == ':' && part[|n|] == s[i+|n|];
    assert forall k :: |n'| < k < |s| ==> s[k] == v'[k-|n'|-1] && s[k] != ':';
    if i + |n| == |n'| {
      assert |n'[i..]| == |n| && forall k :: 0 <= k < |n| ==> n'[i..][k] == s[i+k] == part[k] == n[k];
    } else {
      assert s[|n'|] == ':';
      NoColonInTag(n, v, |n'| - i);
      assert i + |r| <= |n'|;
      assert s[i..i+|r|] == n'[i..i+|r|];
    }
  }
}
