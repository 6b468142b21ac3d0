/** Searching and splitting text. */
module Text {
  import opened Wrappers

  /** The first position at or after `from` holding one of `stops`. */
  function FindFrom(s: string, stops: string, from: nat): (r: Option<nat>)
    requires from <= |s|
    ensures r.Some? ==> from <= r.value < |s| && s[r.value] in stops
    ensures forall i :: from <= i < (if r.Some? then r.value else |s|) ==> s[i] !in stops
    decreases |s| - from
  {
    if from == |s| then None
    else if s[from] in stops then Some(from)
    else FindFrom(s, stops, from + 1)
  }

  function Find(s: string, stops: string): (r: Option<nat>)
    ensures r.Some? ==> r.value < |s| && s[r.value] in stops
    ensures forall i :: 0 <= i < (if r.Some? then r.value else |s|) ==> s[i] !in stops
  {
    FindFrom(s, stops, 0)
  }

  /** No character of `stops`. */
  predicate Free(s: string, stops: string) {
    forall i :: 0 <= i < |s| ==> s[i] !in stops
  }

  lemma FindAfter(a: string, stop: char, b: string, stops: string)
    requires Free(a, stops) && stop in stops
    ensures Find(a + [stop] + b, stops) == Some(|a|)
    ensures (a + [stop] + b)[..|a|] == a && (a + [stop] + b)[|a| + 1..] == b
  {
    var s := a + [stop] + b;
    assert s[|a|] == stop;
    assert forall i :: 0 <= i < |a| ==> s[i] == a[i];
  }

  /** The pieces between separators, as `split` gives them. */
  function Split(s: string, c: char): (r: seq<string>)
    ensures r != []
    decreases |s|
  {
    var at := Find(s, [c]);
    if at.None? then [s] else [s[..at.value]] + Split(s[at.value + 1..], c)
  }

  lemma SplitAfter(a: string, c: char, b: string)
    requires Free(a, [c])
    ensures Split(a + [c] + b, c) == [a] + Split(b, c)
  {
    FindAfter(a, c, b, [c]);
  }

  lemma SplitWhole(a: string, c: char)
    requires Free(a, [c])
    ensures Split(a, c) == [a]
  {
  }
}
