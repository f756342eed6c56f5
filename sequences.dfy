/**
 * The array operations the pages build their updates from: `filter`, a
 * `map` that rewrites the elements a test picks, `find`, and counting.
 */
module Sequences {
  import opened JsValues

  /** `r` is `s` with some elements dropped, the rest in their order. */
  predicate IsSubsequence<T(==)>(r: seq<T>, s: seq<T>)
    decreases |s|
  {
    if r == [] then true
    else if s == [] then false
    else (r[0] == s[0] && IsSubsequence(r[1..], s[1..])) || IsSubsequence(r, s[1..])
  }

  /** `s.filter(keep)`. */
  function Filter<T(==)>(s: seq<T>, keep: T -> bool): (r: seq<T>)
    ensures forall i :: 0 <= i < |r| ==> r[i] in s && keep(r[i])
    ensures forall i :: 0 <= i < |s| && keep(s[i]) ==> s[i] in r
    ensures |r| <= |s|
    ensures IsSubsequence(r, s)
  {
    if s == [] then []
    else
      var rest := Filter(s[1..], keep);
      assert forall i :: 1 <= i < |s| ==> s[i] == s[1..][i - 1];
      if keep(s[0]) then
        assert ([s[0]] + rest)[1..] == rest;
        [s[0]] + rest
      else rest
  }

  /** Filtering keeps every element the test accepts, so filtering twice by
      the same test changes nothing more. */
  lemma {:induction false} FilterIdempotent<T>(s: seq<T>, keep: T -> bool)
    ensures Filter(Filter(s, keep), keep) == Filter(s, keep)
  {
    if s != [] {
      FilterIdempotent(s[1..], keep);
      if keep(s[0]) {
        assert ([s[0]] + Filter(s[1..], keep))[1..] == Filter(s[1..], keep);
      }
    }
  }

  /** A filter that keeps every element returns the list itself. */
  lemma {:induction false} FilterKeepsAll<T>(s: seq<T>, keep: T -> bool)
    requires forall i :: 0 <= i < |s| ==> keep(s[i])
    ensures Filter(s, keep) == s
  {
    if s != [] {
      FilterKeepsAll(s[1..], keep);
      assert [s[0]] + s[1..] == s;
    }
  }

  /** Filtering by two tests one after the other is filtering by both. */
  lemma {:induction false} FilterFilter<T>(s: seq<T>, a: T -> bool, b: T -> bool)
    ensures Filter(Filter(s, a), b) == Filter(s, x => a(x) && b(x))
  {
    if s != [] {
      FilterFilter(s[1..], a, b);
      if a(s[0]) {
        assert ([s[0]] + Filter(s[1..], a))[1..] == Filter(s[1..], a);
      }
    }
  }

  /** Filtering a concatenation filters each part. */
  lemma {:induction false} FilterAppend<T>(s: seq<T>, t: seq<T>, keep: T -> bool)
    ensures Filter(s + t, keep) == Filter(s, keep) + Filter(t, keep)
  {
    if s == [] {
      assert s + t == t;
    } else {
      var st := s + t;
      assert st[0] == s[0] && st[1..] == s[1..] + t;
      FilterAppend(s[1..], t, keep);
    }
  }

  /** The number of elements the test accepts. */
  function Count<T>(s: seq<T>, pick: T -> bool): (n: nat)
    ensures n <= |s|
  {
    if s == [] then 0 else (if pick(s[0]) then 1 else 0) + Count(s[1..], pick)
  }

  /** Counting is filtering and taking the length. */
  lemma {:induction false} CountIsFilterLength<T>(s: seq<T>, pick: T -> bool)
    ensures Count(s, pick) == |Filter(s, pick)|
  {
    if s != [] {
      CountIsFilterLength(s[1..], pick);
    }
  }

  /** What a filter drops is counted by the opposite test. */
  lemma {:induction false} FilterDropsCount<T>(s: seq<T>, keep: T -> bool)
    ensures |Filter(s, keep)| + Count(s, x => !keep(x)) == |s|
  {
    if s != [] {
      FilterDropsCount(s[1..], keep);
    }
  }

  /** `s.map(x => pick(x) ? update(x) : x)`. */
  function MapWhere<T>(s: seq<T>, pick: T -> bool, update: T -> T): (r: seq<T>)
    ensures |r| == |s|
    ensures forall i :: 0 <= i < |s| && !pick(s[i]) ==> r[i] == s[i]
    ensures forall i :: 0 <= i < |s| && pick(s[i]) ==> r[i] == update(s[i])
  {
    seq(|s|, i requires 0 <= i < |s| => if pick(s[i]) then update(s[i]) else s[i])
  }

  /** When no element is picked, the map changes nothing. */
  lemma MapWhereNonePicked<T>(s: seq<T>, pick: T -> bool, update: T -> T)
    requires forall i :: 0 <= i < |s| ==> !pick(s[i])
    ensures MapWhere(s, pick, update) == s
  {
  }

  /** `s.find(pick)`: the first element the test accepts. */
  function Find<T(==)>(s: seq<T>, pick: T -> bool): (r: Option<T>)
    ensures r.None? <==> forall i :: 0 <= i < |s| ==> !pick(s[i])
    ensures r.Some? ==> exists i :: 0 <= i < |s| && s[i] == r.value && pick(s[i]) && forall j :: 0 <= j < i ==> !pick(s[j])
  {
    if s == [] then None
    else if pick(s[0]) then Some(s[0])
    else
      var r := Find(s[1..], pick);
      assert forall i :: 1 <= i < |s| ==> s[i] == s[1..][i - 1];
      if r.Some? then
        var k :| 0 <= k < |s[1..]| && s[1..][k] == r.value && pick(s[1..][k]) && forall j :: 0 <= j < k ==> !pick(s[1..][j]);
        assert s[k + 1] == r.value && forall j :: 0 <= j < k + 1 ==> !pick(s[j]);
        r
      else r
  }
}
