/**
 * `Array.prototype.sort()` without a comparator on strings: lexicographic
 * order on character codes, a proper prefix first; and the distinct
 * values of a list, as `new Set(...)` keeps them.
 */
module StringOrder {

  /** `a < b` on strings. */
  predicate StrLess(a: string, b: string)
    decreases |a|
  {
    if |b| == 0 then false
    else if |a| == 0 then true
    else a[0] < b[0] || (a[0] == b[0] && StrLess(a[1..], b[1..]))
  }

  lemma {:induction false} StrLessIrreflexive(a: string)
    ensures !StrLess(a, a)
    decreases |a|
  {
    if |a| > 0 {
      StrLessIrreflexive(a[1..]);
    }
  }

  lemma {:induction false} StrLessTransitive(a: string, b: string, c: string)
    requires StrLess(a, b) && StrLess(b, c)
    ensures StrLess(a, c)
    decreases |a|
  {
    if |a| > 0 && a[0] == b[0] && b[0] == c[0] {
      StrLessTransitive(a[1..], b[1..], c[1..]);
    }
  }

  /** Two different strings are ordered one way or the other. */
  lemma {:induction false} StrLessTotal(a: string, b: string)
    requires a != b
    ensures StrLess(a, b) || StrLess(b, a)
    decreases |a|
  {
    if |a| > 0 && |b| > 0 && a[0] == b[0] {
      assert a == [a[0]] + a[1..];
      assert b == [b[0]] + b[1..];
      StrLessTotal(a[1..], b[1..]);
    }
  }

  /** Strictly increasing, hence without repeats. */
  predicate StrictlySorted(s: seq<string>) {
    forall i, j :: 0 <= i < j < |s| ==> StrLess(s[i], s[j])
  }

  predicate NoRepeats(s: seq<string>) {
    forall i, j :: 0 <= i < j < |s| ==> s[i] != s[j]
  }

  /** Places `x` in a strictly sorted list that does not hold it. */
  function InsertSorted(x: string, s: seq<string>): (r: seq<string>)
    requires StrictlySorted(s) && x !in s
    ensures StrictlySorted(r)
    ensures |r| == |s| + 1
    ensures forall y :: y in r <==> y == x || y in s
  {
    if s == [] then [x]
    else if StrLess(x, s[0]) then
      assert forall j :: 0 < j < |s| ==> StrLess(x, s[j]) by {
        forall j | 0 < j < |s| ensures StrLess(x, s[j]) {
          StrLessTransitive(x, s[0], s[j]);
        }
      }
      [x] + s
    else
      StrLessTotal(x, s[0]);
      var rest := InsertSorted(x, s[1..]);
      assert forall y :: y in s <==> y == s[0] || y in s[1..] by {
        assert s == [s[0]] + s[1..];
      }
      assert forall i :: 0 <= i < |rest| ==> StrLess(s[0], rest[i]) by {
        forall i | 0 <= i < |rest| ensures StrLess(s[0], rest[i]) {
          if rest[i] != x {
            assert rest[i] in rest;
            assert rest[i] in s[1..];
            var k :| 0 <= k < |s[1..]| && s[1..][k] == rest[i];
            assert s[k + 1] == rest[i];
          }
        }
      }
      [s[0]] + rest
  }

  /** `[...s].sort()` for a list without repeats. */
  function SortStrings(s: seq<string>): (r: seq<string>)
    requires NoRepeats(s)
    ensures StrictlySorted(r)
    ensures |r| == |s|
    ensures forall y :: y in r <==> y in s
  {
    if s == [] then []
    else
      var init := s[..|s| - 1];
      assert forall y :: y in s <==> y == s[|s| - 1] || y in init by {
        assert s == init + [s[|s| - 1]];
      }
      InsertSorted(s[|s| - 1], SortStrings(init))
  }

  /** `Array.from(new Set(s))`: the first occurrence of each value, in
      order. */
  function Distinct(s: seq<string>): (r: seq<string>)
    ensures NoRepeats(r)
    ensures forall y :: y in r <==> y in s
    ensures |r| <= |s|
  {
    if s == [] then []
    else
      var init := s[..|s| - 1];
      var last := s[|s| - 1];
      assert forall y :: y in s <==> y == last || y in init by {
        assert s == init + [last];
      }
      var r := Distinct(init);
      if last in r then r else r + [last]
  }

  /** A strictly sorted list is fixed by the values it holds: two of them
      with the same values are the same list. */
  lemma {:induction false} SortedIsUnique(a: seq<string>, b: seq<string>)
    requires StrictlySorted(a) && StrictlySorted(b)
    requires forall y :: y in a <==> y in b
    ensures a == b
    decreases |a|
  {
    if a != [] {
      assert a[0] in b;
    }
    if b != [] {
      assert b[0] in a;
    }
    if a != [] && b != [] {
      if a[0] != b[0] {
        var i :| 0 <= i < |b| && b[i] == a[0];
        var j :| 0 <= j < |a| && a[j] == b[0];
        assert StrLess(b[0], a[0]) && StrLess(a[0], b[0]);
        StrLessTransitive(a[0], b[0], a[0]);
        StrLessIrreflexive(a[0]);
      }
      forall y ensures y in a[1..] <==> y in b[1..] {
        assert a == [a[0]] + a[1..] && b == [b[0]] + b[1..];
        if y in a[1..] {
          var k :| 1 <= k < |a| && a[k] == y;
          assert StrLess(a[0], y);
          StrLessIrreflexive(a[0]);
          assert y in b && y != b[0];
        }
        if y in b[1..] {
          var k :| 1 <= k < |b| && b[k] == y;
          assert StrLess(b[0], y);
          StrLessIrreflexive(b[0]);
          assert y in a && y != a[0];
        }
      }
      SortedIsUnique(a[1..], b[1..]);
      assert a == [a[0]] + a[1..] && b == [b[0]] + b[1..];
    }
  }
}
