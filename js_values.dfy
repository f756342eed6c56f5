/**
 * The JavaScript built-ins that the pages and components lean on, written
 * out: loosely typed values and strict equality, truthiness, `Number(...)`
 * coercion, ASCII `toLowerCase`/`toUpperCase`, `String.prototype.includes`,
 * `split(' ')` and the decimal rendering `n.toString()`.
 */
module JsValues {

  datatype Option<T> = None | Some(value: T)

  /** A value held by a field whose type the source does not pin down (an id
      that may be missing, a `memberId` that a text input turned into a
      string, a pending delete id that is `null`). Numbers are reals. */
  datatype JsValue = Undefined | Null | Num(n: real) | NaN | Str(s: string)

  /** `a === b`: equal primitives of the same kind; `NaN` equals nothing. */
  predicate StrictEquals(a: JsValue, b: JsValue)
    ensures StrictEquals(a, b) <==> a == b && !a.NaN?
  {
    match (a, b)
    case (Undefined, Undefined) => true
    case (Null, Null) => true
    case (Num(x), Num(y)) => x == y
    case (Str(x), Str(y)) => x == y
    case _ => false
  }

  /** `if (v)`: 0, NaN, "", null and undefined are falsy. */
  predicate Truthy(v: JsValue)
    ensures !Truthy(v) <==> v == Undefined || v == Null || v == NaN || v == Num(0.0) || v == Str("")
  {
    match v
    case Num(x) => x != 0.0
    case Str(s) => s != ""
    case _ => false
  }

  predicate IsDigit(c: char) {
    '0' <= c <= '9'
  }

  function DigitValue(c: char): (r: nat)
    requires IsDigit(c)
    ensures r < 10
  {
    (c as int) - ('0' as int)
  }

  function DigitChar(d: nat): (c: char)
    requires d < 10
    ensures IsDigit(c) && DigitValue(c) == d
  {
    (('0' as int) + d) as char
  }

  predicate AllDigits(s: string) {
    forall i :: 0 <= i < |s| ==> IsDigit(s[i])
  }

  /** The value of a string of decimal digits, most significant first. */
  function DigitsValue(s: string): nat
    requires AllDigits(s)
  {
    if |s| == 0 then 0 else DigitsValue(s[..|s| - 1]) * 10 + DigitValue(s[|s| - 1])
  }

  /** `Number(s)` on a string. The empty string is 0; a run of decimal digits,
      optionally after a '-', is its value; everything else is NaN. */
  function ParseNumber(s: string): (r: JsValue)
    ensures r.Num? || r.NaN?
    ensures s == "" ==> r == Num(0.0)
    ensures r.Num? && r.n < 0.0 ==> s[0] == '-'
  {
    if s == "" then Num(0.0)
    else if AllDigits(s) then Num(DigitsValue(s) as real)
    else if s[0] == '-' && |s| > 1 && AllDigits(s[1..]) then Num(-(DigitsValue(s[1..]) as real))
    else NaN
  }

  /** `Number(v)`. */
  function ToNumber(v: JsValue): (r: JsValue)
    ensures r.Num? || r.NaN?
    ensures v.Num? ==> r == v
    ensures v.Undefined? || v.NaN? ==> r.NaN?
  {
    match v
    case Undefined => NaN
    case Null => Num(0.0)
    case Num(_) => v
    case NaN => NaN
    case Str(s) => ParseNumber(s)
  }

  /** `n.toString()` for a natural number. */
  function NatToString(n: nat): string
  {
    if n < 10 then [DigitChar(n)] else NatToString(n / 10) + [DigitChar(n % 10)]
  }

  /** `n.toString()` for an integer. */
  function IntToString(n: int): string
  {
    if n < 0 then "-" + NatToString(-n) else NatToString(n)
  }

  lemma {:induction false} NatToStringDigits(n: nat)
    ensures |NatToString(n)| > 0 && AllDigits(NatToString(n))
    ensures DigitsValue(NatToString(n)) == n
    decreases n
  {
    if n >= 10 {
      NatToStringDigits(n / 10);
      var s := NatToString(n);
      assert s[..|s| - 1] == NatToString(n / 10);
    }
  }

  /** `Number(String(n))` gives `n` back, for every integer id. */
  lemma IntToStringRoundTrip(n: int)
    ensures ParseNumber(IntToString(n)) == Num(n as real)
  {
    if n < 0 {
      NatToStringDigits(-n);
      var s := IntToString(n);
      assert s[1..] == NatToString(-n);
      assert !AllDigits(s) by { assert !IsDigit(s[0]); }
    } else {
      NatToStringDigits(n);
    }
  }

  function LowerChar(c: char): char {
    if 'A' <= c <= 'Z' then ((c as int) + 32) as char else c
  }

  function UpperChar(c: char): char {
    if 'a' <= c <= 'z' then ((c as int) - 32) as char else c
  }

  /** `s.toLowerCase()` (ASCII letters only). */
  function ToLower(s: string): (r: string)
    ensures |r| == |s|
    ensures forall i :: 0 <= i < |s| ==> r[i] == LowerChar(s[i])
  {
    seq(|s|, i requires 0 <= i < |s| => LowerChar(s[i]))
  }

  /** `s.toUpperCase()` (ASCII letters only). */
  function ToUpper(s: string): (r: string)
    ensures |r| == |s|
    ensures forall i :: 0 <= i < |s| ==> r[i] == UpperChar(s[i])
  {
    seq(|s|, i requires 0 <= i < |s| => UpperChar(s[i]))
  }

  /** `t` occurs in `s` starting at offset `i`. */
  predicate OccursAt(s: string, t: string, i: int) {
    0 <= i && i + |t| <= |s| && s[i..i + |t|] == t
  }

  /** `s.includes(t)`: `t` occurs in `s` at some offset. */
  function Includes(s: string, t: string): (r: bool)
    ensures r <==> exists i :: OccursAt(s, t, i)
    decreases |s|
  {
    if |t| <= |s| && s[..|t|] == t then
      assert OccursAt(s, t, 0);
      true
    else if |s| == 0 then
      false
    else
      var r := Includes(s[1..], t);
      assert r ==> exists i :: OccursAt(s, t, i) by {
        if r {
          var i :| OccursAt(s[1..], t, i);
          assert s[1..][i..i + |t|] == s[i + 1..i + 1 + |t|];
          assert OccursAt(s, t, i + 1);
        }
      }
      assert (exists i :: OccursAt(s, t, i)) ==> r by {
        if exists i :: OccursAt(s, t, i) {
          var i :| OccursAt(s, t, i);
          assert i != 0;
          assert s[1..][i - 1..i - 1 + |t|] == s[i..i + |t|];
          assert OccursAt(s[1..], t, i - 1);
        }
      }
      r
  }

  /** Lower-casing twice is lower-casing once. */
  lemma ToLowerIdempotent(s: string)
    ensures ToLower(ToLower(s)) == ToLower(s)
  {
  }

  /** The empty string occurs in every string. */
  lemma IncludesEmpty(s: string)
    ensures Includes(s, "")
  {
    assert OccursAt(s, "", 0);
  }

  /** An occurrence survives lower-casing both strings. */
  lemma OccursAtToLower(s: string, t: string, i: int)
    requires OccursAt(s, t, i)
    ensures OccursAt(ToLower(s), ToLower(t), i)
  {
    var ls, lt := ToLower(s), ToLower(t);
    assert forall k :: 0 <= k < |t| ==> ls[i..i + |t|][k] == LowerChar(s[i + k]) == LowerChar(t[k]) == lt[k];
  }

  /** An occurrence of an occurrence is an occurrence. */
  lemma OccursAtTransitive(a: string, b: string, c: string, i: int, j: int)
    requires OccursAt(a, b, i) && OccursAt(b, c, j)
    ensures OccursAt(a, c, i + j)
  {
    forall k | 0 <= k < |c|
      ensures a[i + j + k] == c[k]
    {
      assert a[i..i + |b|][j + k] == b[j + k];
      assert b[j..j + |c|][k] == c[k];
    }
    assert a[i + j..i + j + |c|] == c;
  }

  /** `s.split(sep)`: the pieces between the separators, `[""]` for "". */
  function Split(s: string, sep: char): (r: seq<string>)
    ensures |r| >= 1
  {
    if |s| == 0 then [""]
    else
      var rest := Split(s[1..], sep);
      if s[0] == sep then [""] + rest else [[s[0]] + rest[0]] + rest[1..]
  }

  /** More than one piece means the separator occurs. */
  lemma {:induction false} SplitHasSeparator(s: string, sep: char)
    ensures |Split(s, sep)| > 1 ==> exists i :: 0 <= i < |s| && s[i] == sep
  {
    if |s| > 0 && s[0] != sep {
      SplitHasSeparator(s[1..], sep);
      if |Split(s, sep)| > 1 {
        var i :| 0 <= i < |s[1..]| && s[1..][i] == sep;
        assert s[i + 1] == sep;
      }
    }
  }

  /** A string without the separator splits into itself alone. */
  lemma {:induction false} SplitNoSeparator(s: string, sep: char)
    requires forall i :: 0 <= i < |s| ==> s[i] != sep
    ensures Split(s, sep) == [s]
  {
    if |s| > 0 {
      SplitNoSeparator(s[1..], sep);
      assert [s[0]] + s[1..] == s;
    }
  }

  /** `words.join(sep)`. */
  function Join(words: seq<string>, sep: char): string
  {
    if |words| == 0 then "" else if |words| == 1 then words[0] else words[0] + [sep] + Join(words[1..], sep)
  }

  /** Splitting and joining with the same separator gives the string back. */
  lemma {:induction false} SplitJoinRoundTrip(s: string, sep: char)
    ensures Join(Split(s, sep), sep) == s
  {
    if |s| > 0 {
      var rest := Split(s[1..], sep);
      SplitJoinRoundTrip(s[1..], sep);
      if s[0] == sep {
        assert Split(s, sep) == [""] + rest;
        assert ([""] + rest)[1..] == rest;
      } else {
        var w := [[s[0]] + rest[0]] + rest[1..];
        assert Split(s, sep) == w;
        if |rest| == 1 {
          assert Join(rest, sep) == rest[0];
        } else {
          assert w[1..] == rest[1..];
          assert Join(rest, sep) == rest[0] + [sep] + Join(rest[1..], sep);
        }
      }
    }
  }
}
