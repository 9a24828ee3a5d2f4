/** Shared vocabulary for the model: optional values, integer rounding of reals,
    order-preserving filtering, a stable descending sort (the behaviour of a
    JavaScript `Array.prototype.sort` with a `b - a` comparator), ASCII
    lower-casing and splitting a string on one separator character. */
module Common {

  /** `undefined`/`null` versus a present value. */
  datatype Option<+T> = None | Some(value: T) {
    function GetOr(default: T): T {
      match this
      case Some(v) => v
      case None => default
    }
  }

  function Min(a: int, b: int): int { if a <= b then a else b }
  function Max(a: int, b: int): int { if a >= b then a else b }
  function MinReal(a: real, b: real): real { if a <= b then a else b }

  /** `Math.floor` on an exact real. */
  function Floor(x: real): (r: int)
    ensures r as real <= x < r as real + 1.0
  {
    x.Floor
  }

  /** `Math.ceil` on an exact real. */
  function Ceil(x: real): (r: int)
    ensures x <= r as real < x + 1.0
  {
    -((-x).Floor)
  }

  /** Truncation toward zero, which is how JavaScript turns a finite number
      into a whole one (`Math.trunc`, the index arguments of `slice`). */
  function Trunc(x: real): (r: int)
    ensures x >= 0.0 ==> r as real <= x < r as real + 1.0
    ensures x < 0.0 ==> r as real - 1.0 < x <= r as real
  {
    if x >= 0.0 then x.Floor else -((-x).Floor)
  }

  /** Truncation is the floor of the magnitude, signed. */
  lemma TruncIsSignedFloor(x: real)
    ensures x >= 0.0 ==> Trunc(x) == Floor(x)
    ensures x < 0.0 ==> Trunc(x) == -Floor(-x)
  {
  }

  /** The ceiling is the least integer not below `x`. */
  lemma CeilLeast(x: real, k: int)
    requires x <= k as real
    ensures Ceil(x) <= k
  {
  }

  /* ---------------------------------------------------------------------- */
  /* Filtering                                                                */
  /* ---------------------------------------------------------------------- */

  /** `Array.prototype.filter`: keeps, in order, the elements satisfying `p`. */
  function Filter<T(!new)>(s: seq<T>, p: T -> bool): (r: seq<T>)
    ensures |r| <= |s|
    ensures forall i :: 0 <= i < |r| ==> p(r[i])
    ensures forall x :: multiset(r)[x] == if p(x) then multiset(s)[x] else 0
  {
    if |s| == 0 then []
    else
      assert s == [s[0]] + s[1..];
      var rest := Filter(s[1..], p);
      if p(s[0]) then [s[0]] + rest else rest
  }

  lemma FilterMembership<T(!new)>(s: seq<T>, p: T -> bool, x: T)
    ensures x in Filter(s, p) <==> x in s && p(x)
  {
    var r := Filter(s, p);
    assert x in r <==> multiset(r)[x] > 0;
    assert x in s <==> multiset(s)[x] > 0;
  }

  /** Strictly increasing by an integer key. */
  predicate IncreasingBy<T>(s: seq<T>, key: T -> int) {
    forall i, j :: 0 <= i < j < |s| ==> key(s[i]) < key(s[j])
  }

  /** Filtering keeps an order the input already had. */
  lemma {:induction false} FilterKeepsIncreasing<T(!new)>(s: seq<T>, p: T -> bool, key: T -> int)
    requires IncreasingBy(s, key)
    ensures IncreasingBy(Filter(s, p), key)
    decreases |s|
  {
    if |s| > 0 {
      var rest := Filter(s[1..], p);
      FilterKeepsIncreasing(s[1..], p, key);
      if p(s[0]) {
        HeadBelowFilteredTail(s, p, key);
        assert Filter(s, p) == [s[0]] + rest;
        IncreasingCons(s[0], rest, key);
      } else {
        assert Filter(s, p) == rest;
      }
    }
  }

  /** The head of an increasing list is below everything filtered from its tail. */
  lemma HeadBelowFilteredTail<T(!new)>(s: seq<T>, p: T -> bool, key: T -> int)
    requires |s| > 0 && IncreasingBy(s, key)
    ensures forall i :: 0 <= i < |Filter(s[1..], p)| ==> key(s[0]) < key(Filter(s[1..], p)[i])
  {
    var tail := s[1..];
    var rest := Filter(tail, p);
    forall i | 0 <= i < |rest|
      ensures key(s[0]) < key(rest[i])
    {
      var x := rest[i];
      FilterMembership(tail, p, x);
      var k :| 0 <= k < |tail| && tail[k] == x;
      assert s[k + 1] == x;
    }
  }

  /** Putting an element below everything in front of an increasing list
      keeps it increasing. */
  lemma IncreasingCons<T>(x: T, rest: seq<T>, key: T -> int)
    requires IncreasingBy(rest, key)
    requires forall i :: 0 <= i < |rest| ==> key(x) < key(rest[i])
    ensures IncreasingBy([x] + rest, key)
  {
    var r := [x] + rest;
    forall i, j | 0 <= i < j < |r|
      ensures key(r[i]) < key(r[j])
    {
      assert r[j] == rest[j - 1];
      if i > 0 {
        assert r[i] == rest[i - 1];
      }
    }
  }

  /** Filtering keeps the relative order of the survivors: the output is the
      input with the rejected elements removed, one front element at a time. */
  lemma FilterOfAppend<T(!new)>(a: seq<T>, b: seq<T>, p: T -> bool)
    ensures Filter(a + b, p) == Filter(a, p) + Filter(b, p)
  {
    if |a| == 0 {
      assert a + b == b;
    } else {
      assert (a + b)[1..] == a[1..] + b;
      FilterOfAppend(a[1..], b, p);
    }
  }

  /** `Array.prototype.findIndex`: the position of the first element that
      satisfies `p`, if any does. */
  function FindFirst<T>(s: seq<T>, p: T -> bool): (r: Option<nat>)
    ensures r.Some? ==> r.value < |s| && p(s[r.value])
    ensures r.Some? ==> forall j :: 0 <= j < r.value ==> !p(s[j])
    ensures r.None? <==> forall j :: 0 <= j < |s| ==> !p(s[j])
  {
    if |s| == 0 then None
    else if p(s[0]) then Some(0)
    else
      match FindFirst(s[1..], p)
      case Some(i) => Some(i + 1)
      case None => None
  }

  /* ---------------------------------------------------------------------- */
  /* Stable descending sort                                                  */
  /* ---------------------------------------------------------------------- */

  /** Non-increasing by `key`. */
  predicate SortedDesc<T>(s: seq<T>, key: T -> real) {
    forall i, j :: 0 <= i < j < |s| ==> key(s[i]) >= key(s[j])
  }

  /** Inserts `x` in front of the first element whose key is not greater than
      its own, so that `x` stays ahead of later equal-keyed elements. */
  function InsertDesc<T>(x: T, s: seq<T>, key: T -> real): (r: seq<T>)
    ensures multiset(r) == multiset(s) + multiset{x}
    ensures |r| == |s| + 1
    ensures forall y :: y in r ==> y == x || y in s
    ensures SortedDesc(s, key) ==> SortedDesc(r, key)
  {
    if |s| == 0 then [x]
    else if key(x) >= key(s[0]) then [x] + s
    else
      assert s == [s[0]] + s[1..];
      var rest := InsertDesc(x, s[1..], key);
      assert SortedDesc(s, key) ==> SortedDesc([s[0]] + rest, key) by {
        if SortedDesc(s, key) {
          forall i | 0 <= i < |rest|
            ensures key(s[0]) >= key(rest[i])
          {
            var y := rest[i];
            assert y in rest;
            if y != x {
              var k :| 0 <= k < |s[1..]| && s[1..][k] == y;
              assert s[k + 1] == y;
            }
          }
          SortedCons(s[0], rest, key);
        }
      }
      [s[0]] + rest
  }

  /** Putting an element no smaller than everything in front of a sorted list
      keeps it sorted. */
  lemma SortedCons<T>(x: T, rest: seq<T>, key: T -> real)
    requires SortedDesc(rest, key)
    requires forall i :: 0 <= i < |rest| ==> key(x) >= key(rest[i])
    ensures SortedDesc([x] + rest, key)
  {
    var r := [x] + rest;
    forall i, j | 0 <= i < j < |r|
      ensures key(r[i]) >= key(r[j])
    {
      assert r[j] == rest[j - 1];
      if i > 0 {
        assert r[i] == rest[i - 1];
      }
    }
  }

  /** A stable sort by non-increasing key: the model of `sort((a, b) => key(b) - key(a))`. */
  function SortDesc<T>(s: seq<T>, key: T -> real): (r: seq<T>)
    ensures multiset(r) == multiset(s)
    ensures |r| == |s|
    ensures SortedDesc(r, key)
  {
    if |s| == 0 then []
    else
      assert s == [s[0]] + s[1..];
      InsertDesc(s[0], SortDesc(s[1..], key), key)
  }

  /* ---------------------------------------------------------------------- */
  /* Strings                                                                 */
  /* ---------------------------------------------------------------------- */

  /** ASCII-only `toLowerCase` on one character. */
  function LowerChar(c: char): char {
    if 'A' <= c <= 'Z' then (c as int + 32) as char else c
  }

  function Lower(s: string): (r: string)
    ensures |r| == |s|
    ensures forall i :: 0 <= i < |s| ==> r[i] == LowerChar(s[i])
  {
    if |s| == 0 then "" else [LowerChar(s[0])] + Lower(s[1..])
  }

  /** `String.prototype.split` on a one-character separator: the maximal
      separator-free segments, so `k + 1` parts for `k` separators. */
  function Split(s: string, sep: char): (parts: seq<string>)
    ensures |parts| >= 1
    ensures forall i :: 0 <= i < |parts| ==> sep !in parts[i]
    decreases |s|
  {
    if |s| == 0 then [""]
    else if s[0] == sep then [""] + Split(s[1..], sep)
    else
      var rest := Split(s[1..], sep);
      [[s[0]] + rest[0]] + rest[1..]
  }

  /** The first part is the text up to the first separator; when there is a
      separator, the remaining parts are the split of what follows it. */
  lemma {:induction false} SplitFirst(s: string, sep: char)
    ensures var parts := Split(s, sep);
      && |parts[0]| <= |s| && s[..|parts[0]|] == parts[0]
      && (|parts| == 1 <==> sep !in s)
      && (|parts| > 1 ==>
            && |parts[0]| < |s| && s[|parts[0]|] == sep
            && Split(s[|parts[0]| + 1..], sep) == parts[1..])
    decreases |s|
  {
    if |s| > 0 && s[0] != sep {
      var rest := Split(s[1..], sep);
      SplitFirst(s[1..], sep);
      var parts := Split(s, sep);
      assert parts[0] == [s[0]] + rest[0] && parts[1..] == rest[1..];
      assert s == [s[0]] + s[1..];
      if |rest| > 1 {
        assert s[|parts[0]| + 1..] == s[1..][|rest[0]| + 1..];
      }
    }
  }

  /** `Array.prototype.join`. */
  function Join(parts: seq<string>, sep: string): string
    requires |parts| >= 1
  {
    if |parts| == 1 then parts[0] else parts[0] + sep + Join(parts[1..], sep)
  }

  /** Splitting and re-joining on the same separator restores the string. */
  lemma {:induction false} JoinSplit(s: string, sep: char)
    ensures Join(Split(s, sep), [sep]) == s
    decreases |s|
  {
    if |s| == 0 {
    } else if s[0] == sep {
      JoinSplit(s[1..], sep);
      assert s == [sep] + s[1..];
    } else {
      var rest := Split(s[1..], sep);
      JoinSplit(s[1..], sep);
      if |rest| == 1 {
        assert Split(s, sep) == [[s[0]] + rest[0]];
      } else {
        var parts := Split(s, sep);
        assert parts[1..] == rest[1..];
        assert Join(parts, [sep]) == [s[0]] + rest[0] + [sep] + Join(rest[1..], [sep]);
      }
      assert s == [s[0]] + s[1..];
    }
  }

  /** Joining separator-free parts and splitting again gives the parts back. */
  lemma {:induction false} SplitJoin(parts: seq<string>, sep: char)
    requires |parts| >= 1
    requires forall i :: 0 <= i < |parts| ==> sep !in parts[i]
    ensures Split(Join(parts, [sep]), sep) == parts
    decreases |parts|, |parts[0]|
  {
    if |parts| == 1 {
      SplitNoSep(parts[0], sep);
    } else if |parts[0]| == 0 {
      SplitJoin(parts[1..], sep);
      assert Join(parts, [sep]) == [sep] + Join(parts[1..], [sep]);
      SplitAtSep(Join(parts[1..], [sep]), sep);
      assert parts == [""] + parts[1..];
    } else {
      var p0 := parts[0];
      var shorter := [p0[1..]] + parts[1..];
      assert shorter[1..] == parts[1..];
      SplitJoin(shorter, sep);
      var j := Join(parts, [sep]);
      assert j == [p0[0]] + Join(shorter, [sep]);
      assert p0[0] in p0;
      SplitAtOther(p0[0], Join(shorter, [sep]), sep);
      assert p0 == [p0[0]] + p0[1..];
    }
  }

  /** A leading separator contributes an empty first part. */
  lemma SplitAtSep(t: string, sep: char)
    ensures Split([sep] + t, sep) == [""] + Split(t, sep)
  {
    assert ([sep] + t)[1..] == t;
  }

  /** A leading non-separator joins the first part. */
  lemma SplitAtOther(c: char, t: string, sep: char)
    requires c != sep
    ensures Split([c] + t, sep) == [[c] + Split(t, sep)[0]] + Split(t, sep)[1..]
  {
    assert ([c] + t)[1..] == t;
  }

  lemma {:induction false} SplitNoSep(s: string, sep: char)
    requires sep !in s
    ensures Split(s, sep) == [s]
    decreases |s|
  {
    if |s| > 0 {
      SplitNoSep(s[1..], sep);
      assert s == [s[0]] + s[1..];
    }
  }
}
