/** Values shared by all parts of the engine. */
module Basics {

  datatype Option<+T> = None | Some(value: T) {
    function Or(otherwise: T): T {
      if None? then otherwise else value
    }
  }

  const TWO63 := 0x8000_0000_0000_0000
  const TWO64 := 0x1_0000_0000_0000_0000

  /** Integer division truncating toward zero. */
  function TDiv(a: int, b: int): (r: int)
    requires b > 0
    ensures a >= 0 ==> r >= 0 && r * b <= a < r * b + b
    ensures a <= 0 ==> r <= 0 && r * b - b < a <= r * b
  {
    if a >= 0 then a / b else -((-a) / b)
  }

  function Abs(x: int): nat {
    if x < 0 then -x else x
  }

  function AbsReal(x: real): real {
    if x < 0.0 then -x else x
  }

  function Max(a: real, b: real): real {
    if a >= b then a else b
  }

  ghost predicate Distinct<T>(s: seq<T>) {
    forall i, j :: 0 <= i < j < |s| ==> s[i] != s[j]
  }

  // ----- Quotients -----

  /** Quotient and remainder are determined by what they make up. */
  lemma QuotientUnique(x: int, m: nat, q: int, r: nat)
    requires r < m && x == m * q + r
    ensures x / m == q && x % m == r
  {
    var e := x / m - q;
    assert m * e == r - x % m;
    MultipleGap(m, e);
  }

  /** A multiple of m that is not zero is at least m away from it. */
  lemma MultipleGap(m: nat, e: int)
    ensures e >= 1 ==> m * e >= m
    ensures e <= -1 ==> m * e <= 0 - m
    ensures e == 0 ==> m * e == 0
  {
  }

  // ----- Ascending lists -----

  ghost predicate Ascending<T>(s: seq<T>, less: (T, T) -> bool) {
    forall i, j :: 0 <= i < j < |s| ==> less(s[i], s[j])
  }

  ghost predicate Strict<T(!new)>(less: (T, T) -> bool) {
    forall x, y :: less(x, y) ==> !less(y, x)
  }

  /** Ascending lists of the same things are the same. */
  lemma {:induction false} OneAscending<T(!new)>(s: seq<T>, t: seq<T>, less: (T, T) -> bool)
    requires Strict(less) && Ascending(s, less) && Ascending(t, less) && forall x :: x in s <==> x in t
    ensures s == t
  {
    assert |t| > 0 ==> t[0] in t;
    if s != [] {
      var n, m := |s| - 1, |t| - 1;
      assert s[n] in s && s[n] in t && t[m] in t && t[m] in s;
      SameLast(s, t, less);
      SameFront(s, t, s[..n], t[..m], less);
      OneAscending(s[..n], t[..m], less);
    }
  }

  lemma SameLast<T(!new)>(s: seq<T>, t: seq<T>, less: (T, T) -> bool)
    requires Strict(less) && Ascending(s, less) && Ascending(t, less)
    requires s != [] && t != [] && s[|s| - 1] in t && t[|t| - 1] in s
    ensures s[|s| - 1] == t[|t| - 1]
  {
    var i :| 0 <= i < |t| && t[i] == s[|s| - 1];
    var j :| 0 <= j < |s| && s[j] == t[|t| - 1];
  }

  lemma SameFront<T(!new)>(s: seq<T>, t: seq<T>, s': seq<T>, t': seq<T>, less: (T, T) -> bool)
    requires Strict(less) && Ascending(s, less) && Ascending(t, less) && forall x :: x in s <==> x in t
    requires s != [] && t != [] && s[|s| - 1] == t[|t| - 1] && s' == s[..|s| - 1] && t' == t[..|t| - 1]
    ensures forall x :: x in s' <==> x in t'
  {
    forall x
      ensures x in s' <==> x in t'
    {
      InFront(s, x, less);
      InFront(t, x, less);
    }
  }

  lemma InFront<T(!new)>(s: seq<T>, x: T, less: (T, T) -> bool)
    requires Strict(less) && Ascending(s, less) && s != []
    ensures x in s[..|s| - 1] <==> x in s && x != s[|s| - 1]
  {
    var n := |s| - 1;
    if x in s && x != s[n] {
      var i :| 0 <= i < |s| && s[i] == x;
      assert s[..n][i] == x;
    }
    if x in s[..n] {
      var i :| 0 <= i < n && s[..n][i] == x;
      assert s[i] == x && less(s[i], s[n]);
    }
  }
}
