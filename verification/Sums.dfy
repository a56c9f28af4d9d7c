// Sums of a weight over a sequence: byte totals, reservations held, and the
// number of owners of a path are all sums of this kind.
module Sums {
  function Sum<T>(s: seq<T>, f: T -> int): int {
    if s == [] then 0 else f(s[0]) + Sum(s[1..], f)
  }

  lemma {:induction false} SumConcat<T>(a: seq<T>, b: seq<T>, f: T -> int)
    ensures Sum(a + b, f) == Sum(a, f) + Sum(b, f)
  {
    if a == [] {
      assert a + b == b;
    } else {
      assert (a + b)[1..] == a[1..] + b;
      SumConcat(a[1..], b, f);
    }
  }

  lemma SumSplit<T>(s: seq<T>, n: nat, f: T -> int)
    requires n <= |s|
    ensures Sum(s, f) == Sum(s[..n], f) + Sum(s[n..], f)
  {
    assert s == s[..n] + s[n..];
    SumConcat(s[..n], s[n..], f);
  }

  lemma {:induction false} SumNonNegative<T>(s: seq<T>, f: T -> int)
    requires forall x :: x in s ==> f(x) >= 0
    ensures Sum(s, f) >= 0
  {
    if s != [] { SumNonNegative(s[1..], f); }
  }

  lemma SumSingle<T>(x: T, f: T -> int)
    ensures Sum([x], f) == f(x)
  {
    assert [x][1..] == [];
  }

  lemma SumUpdate<T>(s: seq<T>, i: nat, x: T, f: T -> int)
    requires i < |s|
    ensures Sum(s[i := x], f) == Sum(s, f) - f(s[i]) + f(x)
  {
    SumSplit(s, i, f);
    SumSplit(s[i := x], i, f);
    assert s[i := x][..i] == s[..i];
    assert s[i := x][i..][1..] == s[i..][1..];
  }

  lemma {:induction false} SumBounds<T>(s: seq<T>, i: nat, f: T -> int)
    requires i < |s| && forall x :: x in s ==> f(x) >= 0
    ensures f(s[i]) <= Sum(s, f)
  {
    if i == 0 { SumNonNegative(s[1..], f); } else { SumBounds(s[1..], i - 1, f); }
  }

  lemma SumMember<T>(s: seq<T>, x: T, f: T -> int)
    requires x in s && forall y :: y in s ==> f(y) >= 0
    ensures f(x) <= Sum(s, f)
  {
    var i :| 0 <= i < |s| && s[i] == x;
    SumBounds(s, i, f);
  }

  lemma {:induction false} SumPair<T>(s: seq<T>, i: nat, j: nat, f: T -> int)
    requires i < j < |s| && forall x :: x in s ==> f(x) >= 0
    ensures f(s[i]) + f(s[j]) <= Sum(s, f)
  {
    if i == 0 { SumBounds(s[1..], j - 1, f); } else { SumPair(s[1..], i - 1, j - 1, f); }
  }

  lemma SumRemove<T>(s: seq<T>, i: nat, f: T -> int)
    requires i < |s|
    ensures Sum(s[..i] + s[i + 1..], f) == Sum(s, f) - f(s[i])
  {
    SumSplit(s, i, f);
    SumConcat(s[..i], s[i + 1..], f);
    assert s[i..][1..] == s[i + 1..];
  }

  function Reverse<T>(s: seq<T>): seq<T> {
    seq(|s|, i requires 0 <= i < |s| => s[|s| - 1 - i])
  }

  lemma {:induction false} SumReverse<T>(s: seq<T>, f: T -> int)
    ensures Sum(Reverse(s), f) == Sum(s, f)
  {
    if s != [] {
      SumReverse(s[1..], f);
      assert Reverse(s) == Reverse(s[1..]) + [s[0]];
      SumConcat(Reverse(s[1..]), [s[0]], f);
      SumSingle(s[0], f);
    }
  }

  function Is<T(==)>(x: T): T -> int {
    y => if y == x then 1 else 0
  }

  lemma {:induction false} SumCounts<T>(s: seq<T>, x: T)
    ensures Sum(s, Is(x)) == multiset(s)[x]
  {
    if s != [] {
      assert s == [s[0]] + s[1..];
      SumCounts(s[1..], x);
    }
  }
}
