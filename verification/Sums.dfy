/** Finite sums. */
module Sums {
  import opened Sequences

  ghost function Total(s: seq<int>): int {
    if s == [] then 0 else Total(s[..|s| - 1]) + s[|s| - 1]
  }

  /** Changing one term changes the sum by the difference. */
  lemma {:induction false} TotalUpdate(s: seq<int>, i: nat, v: int)
    requires i < |s|
    ensures Total(s[i := v]) == Total(s) - s[i] + v
  {
    var n := |s| - 1;
    if i == n {
      assert s[i := v][..n] == s[..n];
    } else {
      TotalUpdate(s[..n], i, v);
      assert s[i := v][..n] == s[..n][i := v];
    }
  }

  lemma {:induction false} TotalBounds(s: seq<int>, lo: int, hi: int)
    requires forall i | 0 <= i < |s| :: lo <= s[i] <= hi
    ensures lo * |s| <= Total(s) <= hi * |s|
  {
    if s != [] {
      var n := |s| - 1;
      TotalBounds(s[..n], lo, hi);
      assert lo * (n + 1) == lo * n + lo && hi * (n + 1) == hi * n + hi;
    }
  }

  ghost function Max(s: seq<int>): (m: int)
    ensures forall i | 0 <= i < |s| :: s[i] <= m
    ensures m >= 0 && (m == 0 || m in s)
  {
    if s == [] then 0
    else
      var m := Max(s[..|s| - 1]);
      if m < s[|s| - 1] then s[|s| - 1] else m
  }

  /** A sum of non-negative terms is at least each of them. */
  lemma {:induction false} TotalAtLeast(s: seq<int>, i: nat)
    requires i < |s| && forall j | 0 <= j < |s| :: 0 <= s[j]
    ensures s[i] <= Total(s)
  {
    TotalBounds(s[..|s| - 1], 0, Max(s));
    if i < |s| - 1 {
      TotalAtLeast(s[..|s| - 1], i);
    }
  }

  // ---- sums of real-valued terms f(0) + ... + f(n - 1)

  ghost function Sum(f: int -> real, n: nat): real {
    if n == 0 then 0.0 else Sum(f, n - 1) + f(n - 1)
  }

  lemma {:induction false} SumSame(f: int -> real, g: int -> real, n: nat)
    requires forall i | 0 <= i < n :: f(i) == g(i)
    ensures Sum(f, n) == Sum(g, n)
  {
    if n > 0 {
      SumSame(f, g, n - 1);
    }
  }

  lemma {:induction false} SumAtMost(f: int -> real, g: int -> real, n: nat)
    requires forall i | 0 <= i < n :: f(i) <= g(i)
    ensures Sum(f, n) <= Sum(g, n)
  {
    if n > 0 {
      SumAtMost(f, g, n - 1);
    }
  }

  lemma {:induction false} SumBelow(f: int -> real, g: int -> real, n: nat)
    requires n > 0 && forall i | 0 <= i < n :: f(i) < g(i)
    ensures Sum(f, n) < Sum(g, n)
  {
    if n > 1 {
      SumBelow(f, g, n - 1);
    }
  }

  /** Sums add up term by term. */
  lemma {:induction false} SumPlus(f: int -> real, g: int -> real, h: int -> real, n: nat)
    requires forall i | 0 <= i < n :: h(i) == f(i) + g(i)
    ensures Sum(h, n) == Sum(f, n) + Sum(g, n)
  {
    if n > 0 {
      SumPlus(f, g, h, n - 1);
    }
  }

  lemma {:induction false} SumZero(n: nat)
    ensures Sum(i => 0.0, n) == 0.0
  {
    SumPlus(i => 0.0, i => 0.0, i => 0.0, n);
  }

  /** Two sums that differ in one term only. */
  lemma {:induction false} SumChange(f: int -> real, g: int -> real, n: nat, k: nat)
    requires k < n && forall i | 0 <= i < n && i != k :: f(i) == g(i)
    ensures Sum(g, n) == Sum(f, n) - f(k) + g(k)
  {
    if k == n - 1 {
      SumSame(f, g, n - 1);
    } else {
      SumChange(f, g, n - 1, k);
    }
  }

  lemma {:induction false} SumNonNegative(f: int -> real, n: nat)
    requires forall i | 0 <= i < n :: f(i) >= 0.0
    ensures Sum(f, n) >= 0.0
  {
    if n > 0 {
      SumNonNegative(f, n - 1);
    }
  }

  lemma {:induction false} SumTermAtMost(f: int -> real, n: nat, k: nat)
    requires k < n && forall i | 0 <= i < n :: f(i) >= 0.0
    ensures f(k) <= Sum(f, n)
  {
    SumNonNegative(f, n - 1);
    if k < n - 1 {
      SumTermAtMost(f, n - 1, k);
    }
  }

  // ---- sums over finite sets

  ghost function SumOver(s: set<nat>, f: nat -> int): int {
    if s == {} then 0
    else
      var x :| x in s;
      f(x) + SumOver(s - {x}, f)
  }

  /** The order in which a set is summed does not matter. */
  lemma {:induction false} SumOverWithout(s: set<nat>, f: nat -> int, x: nat)
    requires x in s
    ensures SumOver(s, f) == f(x) + SumOver(s - {x}, f)
    decreases |s|
  {
    var y :| y in s && SumOver(s, f) == f(y) + SumOver(s - {y}, f);
    if y != x {
      SumOverWithout(s - {y}, f, x);
      SumOverWithout(s - {x}, f, y);
      assert s - {y} - {x} == s - {x} - {y};
    }
  }

  lemma SumOverWith(s: set<nat>, f: nat -> int, x: nat)
    requires x !in s
    ensures SumOver(s + {x}, f) == SumOver(s, f) + f(x)
  {
    SumOverWithout(s + {x}, f, x);
    assert s + {x} - {x} == s;
  }

  // ---- sums over the members of a list

  ghost function SumAt(f: int -> real, s: seq<nat>): real {
    if s == [] then 0.0 else SumAt(f, s[..|s| - 1]) + f(s[|s| - 1])
  }

  /** `f` on the members of `s`, and 0 elsewhere. */
  ghost function OnlyAt(f: int -> real, s: set<nat>): int -> real {
    j => if j >= 0 && j in s then f(j) else 0.0
  }

  /** A list without repetitions sums to the terms of its members. */
  lemma {:induction false} SumAtMembers(f: int -> real, s: seq<nat>, n: nat)
    requires Distinct(s) && forall x | x in s :: x < n
    ensures SumAt(f, s) == Sum(OnlyAt(f, SetOf(s)), n)
  {
    if s == [] {
      SumSame(OnlyAt(f, SetOf(s)), i => 0.0, n);
      SumZero(n);
    } else {
      var short, x := s[..|s| - 1], s[|s| - 1];
      DistinctSplit(s);
      assert forall y | y in short :: y in s;
      assert x in s;
      SumAtMembers(f, short, n);
      SetOfSnoc(short, x);
      assert x !in SetOf(short);
      SumChange(OnlyAt(f, SetOf(short)), OnlyAt(f, SetOf(s)), n, x);
    }
  }
}
