/** Small facts about sequences and sorted enumerations that several modules need. */
module Sequences {
  ghost predicate Distinct<T>(s: seq<T>) {
    forall i, j | 0 <= i < j < |s| :: s[i] != s[j]
  }

  ghost function SetOf<T>(s: seq<T>): set<T> {
    set x | x in s
  }

  lemma InSnoc<T>(s: seq<T>, x: T)
    ensures forall y :: y in s + [x] <==> y in s || y == x
  {
  }

  lemma DistinctSplit<T>(s: seq<T>)
    requires Distinct(s) && s != []
    ensures s == s[..|s| - 1] + [s[|s| - 1]]
    ensures Distinct(s[..|s| - 1]) && s[|s| - 1] !in s[..|s| - 1]
    ensures forall x | x in s[..|s| - 1] :: x in s
  {
  }

  /** A sequence without repetitions has as many elements as its set. */
  lemma {:induction false} DistinctCount<T>(s: seq<T>)
    requires Distinct(s)
    ensures |SetOf(s)| == |s|
  {
    if s == [] {
      assert SetOf(s) == {};
    } else {
      var last := s[|s| - 1];
      DistinctCount(s[..|s| - 1]);
      assert last !in s[..|s| - 1];
      assert SetOf(s) == SetOf(s[..|s| - 1]) + {last};
    }
  }

  /** Two sets with the same number of elements, one inside the other, are equal. */
  lemma SubsetSameSize<T>(a: set<T>, b: set<T>)
    requires a <= b && |a| == |b|
    ensures a == b
  {
    assert |b - a| == |b| - |a|;
  }

  lemma SubsetCount<T>(a: set<T>, b: set<T>)
    requires a <= b
    ensures |a| <= |b|
  {
    assert |b - a| == |b| - |a|;
  }

  function Reversed<T>(s: seq<T>): (r: seq<T>)
    ensures |r| == |s|
    ensures forall i | 0 <= i < |s| :: r[i] == s[|s| - 1 - i]
  {
    seq(|s|, i requires 0 <= i < |s| => s[|s| - 1 - i])
  }

  ghost predicate Increasing(s: seq<nat>) {
    forall i, j | 0 <= i < j < |s| :: s[i] < s[j]
  }

  lemma IncreasingSnoc(s: seq<nat>, x: nat)
    requires Increasing(s) && forall y | y in s :: y < x
    ensures Increasing(s + [x])
  {
    var r := s + [x];
    forall i, j | 0 <= i < j < |r| ensures r[i] < r[j] {
      assert r[i] == s[i] && s[i] in s;
    }
  }

  lemma LeastExists(s: set<nat>) returns (m: nat)
    requires s != {}
    ensures m in s && forall x | x in s :: m <= x
  {
    var x :| x in s;
    if s == {x} {
      m := x;
    } else {
      assert s - {x} != {} by {
        assert s == {x} + (s - {x});
      }
      var y := LeastExists(s - {x});
      m := if x < y then x else y;
    }
  }

  method Least(s: set<nat>) returns (m: nat)
    requires s != {}
    ensures m in s && forall x | x in s :: m <= x
  {
    ghost var least := LeastExists(s);
    m :| m in s && forall x | x in s :: m <= x;
  }

  lemma SetOfSnoc<T>(s: seq<T>, x: T)
    ensures SetOf(s + [x]) == SetOf(s) + {x}
  {
  }

  /** The library's `sorted` on a set: its elements in increasing order. */
  method Sorted(s: set<nat>) returns (q: seq<nat>)
    ensures Increasing(q)
    ensures SetOf(q) == s
  {
    q := [];
    var rest := s;
    while rest != {}
      invariant rest <= s && SetOf(q) == s - rest
      invariant Increasing(q)
      invariant forall i, x | 0 <= i < |q| && x in rest :: q[i] < x
      decreases |rest|
    {
      var m := Least(rest);
      SetOfSnoc(q, m);
      q := q + [m];
      rest := rest - {m};
    }
  }

  lemma SmallerWithout<K, V>(m: map<K, V>, k: K)
    requires k in m
    ensures |m - {k}| < |m|
  {
    assert (m - {k}).Keys == m.Keys - {k};
    assert |(m - {k}).Keys| == |m.Keys| - 1;
  }

  lemma InsertedAt<T>(s: seq<T>, k: nat, x: T, i: nat)
    requires k <= |s| && i <= |s|
    ensures (s[..k] + [x] + s[k..])[i] == if i < k then s[i] else if i == k then x else s[i - 1]
  {
  }

  lemma InsertedOnce<T>(s: seq<T>, k: nat, x: T)
    requires k <= |s| && Distinct(s) && x !in s
    ensures Distinct(s[..k] + [x] + s[k..]) && SetOf(s[..k] + [x] + s[k..]) == SetOf(s) + {x}
  {
    var r := s[..k] + [x] + s[k..];
    forall i, j | 0 <= i < j < |r| ensures r[i] != r[j] {
      InsertedAt(s, k, x, i);
      InsertedAt(s, k, x, j);
    }
    assert s == s[..k] + s[k..];
    assert forall y :: y in r <==> y in s || y == x;
  }
}
