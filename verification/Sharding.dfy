/** Least-loaded list scheduling: how far the heaviest shard can be from the best possible. */
module Sharding {
  import opened Sums

  /** What shard `i` carries of the first `k` jobs. */
  ghost function Load(w: seq<int>, a: seq<nat>, k: nat, i: nat): int
    requires k <= |w| && k <= |a|
  {
    if k == 0 then 0 else Load(w, a, k - 1, i) + if a[k - 1] == i then w[k - 1] else 0
  }

  ghost predicate IsLeast(w: seq<int>, a: seq<nat>, m: nat, j: nat)
    requires j < |w| && j < |a|
  {
    forall i | 0 <= i < m :: Load(w, a, j, a[j]) <= Load(w, a, j, i)
  }

  /** Every job went to a shard that was least loaded at that moment. */
  ghost predicate IsGreedy(w: seq<int>, a: seq<nat>, m: nat) {
    && |a| == |w|
    && (forall j | 0 <= j < |w| :: w[j] >= 0 && a[j] < m)
    && forall j | 0 <= j < |w| :: IsLeast(w, a, m, j)
  }

  ghost predicate IsAssignment(w: seq<int>, f: seq<nat>, m: nat) {
    |f| == |w| && forall j | 0 <= j < |f| :: f[j] < m
  }

  ghost function Loads(w: seq<int>, a: seq<nat>, k: nat, m: nat): (s: seq<int>)
    requires k <= |w| && k <= |a|
    ensures |s| == m && forall i | 0 <= i < m :: s[i] == Load(w, a, k, i)
  {
    seq(m, i requires 0 <= i < m => Load(w, a, k, i))
  }

  /** Whatever the assignment, the shards together carry all the jobs. */
  lemma {:induction false} LoadsAddUp(w: seq<int>, a: seq<nat>, k: nat, m: nat)
    requires k <= |w| && k <= |a| && forall j | 0 <= j < k :: a[j] < m
    ensures Total(Loads(w, a, k, m)) == Total(w[..k])
  {
    if k == 0 {
      TotalBounds(Loads(w, a, 0, m), 0, 0);
    } else {
      LoadsAddUp(w, a, k - 1, m);
      var i := a[k - 1];
      assert Loads(w, a, k, m) == Loads(w, a, k - 1, m)[i := Load(w, a, k, i)];
      TotalUpdate(Loads(w, a, k - 1, m), i, Load(w, a, k, i));
      assert w[..k][..k - 1] == w[..k - 1];
    }
  }

  lemma {:induction false} LoadGrows(w: seq<int>, a: seq<nat>, k: nat, n: nat, i: nat)
    requires k <= n <= |w| && n <= |a| && forall j | 0 <= j < |w| :: w[j] >= 0
    ensures 0 <= Load(w, a, k, i) <= Load(w, a, n, i)
    decreases n
  {
    if n > 0 {
      if k == n {
        LoadGrows(w, a, k - 1, n - 1, i);
      } else {
        LoadGrows(w, a, k, n - 1, i);
      }
    }
  }

  lemma {:induction false} LoadOfOne(w: seq<int>, a: seq<nat>, k: nat, l: nat)
    requires l < k <= |w| && k <= |a| && forall j | 0 <= j < |w| :: w[j] >= 0
    ensures Load(w, a, k, a[l]) >= w[l]
  {
    LoadGrows(w, a, l, l, a[l]);
    LoadGrows(w, a, l + 1, k, a[l]);
  }

  lemma LoadOfTwo(w: seq<int>, a: seq<nat>, k: nat, l: nat, r: nat)
    requires l < r < k <= |w| && k <= |a| && a[l] == a[r] && forall j | 0 <= j < |w| :: w[j] >= 0
    ensures Load(w, a, k, a[l]) >= w[l] + w[r]
  {
    LoadOfOne(w, a, r, l);
    LoadGrows(w, a, r + 1, k, a[r]);
  }

  lemma {:induction false} LoadOfNone(w: seq<int>, a: seq<nat>, k: nat, i: nat)
    requires k <= |w| && k <= |a| && forall j | 0 <= j < k :: a[j] != i
    ensures Load(w, a, k, i) == 0
  {
    if k > 0 {
      LoadOfNone(w, a, k - 1, i);
    }
  }

  lemma {:induction false} LoadAlone(w: seq<int>, a: seq<nat>, k: nat, l: nat)
    requires l < k <= |w| && k <= |a| && forall j | 0 <= j < k && j != l :: a[j] != a[l]
    ensures Load(w, a, k, a[l]) == w[l]
    decreases k
  {
    if l == k - 1 {
      LoadOfNone(w, a, l, a[l]);
    } else {
      LoadAlone(w, a, k - 1, l);
    }
  }

  // ---- the last job of the heaviest shard

  lemma {:induction false} LastJob(w: seq<int>, a: seq<nat>, k: nat, i: nat) returns (j: int)
    requires k <= |w| && k <= |a|
    ensures -1 <= j < k
    ensures j == -1 ==> Load(w, a, k, i) == 0
    ensures j >= 0 ==> a[j] == i && Load(w, a, k, i) == Load(w, a, j, i) + w[j]
  {
    if k == 0 {
      j := -1;
    } else if a[k - 1] == i {
      j := k - 1;
    } else {
      j := LastJob(w, a, k - 1, i);
    }
  }

  lemma {:induction false} TotalGrows(w: seq<int>, k: nat, n: nat)
    requires k <= n <= |w| && forall j | 0 <= j < |w| :: w[j] >= 0
    ensures Total(w[..k]) <= Total(w[..n])
    decreases n
  {
    if k < n {
      TotalGrows(w, k, n - 1);
      assert w[..n][..n - 1] == w[..n - 1];
    }
  }

  lemma TotalPrefix(w: seq<int>, j: nat)
    requires j < |w| && forall k | 0 <= k < |w| :: w[k] >= 0
    ensures Total(w[..j]) + w[j] <= Total(w)
  {
    assert w[..|w|] == w;
    TotalGrows(w, j + 1, |w|);
    assert w[..j + 1][..j] == w[..j];
  }

  lemma AverageBound(m: nat, x: int, y: int, before: int, total: int)
    requires m >= 1 && x * m <= before && before + y <= total
    ensures m * (x + y) <= total + (m - 1) * y
  {
    assert m * (x + y) == x * m + m * y;
    assert (m - 1) * y == m * y - y;
  }

  lemma {:induction false} FloorBounds(s: seq<int>, lo: int)
    requires forall i | 0 <= i < |s| :: lo <= s[i]
    ensures lo * |s| <= Total(s)
  {
    if s != [] {
      FloorBounds(s[..|s| - 1], lo);
    }
  }

  /** The job that comes last in a shard was put where the load was at most the average. */
  lemma LastJobBound(w: seq<int>, a: seq<nat>, m: nat, i: nat, j: nat)
    requires IsGreedy(w, a, m) && i < m && j < |w| && a[j] == i
    requires Load(w, a, |w|, i) == Load(w, a, j, i) + w[j]
    ensures m * Load(w, a, |w|, i) <= Total(w) + (m - 1) * w[j]
  {
    hide Load;
    assert IsLeast(w, a, m, j);
    LoadsAddUp(w, a, j, m);
    FloorBounds(Loads(w, a, j, m), Load(w, a, j, i));
    TotalPrefix(w, j);
    AverageBound(m, Load(w, a, j, i), w[j], Total(w[..j]), Total(w));
  }

  lemma {:induction false} CeilingBounds(s: seq<int>, hi: int)
    requires forall i | 0 <= i < |s| :: s[i] <= hi
    ensures Total(s) <= hi * |s|
  {
    if s != [] {
      CeilingBounds(s[..|s| - 1], hi);
    }
  }

  lemma NotNegative(x: int, y: int)
    requires x >= 0 && y >= 0
    ensures x * y >= 0
  {
  }

  /** No shard exceeds the average by more than a fraction of the heaviest unit. */
  lemma GreedyBound(w: seq<int>, a: seq<nat>, m: nat, i: nat, heaviest: nat)
    requires IsGreedy(w, a, m) && i < m && forall j | 0 <= j < |w| :: w[j] <= heaviest
    ensures m * Load(w, a, |w|, i) <= Total(w) + (m - 1) * heaviest
  {
    hide Load;
    var j := LastJob(w, a, |w|, i);
    if j == -1 {
      FloorBounds(w, 0);
      NotNegative(m - 1, heaviest);
    } else {
      LastJobBound(w, a, m, i, j);
      NotNegative(m - 1, heaviest - w[j]);
    }
  }

  // ---- against the best assignment, when the jobs come heaviest first

  ghost predicate Descending(w: seq<int>) {
    forall i, j | 0 <= i < j < |w| :: w[i] >= w[j]
  }

  ghost predicate Within(w: seq<int>, f: seq<nat>, m: nat, best: int) {
    IsAssignment(w, f, m) && forall i | 0 <= i < m :: Load(w, f, |w|, i) <= best
  }

  ghost predicate Alone(a: seq<nat>, k: nat, l: nat)
    requires l < k <= |a|
  {
    forall r | 0 <= r < k && r != l :: a[r] != a[l]
  }

  /** Jobs up to `j`, counted twice when the greedy shard holds nothing else. */
  ghost function Counts(a: seq<nat>, j: nat): (v: seq<int>)
    requires j < |a|
    ensures |v| == j + 1 && forall l | 0 <= l <= j :: v[l] == if l < j && Alone(a, j, l) then 2 else 1
  {
    seq(j + 1, l requires 0 <= l <= j => if l < j && Alone(a, j, l) then 2 else 1)
  }

  /** Job `j` is large and would push the least loaded shard over `best`. */
  ghost predicate Overflow(w: seq<int>, a: seq<nat>, m: nat, j: nat, best: int)
    requires j < |w|
  {
    IsGreedy(w, a, m) && Descending(w) && 3 * w[j] > best && Load(w, a, j, a[j]) + w[j] > best && w[j] <= best
  }

  /** Then every greedy shard counts for two or more already. */
  lemma GreedyCounts(w: seq<int>, a: seq<nat>, m: nat, j: nat, best: int, i: nat)
    requires j < |w| && i < m && Overflow(w, a, m, j, best)
    ensures Load(Counts(a, j), a, j, i) >= 2
  {
    var v := Counts(a, j);
    assert IsLeast(w, a, m, j);
    assert Load(w, a, j, i) > 0;
    if forall l | 0 <= l < j :: a[l] != i {
      LoadOfNone(w, a, j, i);
    }
    var l: nat :| l < j && a[l] == i;
    LoadOfOne(v, a, j, l);
    if !Alone(a, j, l) {
      var r: nat :| r < j && r != l && a[r] == a[l];
      if l < r {
        LoadOfTwo(v, a, j, l, r);
      } else {
        LoadOfTwo(v, a, j, r, l);
      }
    }
  }

  lemma {:induction false} ThreeTooMany(w: seq<int>, v: seq<int>, f: seq<nat>, k: nat, i: nat, best: int)
    requires k <= |w| && k <= |v| && k <= |f| && forall l | 0 <= l < k :: 3 * w[l] > best
    requires forall l | 0 <= l < k && f[l] == i :: v[l] == 1
    ensures 3 * Load(w, f, k, i) >= Load(v, f, k, i) * (best + 1)
  {
    if k > 0 {
      ThreeTooMany(w, v, f, k - 1, i, best);
      assert (Load(v, f, k - 1, i) + 1) * (best + 1) == Load(v, f, k - 1, i) * (best + 1) + (best + 1);
    }
  }

  lemma AtMostTwo(x: int, load: int, best: int)
    requires 3 * load >= x * (best + 1) && load <= best && best >= 0
    ensures x <= 2
  {
    if x >= 3 {
      NotNegative(x - 3, best + 1);
    }
  }

  lemma LargePair(w: seq<int>, a: seq<nat>, m: nat, j: nat, best: int, f: seq<nat>, i: nat, l: nat, r: nat)
    requires j < |w| && i < m && Overflow(w, a, m, j, best) && Within(w, f, m, best)
    requires l < j && f[l] == i && r <= j && r != l && w[l] + w[j] > best
    ensures f[r] != f[l]
  {
    LoadGrows(w, f, j + 1, |w|, i);
    assert w[r] >= w[j];
    if f[r] == f[l] {
      if l < r {
        LoadOfTwo(w, f, j + 1, l, r);
      } else {
        LoadOfTwo(w, f, j + 1, r, l);
      }
    }
  }

  /** And no shard of an assignment within `best` can count for more than two. */
  lemma BestCounts(w: seq<int>, a: seq<nat>, m: nat, j: nat, best: int, f: seq<nat>, i: nat)
    requires j < |w| && i < m && Overflow(w, a, m, j, best) && Within(w, f, m, best)
    ensures Load(Counts(a, j), f, j + 1, i) <= 2
  {
    hide Load;
    var v := Counts(a, j);
    LoadGrows(w, f, j + 1, |w|, i);
    if l: nat :| l < j && f[l] == i && Alone(a, j, l) {
      LoadAlone(w, a, j, l);
      assert IsLeast(w, a, m, j);
      assert w[l] + w[j] > best;
      forall r | 0 <= r <= j && r != l ensures f[r] != f[l] {
        LargePair(w, a, m, j, best, f, i, l, r);
      }
      LoadAlone(v, f, j + 1, l);
    } else {
      ThreeTooMany(w, v, f, j + 1, i, best);
      AtMostTwo(Load(v, f, j + 1, i), Load(w, f, j + 1, i), best);
    }
  }

  lemma GreedyTotal(w: seq<int>, a: seq<nat>, m: nat, j: nat, best: int)
    requires j < |w| && Overflow(w, a, m, j, best)
    ensures Total(Counts(a, j)) >= 2 * m + 1
  {
    hide Load, IsLeast, Descending;
    var v := Counts(a, j);
    forall i | 0 <= i < m ensures Load(v, a, j, i) >= 2 {
      GreedyCounts(w, a, m, j, best, i);
    }
    FloorBounds(Loads(v, a, j, m), 2);
    LoadsAddUp(v, a, j, m);
  }

  lemma BestTotal(w: seq<int>, a: seq<nat>, m: nat, j: nat, best: int, f: seq<nat>)
    requires j < |w| && Overflow(w, a, m, j, best) && Within(w, f, m, best)
    ensures Total(Counts(a, j)) <= 2 * m
  {
    hide Load, IsLeast, Descending;
    var v, k := Counts(a, j), j + 1;
    forall i | 0 <= i < m ensures Load(v, f, k, i) <= 2 {
      BestCounts(w, a, m, j, best, f, i);
    }
    CeilingBounds(Loads(v, f, k, m), 2);
    LoadsAddUp(v, f, k, m);
    assert v[..k] == v;
  }

  /** So a job larger than a third of the best makespan never overflows it: the greedy shards
      would count for more than two each, the best ones for at most two each. */
  lemma NoOverflow(w: seq<int>, a: seq<nat>, m: nat, j: nat, best: int, f: seq<nat>)
    requires j < |w| && IsGreedy(w, a, m) && Descending(w) && Within(w, f, m, best) && 3 * w[j] > best
    ensures Load(w, a, j, a[j]) + w[j] <= best
  {
    LoadOfOne(w, f, |w|, j);
    if Load(w, a, j, a[j]) + w[j] > best {
      GreedyTotal(w, a, m, j, best);
      BestTotal(w, a, m, j, best, f);
    }
  }

  lemma SmallLast(m: nat, load: int, total: int, last: int, best: int)
    requires m >= 1 && m * load <= total + (m - 1) * last && total <= best * m && 3 * last <= best
    ensures 3 * m * load <= (4 * m - 1) * best
  {
    assert (m - 1) * (3 * last) <= (m - 1) * best;
    assert (m - 1) * (3 * last) == 3 * ((m - 1) * last);
    assert 3 * m * load == 3 * (m * load);
    assert (4 * m - 1) * best == 3 * (best * m) + (m - 1) * best;
  }

  lemma LargeLast(m: nat, load: int, best: int)
    requires m >= 1 && load <= best && best >= 0
    ensures 3 * m * load <= (4 * m - 1) * best
  {
    assert 3 * m * load <= 3 * m * best;
    assert (4 * m - 1) * best == 3 * m * best + (m - 1) * best;
    assert (m - 1) * best >= 0;
  }

  /** The bound of heaviest-first scheduling: no shard is heavier than 4/3 - 1/(3m) times
      what any assignment at all could achieve as its heaviest. */
  lemma HeaviestFirstBound(w: seq<int>, a: seq<nat>, m: nat, f: seq<nat>, best: int, i: nat)
    requires IsGreedy(w, a, m) && Descending(w) && Within(w, f, m, best) && i < m
    ensures 3 * m * Load(w, a, |w|, i) <= (4 * m - 1) * best
  {
    hide Load, Descending;
    LoadGrows(w, f, 0, |w|, i);
    LoadsAddUp(w, f, |w|, m);
    CeilingBounds(Loads(w, f, |w|, m), best);
    assert w[..|w|] == w;
    var j := LastJob(w, a, |w|, i);
    var load := Load(w, a, |w|, i);
    if j == -1 {
      NotNegative(4 * m - 1, best);
    } else if 3 * w[j] <= best {
      LastJobBound(w, a, m, i, j);
      SmallLast(m, load, Total(w), w[j], best);
    } else {
      NoOverflow(w, a, m, j, best, f);
      LargeLast(m, load, best);
    }
  }
}
