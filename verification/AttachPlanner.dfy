/** The attach planner: tensors of one shape group arrive in order; each attaches to the
    nearest fingerprinted base opened before it if that is predicted to compress well enough,
    and becomes a base otherwise. The planner works in chunks with precomputed distances; the
    specification takes one tensor at a time. */
module AttachPlanner {
  import opened Sequences

  /** Fingerprints of `width` integers, which rows have one, sizes in bits, and the predicted
      compression ratio as a function of the normalised distance. */
  datatype Arena = Arena(width: nat, bcs: (nat, nat) -> int, filled: nat -> bool, bits: nat -> nat,
                         predict: real -> real)

  const CR_THRESHOLD: real := 0.70

  const D_ROWS: real := 2.0

  /** A target with its base: positions in arrival order, normalised distance, prediction. */
  datatype Attachment = Attachment(target: nat, base: nat, dist: real, pred: real)

  /** Positions of bases, of fingerprinted bases and of bases without fingerprint. */
  datatype Plan = Plan(bases: seq<nat>, printed: seq<nat>, attach: seq<Attachment>, skipped: seq<nat>)

  // ---- distances

  ghost function SquaredDistance(a: Arena, r: nat, s: nat, width: nat): int {
    if width == 0 then 0
    else
      var diff := a.bcs(r, width - 1) - a.bcs(s, width - 1);
      SquaredDistance(a, r, s, width - 1) + diff * diff
  }

  ghost function Dot(a: Arena, r: nat, s: nat, width: nat): int {
    if width == 0 then 0 else Dot(a, r, s, width - 1) + a.bcs(r, width - 1) * a.bcs(s, width - 1)
  }

  lemma ExpandedSquare(x: int, y: int)
    ensures (x - y) * (x - y) == x * x - 2 * (x * y) + y * y
    ensures x * y == y * x
  {
  }

  /** The expanded square: what the matrix products compute is the squared distance. */
  lemma {:induction false} DistanceByDots(a: Arena, r: nat, s: nat, width: nat)
    ensures Dot(a, r, r, width) - 2 * Dot(a, r, s, width) + Dot(a, s, s, width) == SquaredDistance(a, r, s, width)
  {
    if width > 0 {
      DistanceByDots(a, r, s, width - 1);
      ExpandedSquare(a.bcs(r, width - 1), a.bcs(s, width - 1));
    }
  }

  method DotProduct(a: Arena, r: nat, s: nat) returns (d: int)
    ensures d == Dot(a, r, s, a.width)
  {
    d := 0;
    for k := 0 to a.width
      invariant d == Dot(a, r, s, k)
    {
      d := d + a.bcs(r, k) * a.bcs(s, k);
    }
  }

  /** The normalised distance of row `r` from squared distance `d`. */
  function Normalised(a: Arena, r: nat, d: int): real {
    d as real / D_ROWS / (if a.bits(r) < 1 then 1 else a.bits(r)) as real
  }

  lemma SignOfRatio(x: real, n: real)
    requires n > 0.0
    ensures x / n > 0.0 <==> x > 0.0
  {
    assert (x / n) * n == x;
    if x / n > 0.0 {
      assert (x / n) * n > 0.0;
    } else {
      assert (-(x / n)) * n >= 0.0;
    }
  }

  /** A squared distance is spread over the rows of both fingerprints and the bits of `r`. */
  lemma NormalisedMeans(a: Arena, r: nat, d: int)
    ensures Normalised(a, r, d) * (2 * (if a.bits(r) >= 1 then a.bits(r) else 1)) as real == d as real
  {
    var n := (if a.bits(r) < 1 then 1 else a.bits(r)) as real;
    assert d as real / D_ROWS / n * n == d as real / D_ROWS;
  }

  lemma NormalisedOrder(a: Arena, r: nat, d: int, e: int)
    ensures Normalised(a, r, d) < Normalised(a, r, e) <==> d < e
  {
    var n := (if a.bits(r) < 1 then 1 else a.bits(r)) as real;
    assert (e as real / D_ROWS) / n - (d as real / D_ROWS) / n == ((e - d) as real / D_ROWS) / n;
    var x := (e - d) as real / D_ROWS;
    assert x / n > 0.0 <==> x > 0.0 by { SignOfRatio(x, n); }
  }

  // ---- one tensor at a time

  ghost function Gap(a: Arena, rows: seq<nat>, q: nat, b: nat): int {
    if q < |rows| && b < |rows| then SquaredDistance(a, rows[q], rows[b], a.width) else 0
  }

  /** The index of the first nearest base. */
  ghost function Nearest(a: Arena, rows: seq<nat>, q: nat, printed: seq<nat>): (k: nat)
    requires printed != []
    ensures k < |printed|
    ensures forall j | 0 <= j < |printed| :: Gap(a, rows, q, printed[k]) <= Gap(a, rows, q, printed[j])
    ensures forall j | 0 <= j < k :: Gap(a, rows, q, printed[k]) < Gap(a, rows, q, printed[j])
  {
    if |printed| == 1 then 0
    else
      var last := |printed| - 1;
      var k := Nearest(a, rows, q, printed[..last]);
      if Gap(a, rows, q, printed[last]) < Gap(a, rows, q, printed[k]) then last else k
  }

  ghost predicate Fits(rows: seq<nat>, plan: Plan) {
    && (forall b | b in plan.printed :: b < |rows|)
    && (forall b | b in plan.bases :: b < |rows|)
    && (forall x | x in plan.attach :: x.target < |rows| && x.base < |rows|)
    && (forall b | b in plan.skipped :: b < |rows|)
  }

  ghost function Arrive(a: Arena, rows: seq<nat>, plan: Plan, q: nat): (r: Plan)
    requires q < |rows| && Fits(rows, plan)
    ensures Fits(rows, r)
  {
    var hasPrint := a.filled(rows[q]);
    if plan.bases == [] then
      if hasPrint then plan.(bases := [q], printed := plan.printed + [q])
      else plan.(bases := [q], skipped := plan.skipped + [q])
    else if !hasPrint then plan.(bases := plan.bases + [q], skipped := plan.skipped + [q])
    else if plan.printed == [] then plan.(bases := plan.bases + [q], printed := [q])
    else
      var b := plan.printed[Nearest(a, rows, q, plan.printed)];
      assert b in plan.printed;
      var dist := Normalised(a, rows[q], Gap(a, rows, q, b));
      if a.predict(dist) <= CR_THRESHOLD
      then plan.(attach := plan.attach + [Attachment(q, b, dist, a.predict(dist))])
      else plan.(bases := plan.bases + [q], printed := plan.printed + [q])
  }

  /** The plan after the first `n` arrivals. */
  ghost function Naive(a: Arena, rows: seq<nat>, n: nat): (r: Plan)
    requires n <= |rows|
    ensures Fits(rows, r)
  {
    if n == 0 then Plan([], [], [], []) else Arrive(a, rows, Naive(a, rows, n - 1), n - 1)
  }

  // ---- what the plan means

  ghost predicate IsTarget(plan: Plan, q: nat) {
    exists x | x in plan.attach :: x.target == q
  }

  /** `b` is the first nearest fingerprinted base opened before `q`. */
  ghost predicate FirstNearest(a: Arena, rows: seq<nat>, bases: seq<nat>, q: nat, b: nat) {
    && b < q < |rows| && b in bases && a.filled(rows[b])
    && forall c | c in bases && c < q && a.filled(rows[c]) ::
      Gap(a, rows, q, b) < Gap(a, rows, q, c) || (Gap(a, rows, q, b) == Gap(a, rows, q, c) && b <= c)
  }

  /** Every attachment is to the first nearest fingerprinted base before it and is predicted to
      pay. */
  ghost predicate WellAttached(a: Arena, rows: seq<nat>, plan: Plan, n: nat)
    requires n <= |rows|
  {
    forall x | x in plan.attach ::
      && x.target < n && a.filled(rows[x.target]) && FirstNearest(a, rows, plan.bases, x.target, x.base)
      && x.dist == Normalised(a, rows[x.target], Gap(a, rows, x.target, x.base))
      && x.pred == a.predict(x.dist) <= 0.70
  }

  /** A fingerprinted base was opened because no earlier one would have paid. */
  ghost predicate OpenedForCause(a: Arena, rows: seq<nat>, plan: Plan, n: nat)
    requires n <= |rows| && forall q | q in plan.bases :: q < n
  {
    forall q, b: nat | q in plan.bases && a.filled(rows[q]) && b < q && FirstNearest(a, rows, plan.bases, q, b) ::
      a.predict(Normalised(a, rows[q], Gap(a, rows, q, b))) > 0.70
  }

  /** Every position is a base or a target, never both; the skipped bases are those without
      fingerprint, the printed ones those with; the lists are in order of arrival. */
  ghost predicate Enumerated(a: Arena, rows: seq<nat>, plan: Plan, n: nat)
    requires n <= |rows|
  {
    && (forall b | b in plan.bases :: b < n)
    && (forall q | 0 <= q < n :: q in plan.bases <==> !IsTarget(plan, q))
    && (forall q :: q in plan.skipped <==> q in plan.bases && !a.filled(rows[q]))
    && (forall q :: q in plan.printed <==> q in plan.bases && a.filled(rows[q]))
    && (forall i, j | 0 <= i < j < |plan.printed| :: plan.printed[i] < plan.printed[j])
    && (forall i, j | 0 <= i < j < |plan.attach| :: plan.attach[i].target < plan.attach[j].target)
  }

  ghost predicate Explained(a: Arena, rows: seq<nat>, plan: Plan, n: nat)
    requires n <= |rows|
  {
    Enumerated(a, rows, plan, n) && WellAttached(a, rows, plan, n) && OpenedForCause(a, rows, plan, n)
  }

  /** Position `n` joins as a base. */
  ghost predicate Opens(a: Arena, rows: seq<nat>, plan: Plan, n: nat, r: Plan)
    requires n < |rows|
  {
    && r.bases == plan.bases + [n] && r.attach == plan.attach
    && r.printed == (if a.filled(rows[n]) then plan.printed + [n] else plan.printed)
    && r.skipped == (if a.filled(rows[n]) then plan.skipped else plan.skipped + [n])
  }

  lemma NearestIsFirst(a: Arena, rows: seq<nat>, plan: Plan, n: nat)
    requires n < |rows| && Fits(rows, plan) && Explained(a, rows, plan, n) && plan.printed != []
    ensures var b := plan.printed[Nearest(a, rows, n, plan.printed)];
      forall c :: FirstNearest(a, rows, plan.bases, n, c) <==> c == b
  {
    var k := Nearest(a, rows, n, plan.printed);
    var b := plan.printed[k];
    assert b in plan.printed;
    forall c | c in plan.bases && a.filled(rows[c])
      ensures Gap(a, rows, n, b) < Gap(a, rows, n, c) || (Gap(a, rows, n, b) == Gap(a, rows, n, c) && b <= c)
    {
      assert c in plan.printed;
      var j :| 0 <= j < |plan.printed| && plan.printed[j] == c;
    }
    assert FirstNearest(a, rows, plan.bases, n, b);
  }

  lemma NoneBefore(a: Arena, rows: seq<nat>, plan: Plan, n: nat, b: nat)
    requires n < |rows| && Explained(a, rows, plan, n) && plan.printed == []
    ensures !FirstNearest(a, rows, plan.bases, n, b)
  {
    assert b !in plan.printed;
  }

  /** Adding position `n` to the bases changes nothing for the positions before it. */
  lemma SameBefore(a: Arena, rows: seq<nat>, bases: seq<nat>, n: nat, q: nat, b: nat)
    requires q <= n
    ensures FirstNearest(a, rows, bases + [n], q, b) <==> FirstNearest(a, rows, bases, q, b)
  {
    assert forall c :: c in bases + [n] <==> c in bases || c == n;
  }

  lemma OpensLists(a: Arena, rows: seq<nat>, plan: Plan, n: nat, r: Plan)
    requires n < |rows| && Opens(a, rows, plan, n, r)
    requires forall q | q in plan.printed :: q < n
    requires forall i, j | 0 <= i < j < |plan.printed| :: plan.printed[i] < plan.printed[j]
    ensures forall q :: q in r.printed <==> q in plan.printed || (q == n && a.filled(rows[n]))
    ensures forall q :: q in r.skipped <==> q in plan.skipped || (q == n && !a.filled(rows[n]))
    ensures forall i, j | 0 <= i < j < |r.printed| :: r.printed[i] < r.printed[j]
  {
    IncreasingSnoc(plan.printed, n);
  }

  lemma OpensEnumerated(a: Arena, rows: seq<nat>, plan: Plan, n: nat, r: Plan)
    requires n < |rows| && Enumerated(a, rows, plan, n) && Opens(a, rows, plan, n, r)
    requires forall x | x in plan.attach :: x.target < n
    ensures Enumerated(a, rows, r, n + 1)
    ensures forall b :: b in r.bases <==> b in plan.bases || b == n
    ensures forall b | b in plan.bases :: b < n
    ensures forall b | b in r.bases :: b < n + 1
  {
    InSnoc(plan.bases, n);
    OpensLists(a, rows, plan, n, r);
    forall q ensures IsTarget(r, q) <==> IsTarget(plan, q) {
    }
    assert !IsTarget(plan, n);
    hide IsTarget;
  }

  lemma OpensKeeps(a: Arena, rows: seq<nat>, plan: Plan, n: nat, r: Plan)
    requires n < |rows| && Explained(a, rows, plan, n) && Opens(a, rows, plan, n, r)
    requires a.filled(rows[n]) ==> forall b | FirstNearest(a, rows, plan.bases, n, b) ::
      a.predict(Normalised(a, rows[n], Gap(a, rows, n, b))) > CR_THRESHOLD
    ensures Explained(a, rows, r, n + 1)
  {
    OpensEnumerated(a, rows, plan, n, r);
    hide Enumerated, IsTarget, Normalised, FirstNearest;
    forall q: nat, b: nat | q <= n
      ensures FirstNearest(a, rows, r.bases, q, b) <==> FirstNearest(a, rows, plan.bases, q, b)
    {
      SameBefore(a, rows, plan.bases, n, q, b);
    }
  }

  lemma AttachKeeps(a: Arena, rows: seq<nat>, plan: Plan, n: nat, x: Attachment, r: Plan)
    requires n < |rows| && Explained(a, rows, plan, n) && a.filled(rows[n])
    requires x.target == n && FirstNearest(a, rows, plan.bases, n, x.base)
    requires x.dist == Normalised(a, rows[n], Gap(a, rows, n, x.base)) && x.pred == a.predict(x.dist) <= CR_THRESHOLD
    requires r == plan.(attach := plan.attach + [x])
    ensures Explained(a, rows, r, n + 1)
  {
    assert forall y :: y in r.attach <==> y in plan.attach || y == x;
    forall q ensures IsTarget(r, q) <==> IsTarget(plan, q) || q == n {
      if IsTarget(plan, q) {
        var y :| y in plan.attach && y.target == q;
        assert y in r.attach;
      }
      assert x in r.attach;
    }
    forall i, j | 0 <= i < j < |r.attach| ensures r.attach[i].target < r.attach[j].target {
      assert r.attach[i] in plan.attach;
    }
  }

  lemma NoPrintedBases(a: Arena, rows: seq<nat>, plan: Plan, n: nat)
    requires n <= |rows| && Explained(a, rows, plan, n)
    ensures plan.bases == [] ==> plan.printed == []
  {
    if plan.printed != [] {
      assert plan.printed[0] in plan.printed;
      assert plan.printed[0] in plan.bases;
    }
  }

  lemma ArriveKeeps(a: Arena, rows: seq<nat>, plan: Plan, q: nat)
    requires q < |rows| && Fits(rows, plan) && Explained(a, rows, plan, q)
    ensures Explained(a, rows, Arrive(a, rows, plan, q), q + 1)
  {
    hide Explained, FirstNearest, Gap, Normalised;
    var r := Arrive(a, rows, plan, q);
    if a.filled(rows[q]) && plan.bases != [] && plan.printed != [] {
      NearestIsFirst(a, rows, plan, q);
      var b := plan.printed[Nearest(a, rows, q, plan.printed)];
      var dist := Normalised(a, rows[q], Gap(a, rows, q, b));
      if a.predict(dist) <= CR_THRESHOLD {
        AttachKeeps(a, rows, plan, q, Attachment(q, b, dist, a.predict(dist)), r);
      } else {
        OpensKeeps(a, rows, plan, q, r);
      }
    } else {
      if a.filled(rows[q]) {
        NoPrintedBases(a, rows, plan, q);
        forall b ensures !FirstNearest(a, rows, plan.bases, q, b) {
          NoneBefore(a, rows, plan, q, b);
        }
      }
      assert plan.bases == [] ==> [q] == plan.bases + [q];
      assert plan.printed == [] ==> [q] == plan.printed + [q];
      OpensKeeps(a, rows, plan, q, r);
    }
  }

  /** The naive plan is explained: what the planner is for. */
  lemma {:induction false} NaiveExplained(a: Arena, rows: seq<nat>, n: nat)
    requires n <= |rows|
    ensures Explained(a, rows, Naive(a, rows, n), n)
  {
    if n > 0 {
      hide Explained, FirstNearest, Gap, Normalised;
      NaiveExplained(a, rows, n - 1);
      var plan, q := Naive(a, rows, n - 1), n - 1;
      ArriveKeeps(a, rows, plan, q);
    }
  }

  // ---- the chunked planner

  /** Attachments name rows of the arena. */
  function AtRow(rows: seq<nat>, x: Attachment): Attachment {
    if x.target < |rows| && x.base < |rows| then x.(target := rows[x.target], base := rows[x.base]) else x
  }

  function AtRows(rows: seq<nat>, xs: seq<Attachment>): (r: seq<Attachment>)
    ensures |r| == |xs| && forall i | 0 <= i < |xs| :: r[i] == AtRow(rows, xs[i])
  {
    if xs == [] then [] else AtRows(rows, xs[..|xs| - 1]) + [AtRow(rows, xs[|xs| - 1])]
  }

  function RowsOf(rows: seq<nat>, qs: seq<nat>): (r: seq<nat>)
    requires forall q | q in qs :: q < |rows|
    ensures |r| == |qs| && forall i | 0 <= i < |qs| :: qs[i] in qs && r[i] == rows[qs[i]]
  {
    seq(|qs|, i requires 0 <= i < |qs| => assert qs[i] in qs; rows[qs[i]])
  }

  /** The squared norms of the rows. */
  method Norms(a: Arena, rows: seq<nat>) returns (norms: seq<int>)
    ensures |norms| == |rows| && forall q | 0 <= q < |rows| :: norms[q] == Dot(a, rows[q], rows[q], a.width)
  {
    norms := [];
    for q := 0 to |rows|
      invariant |norms| == q && forall k | 0 <= k < q :: norms[k] == Dot(a, rows[k], rows[k], a.width)
    {
      var d := DotProduct(a, rows[q], rows[q]);
      norms := norms + [d];
    }
  }

  ghost predicate IsColumn(a: Arena, rows: seq<nat>, i: nat, j: nat, b: nat, column: seq<int>) {
    |column| == j - i && forall k | 0 <= k < |column| :: column[k] == Gap(a, rows, i + k, b)
  }

  /** The distances from every position of the chunk to position `b`. */
  method Column(a: Arena, rows: seq<nat>, norms: seq<int>, i: nat, j: nat, b: nat) returns (column: seq<int>)
    requires i <= j <= |rows| && b < |rows| && |norms| == |rows|
    requires forall q | 0 <= q < |rows| :: norms[q] == Dot(a, rows[q], rows[q], a.width)
    ensures IsColumn(a, rows, i, j, b, column)
  {
    column := [];
    for q := i to j
      invariant |column| == q - i && forall k | 0 <= k < |column| :: column[k] == Gap(a, rows, i + k, b)
    {
      var d := DotProduct(a, rows[q], rows[b]);
      DistanceByDots(a, rows[q], rows[b], a.width);
      column := column + [norms[q] - 2 * d + norms[b]];
    }
  }

  /** The distances to the bases known before the chunk. */
  method Block(a: Arena, rows: seq<nat>, norms: seq<int>, i: nat, j: nat, printed: seq<nat>)
    returns (columns: seq<seq<int>>)
    requires i <= j <= |rows| && |norms| == |rows| && forall b | b in printed :: b < |rows|
    requires forall q | 0 <= q < |rows| :: norms[q] == Dot(a, rows[q], rows[q], a.width)
    ensures |columns| == |printed|
    ensures forall c | 0 <= c < |printed| :: IsColumn(a, rows, i, j, printed[c], columns[c])
  {
    hide IsColumn;
    columns := [];
    for c := 0 to |printed|
      invariant |columns| == c && forall k | 0 <= k < c :: IsColumn(a, rows, i, j, printed[k], columns[k])
    {
      assert printed[c] in printed;
      var column := Column(a, rows, norms, i, j, printed[c]);
      columns := columns + [column];
    }
  }

  ghost predicate IsFirstLeast(s: seq<real>, k: nat) {
    && k < |s|
    && (forall j | 0 <= j < |s| :: s[k] <= s[j])
    && (forall j | 0 <= j < k :: s[k] < s[j])
  }

  /** The library's `argmin`. */
  method ArgMin(s: seq<real>) returns (k: nat)
    requires s != []
    ensures IsFirstLeast(s, k)
  {
    k := 0;
    for i := 1 to |s|
      invariant k < i && (forall j | 0 <= j < i :: s[k] <= s[j]) && (forall j | 0 <= j < k :: s[k] < s[j])
    {
      if s[i] < s[k] {
        k := i;
      }
    }
  }

  /** The normalised distances of one position to all fingerprinted bases, gathered from the
      columns before the chunk and those opened in it. */
  method Gather(a: Arena, row: nat, block: seq<seq<int>>, added: seq<seq<int>>, li: nat) returns (dists: seq<real>)
    requires forall c | c in block + added :: li < |c|
    ensures |dists| == |block + added|
    ensures forall c | 0 <= c < |dists| :: dists[c] == Normalised(a, row, (block + added)[c][li])
  {
    hide Normalised;
    dists := [];
    for c := 0 to |block|
      invariant |dists| == c && forall k | 0 <= k < c :: dists[k] == Normalised(a, row, (block + added)[k][li])
    {
      assert block[c] == (block + added)[c];
      dists := dists + [Normalised(a, row, block[c][li])];
    }
    for c := 0 to |added|
      invariant |dists| == |block| + c
      invariant forall k | 0 <= k < |dists| :: dists[k] == Normalised(a, row, (block + added)[k][li])
    {
      assert added[c] == (block + added)[|block| + c];
      dists := dists + [Normalised(a, row, added[c][li])];
    }
  }

  /** Normalising keeps the first nearest base first and nearest. */
  lemma ArgMinIsNearest(a: Arena, rows: seq<nat>, q: nat, printed: seq<nat>, dists: seq<real>, k: nat)
    requires q < |rows| && printed != [] && |dists| == |printed|
    requires forall c | 0 <= c < |dists| :: dists[c] == Normalised(a, rows[q], Gap(a, rows, q, printed[c]))
    requires IsFirstLeast(dists, k)
    ensures k == Nearest(a, rows, q, printed)
  {
    hide Normalised, Gap;
    var m := Nearest(a, rows, q, printed);
    NormalisedOrder(a, rows[q], Gap(a, rows, q, printed[k]), Gap(a, rows, q, printed[m]));
    NormalisedOrder(a, rows[q], Gap(a, rows, q, printed[m]), Gap(a, rows, q, printed[k]));
  }

  /** The columns cover every fingerprinted base. */
  ghost predicate Covers(a: Arena, rows: seq<nat>, i: nat, j: nat, printed: seq<nat>, columns: seq<seq<int>>) {
    |columns| == |printed| && forall c | 0 <= c < |printed| :: IsColumn(a, rows, i, j, printed[c], columns[c])
  }

  /** Where position `q` goes, from the columns of its chunk. */
  method Decide(a: Arena, rows: seq<nat>, i: nat, j: nat, q: nat, printed: seq<nat>,
                block: seq<seq<int>>, added: seq<seq<int>>)
    returns (k: nat, dist: real)
    requires i <= q < j <= |rows| && printed != [] && Covers(a, rows, i, j, printed, block + added)
    ensures k == Nearest(a, rows, q, printed)
    ensures dist == Normalised(a, rows[q], Gap(a, rows, q, printed[k]))
  {
    forall c | c in block + added ensures q - i < |c| {
      var x :| 0 <= x < |block + added| && (block + added)[x] == c;
      assert IsColumn(a, rows, i, j, printed[x], c);
    }
    var dists := Gather(a, rows[q], block, added, q - i);
    forall c | 0 <= c < |dists| ensures dists[c] == Normalised(a, rows[q], Gap(a, rows, q, printed[c])) {
      assert IsColumn(a, rows, i, j, printed[c], (block + added)[c]);
      assert i + (q - i) == q;
    }
    k := ArgMin(dists);
    ArgMinIsNearest(a, rows, q, printed, dists, k);
    dist := dists[k];
  }

  /** One arrival within a chunk. */
  method PlaceOne(a: Arena, rows: seq<nat>, norms: seq<int>, i: nat, j: nat, q: nat, plan: Plan,
                  block: seq<seq<int>>, before: seq<seq<int>>)
    returns (r: Plan, added: seq<seq<int>>)
    requires i <= q < j <= |rows| && |norms| == |rows| && Fits(rows, plan)
    requires forall x | 0 <= x < |rows| :: norms[x] == Dot(a, rows[x], rows[x], a.width)
    requires Covers(a, rows, i, j, plan.printed, block + before)
    ensures r == Arrive(a, rows, plan, q)
    ensures Covers(a, rows, i, j, r.printed, block + added)
  {
    hide IsColumn, Gap, Normalised;
    var hasPrint := a.filled(rows[q]);
    added := before;
    if plan.bases != [] && !hasPrint {
      r := plan.(bases := plan.bases + [q], skipped := plan.skipped + [q]);
      return;
    }
    if plan.bases == [] && !hasPrint {
      r := plan.(bases := [q], skipped := plan.skipped + [q]);
      return;
    }
    if plan.bases != [] && plan.printed != [] {
      var k, dist := Decide(a, rows, i, j, q, plan.printed, block, before);
      var pred := a.predict(dist);
      if pred <= CR_THRESHOLD {
        r := plan.(attach := plan.attach + [Attachment(q, plan.printed[k], dist, pred)]);
        return;
      }
    }
    var column := Column(a, rows, norms, i, j, q);
    added := before + [column];
    assert block + added == (block + before) + [column];
    r := plan.(bases := plan.bases + [q], printed := plan.printed + [q]);
    assert plan.bases == [] ==> plan.bases + [q] == [q];
    assert plan.printed == [] ==> plan.printed + [q] == [q];
  }

  /** The attachment joins a row to a base before it in the group, at the distance of their
      fingerprints, because what it is predicted to shrink to is at most 0.7. */
  ghost predicate Measured(a: Arena, rows: seq<nat>, x: Attachment) {
    && x.pred == a.predict(x.dist) && x.pred <= 0.7
    && x.dist * (2 * (if a.bits(x.target) >= 1 then a.bits(x.target) else 1)) as real
      == SquaredDistance(a, x.target, x.base, a.width) as real
    && exists b, q | 0 <= b < q < |rows| :: rows[b] == x.base && rows[q] == x.target
  }

  lemma OneMeasured(a: Arena, rows: seq<nat>, plan: Plan, x: Attachment)
    requires Explained(a, rows, plan, |rows|) && x in plan.attach
    ensures Measured(a, rows, AtRow(rows, x))
  {
    hide Enumerated, OpenedForCause, Normalised, SquaredDistance;
    assert FirstNearest(a, rows, plan.bases, x.target, x.base);
    NormalisedMeans(a, rows[x.target], SquaredDistance(a, rows[x.target], rows[x.base], a.width));
  }

  lemma AllMeasured(a: Arena, rows: seq<nat>)
    ensures forall x | x in AtRows(rows, Naive(a, rows, |rows|).attach) :: Measured(a, rows, x)
  {
    var attach := Naive(a, rows, |rows|).attach;
    NaiveExplained(a, rows, |rows|);
    hide Naive, Explained, Measured;
    forall x | x in AtRows(rows, attach) ensures Measured(a, rows, x) {
      var k :| 0 <= k < |attach| && AtRows(rows, attach)[k] == x;
      assert attach[k] in attach;
      OneMeasured(a, rows, Naive(a, rows, |rows|), attach[k]);
    }
  }

  /** `plan_group`: for every chunk size the plan of the one-at-a-time planner, in rows. */
  method PlanGroup(a: Arena, rows: seq<nat>, chunk: nat)
    returns (bases: seq<nat>, attach: seq<Attachment>, skipped: seq<nat>)
    requires chunk > 0
    ensures var naive := Naive(a, rows, |rows|);
      && bases == RowsOf(rows, naive.bases)
      && attach == AtRows(rows, naive.attach)
      && skipped == RowsOf(rows, naive.skipped)
    ensures forall x | x in attach :: Measured(a, rows, x)
  {
    var norms := Norms(a, rows);
    var plan := Plan([], [], [], []);
    var i := 0;
    while i < |rows|
      invariant i <= |rows| && plan == Naive(a, rows, i)
    {
      var j := if i + chunk < |rows| then i + chunk else |rows|;
      var block := Block(a, rows, norms, i, j, plan.printed);
      var added: seq<seq<int>> := [];
      assert block + added == block;
      for q := i to j
        invariant plan == Naive(a, rows, q)
        invariant Covers(a, rows, i, j, plan.printed, block + added)
      {
        plan, added := PlaceOne(a, rows, norms, i, j, q, plan, block, added);
      }
      i := j;
    }
    bases, attach, skipped := RowsOf(rows, plan.bases), AtRows(rows, plan.attach), RowsOf(rows, plan.skipped);
    AllMeasured(a, rows);
  }
}
