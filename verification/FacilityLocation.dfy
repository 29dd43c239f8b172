/** The facility-location objective and the incremental deltas of the Teitz-Bart local search.

    Connection costs are reals; the value `INF` stands for an infeasible pair, as in the
    kernels. An item that is a base connects to itself at no cost. */
module FacilityLocation {
  import opened Sums
  import opened Sequences

  const INF: real := 1000000000000000000000000000000.0

  type Matrix = (int, int) -> real

  /** An instance: n items, connection costs, opening costs. */
  datatype Instance = Instance(n: nat, cost: Matrix, open: int -> real)

  ghost predicate Sound(p: Instance) {
    && (forall i, j | 0 <= i < p.n && 0 <= j < p.n :: 0.0 <= p.cost(i, j) <= INF)
    && (forall j | 0 <= j < p.n :: 0.0 <= p.open(j) < INF)
  }

  /** The kernels' cost of serving item `i` from base `b`. */
  function Serve(p: Instance, i: int, b: int): real {
    if i == b then 0.0 else p.cost(i, b)
  }

  function Less(a: real, b: real): real {
    if a < b then a else b
  }

  // ---- the objective of a set of bases, as a sum over items

  /** The cheapest service of item `i` by a base of `bs` below `upTo`. */
  ghost function Nearest(p: Instance, bs: set<nat>, i: int, upTo: nat): real {
    if upTo == 0 then INF
    else
      var m := Nearest(p, bs, i, upTo - 1);
      if upTo - 1 in bs then Less(Serve(p, i, upTo - 1), m) else m
  }

  ghost function ServeShare(p: Instance, bs: set<nat>): int -> real {
    i => Nearest(p, bs, i, p.n)
  }

  /** What opening `bs` and serving every item from its nearest base costs; in the view of the
      kernels an item that no base serves costs INF. */
  ghost function KernelCost(p: Instance, bs: set<nat>): real {
    Sum(OnlyAt(p.open, bs), p.n) + Sum(ServeShare(p, bs), p.n)
  }

  /** The objective of a set of bases. With no base open every item stores itself and pays its
      own opening cost. */
  ghost function Objective(p: Instance, bs: set<nat>): real {
    if bs == {} then Sum(p.open, p.n) else KernelCost(p, bs)
  }

  /** `m` is the least cost of serving `i` from `bs`, INF if `bs` offers nothing better. */
  ghost predicate IsLeast(p: Instance, bs: set<nat>, i: int, m: real) {
    && m <= INF
    && (forall b | b in bs :: m <= Serve(p, i, b))
    && (m == INF || exists b | b in bs :: Serve(p, i, b) == m)
  }

  ghost predicate Within(p: Instance, bs: set<nat>) {
    forall b | b in bs :: 0 <= b < p.n
  }

  lemma {:induction false} NearestIsLeast(p: Instance, bs: set<nat>, i: int, upTo: nat)
    ensures IsLeast(p, (set b | b in bs && 0 <= b < upTo), i, Nearest(p, bs, i, upTo))
  {
    if upTo > 0 {
      NearestIsLeast(p, bs, i, upTo - 1);
      var s, t := (set b | b in bs && 0 <= b < upTo - 1), (set b | b in bs && 0 <= b < upTo);
      assert upTo - 1 in bs ==> t == s + {upTo - 1};
      assert upTo - 1 !in bs ==> t == s;
      var m := Nearest(p, bs, i, upTo);
      if m != INF {
        if upTo - 1 in bs && Serve(p, i, upTo - 1) == m {
          assert upTo - 1 in t;
        } else {
          var b :| b in s && Serve(p, i, b) == m;
          assert b in t;
        }
      }
    }
  }

  lemma LeastIsNearest(p: Instance, bs: set<nat>, i: int, m: real)
    requires Within(p, bs) && IsLeast(p, bs, i, m)
    ensures m == Nearest(p, bs, i, p.n)
  {
    NearestIsLeast(p, bs, i, p.n);
    assert bs == set b | b in bs && 0 <= b < p.n;
  }

  /** What an item pays: nothing as a base, else the least of its costs to the bases, and the
      sentinel when nothing is open. */
  lemma NearestCost(p: Instance, bs: set<nat>, i: nat)
    requires Sound(p) && Within(p, bs) && i < p.n
    ensures i in bs ==> Nearest(p, bs, i, p.n) == 0.0
    ensures i !in bs ==>
      && (forall b | b in bs :: Nearest(p, bs, i, p.n) <= p.cost(i, b))
      && (bs != {} ==> exists b | b in bs :: Nearest(p, bs, i, p.n) == p.cost(i, b))
    ensures bs == {} ==> Nearest(p, bs, i, p.n) == 1000000000000000000000000000000.0
  {
    NearestIsLeast(p, bs, i, p.n);
    assert bs == set b | b in bs && 0 <= b < p.n;
    hide Nearest;
    var m := Nearest(p, bs, i, p.n);
    if b :| b in bs {
      assert m <= Serve(p, i, b);
    }
  }

  // ---- the sequence of open bases the search keeps

  ghost predicate IsBases(p: Instance, bs: seq<nat>) {
    && (forall k | 0 <= k < |bs| :: 0 <= bs[k] < p.n)
    && (forall i, j | 0 <= i < j < |bs| :: bs[i] != bs[j])
  }

  ghost function Open(bs: seq<nat>): set<nat> {
    set b | b in bs
  }

  /** `bs` without its k-th base. */
  ghost function Without(bs: seq<nat>, k: nat): seq<nat>
    requires k < |bs|
  {
    bs[..k] + bs[k + 1..]
  }

  /** The best and second-best service of an item, as `_compute_state_numba` computes them:
      `k` is the index of the first best base, -1 if no base is better than INF. */
  ghost predicate BestTwo(p: Instance, bs: seq<nat>, i: int, first: real, second: real, k: int) {
    && -1 <= k < |bs|
    && IsLeast(p, Open(bs), i, first)
    && (k == -1 ==> first == INF && second == INF)
    && (k >= 0 ==> Serve(p, i, bs[k]) == first && IsLeast(p, Open(Without(bs, k)), i, second))
  }

  ghost predicate IsState(p: Instance, bs: seq<nat>, current: seq<real>, second: seq<real>, serving: seq<int>) {
    && |current| == |second| == |serving| == p.n
    && forall i | 0 <= i < p.n :: BestTwo(p, bs, i, current[i], second[i], serving[i])
  }

  lemma OpenWithout(p: Instance, bs: seq<nat>, k: nat)
    requires IsBases(p, bs) && k < |bs|
    ensures Open(Without(bs, k)) == Open(bs) - {bs[k]}
    ensures IsBases(p, Without(bs, k))
  {
    var r := Without(bs, k);
    forall b | b in Open(bs) && b != bs[k] ensures b in r {
      var j :| 0 <= j < |bs| && bs[j] == b;
      assert j < k ==> r[j] == b;
      assert j > k ==> r[j - 1] == b;
    }
    assert forall j | 0 <= j < |r| :: r[j] == bs[if j < k then j else j + 1];
  }

  /** Dropping a base an item does not use leaves its cost alone. */
  lemma LeastWithout(p: Instance, bs: seq<nat>, i: int, first: real, second: real, a: int, k: nat)
    requires IsBases(p, bs) && k < |bs| && BestTwo(p, bs, i, first, second, a)
    ensures IsLeast(p, Open(bs) - {bs[k]}, i, if a == k then second else first)
    ensures first <= second
  {
    OpenWithout(p, bs, k);
    if a >= 0 {
      OpenWithout(p, bs, a);
      if a != k {
        assert bs[a] in Open(bs) - {bs[k]};
      }
      assert forall b | b in Open(bs) - {bs[a]} :: b in Open(bs);
    }
  }

  lemma LeastWith(p: Instance, bs: set<nat>, i: int, m: real, c: nat)
    requires IsLeast(p, bs, i, m) && Serve(p, i, c) <= INF
    ensures IsLeast(p, bs + {c}, i, Less(Serve(p, i, c), m))
  {
    var r := Less(Serve(p, i, c), m);
    assert c in bs + {c};
    if r != INF && r == m {
      var b :| b in bs && Serve(p, i, b) == m;
      assert b in bs + {c};
    }
  }

  // ---- the moves

  ghost function Penalty(current: seq<real>, second: seq<real>, serving: seq<int>, k: nat): int -> real {
    i => if 0 <= i < |current| && i < |second| && i < |serving| && serving[i] == k then second[i] - current[i] else 0.0
  }

  /** The change `_compute_drop_deltas_numba` computes for closing base `k`. */
  ghost function DropDelta(p: Instance, bs: seq<nat>, current: seq<real>, second: seq<real>, serving: seq<int>,
                           k: nat): real
    requires k < |bs|
  {
    -p.open(bs[k]) + Sum(Penalty(current, second, serving, k), p.n)
  }

  ghost function Gain(p: Instance, current: seq<real>, c: nat): int -> real {
    i => if 0 <= i < |current| && Serve(p, i, c) < current[i] then Serve(p, i, c) - current[i] else 0.0
  }

  ghost function Correction(p: Instance, current: seq<real>, second: seq<real>, serving: seq<int>, k: nat,
                            c: nat): int -> real
  {
    i =>
      if 0 <= i < |current| && i < |second| && i < |serving| && serving[i] == k && current[i] <= Serve(p, i, c)
      then Less(Serve(p, i, c), second[i]) - current[i]
      else 0.0
  }

  /** The change `_find_best_swap_numba` computes for opening `c`. */
  ghost function AddDelta(p: Instance, current: seq<real>, c: nat): real {
    p.open(c) + Sum(Gain(p, current, c), p.n)
  }

  /** The change it computes for opening `c` in place of base `k`. */
  ghost function SwapDelta(p: Instance, bs: seq<nat>, current: seq<real>, second: seq<real>, serving: seq<int>, k: nat,
                           c: nat): real
    requires k < |bs|
  {
    AddDelta(p, current, c) - p.open(bs[k]) + Sum(Correction(p, current, second, serving, k, c), p.n)
  }

  lemma OpeningOf(p: Instance, bs: set<nat>, c: nat)
    requires c < p.n && c !in bs
    ensures Sum(OnlyAt(p.open, bs + {c}), p.n) == Sum(OnlyAt(p.open, bs), p.n) + p.open(c)
  {
    SumChange(OnlyAt(p.open, bs), OnlyAt(p.open, bs + {c}), p.n, c);
  }

  lemma ServeShares(p: Instance, bs: seq<nat>, current: seq<real>, second: seq<real>, serving: seq<int>)
    requires IsBases(p, bs) && IsState(p, bs, current, second, serving)
    ensures forall i | 0 <= i < p.n :: ServeShare(p, Open(bs))(i) == current[i]
  {
    forall i | 0 <= i < p.n ensures ServeShare(p, Open(bs))(i) == current[i] {
      assert BestTwo(p, bs, i, current[i], second[i], serving[i]);
      LeastIsNearest(p, Open(bs), i, current[i]);
    }
  }

  /** DROP: the incremental delta is the change in the view of the kernels. */
  lemma DropInKernels(p: Instance, bs: seq<nat>, current: seq<real>, second: seq<real>, serving: seq<int>, k: nat)
    requires Sound(p) && IsBases(p, bs) && IsState(p, bs, current, second, serving) && k < |bs|
    ensures KernelCost(p, Open(bs) - {bs[k]}) == KernelCost(p, Open(bs)) + DropDelta(p, bs, current, second, serving, k)
  {
    var after := Open(bs) - {bs[k]};
    OpeningOf(p, after, bs[k]);
    assert after + {bs[k]} == Open(bs);
    ServeShares(p, bs, current, second, serving);
    var pen := Penalty(current, second, serving, k);
    forall i | 0 <= i < p.n ensures ServeShare(p, after)(i) == ServeShare(p, Open(bs))(i) + pen(i) {
      assert BestTwo(p, bs, i, current[i], second[i], serving[i]);
      LeastWithout(p, bs, i, current[i], second[i], serving[i], k);
      LeastIsNearest(p, after, i, if serving[i] == k then second[i] else current[i]);
    }
    SumPlus(ServeShare(p, Open(bs)), pen, ServeShare(p, after), p.n);
  }

  lemma BasesOpen(bs: seq<nat>, k: nat)
    requires k < |bs|
    ensures bs[k] in Open(bs) && Open(bs) != {}
  {
  }

  /** A base that is not the only one leaves others open when it closes. */
  lemma OthersOpen(p: Instance, bs: seq<nat>, k: nat)
    requires IsBases(p, bs) && k < |bs|
    ensures Open(bs) - {bs[k]} == {} <==> |bs| == 1
  {
    if |bs| > 1 {
      var other := if k == 0 then 1 else 0;
      assert bs[other] in Open(bs) - {bs[k]};
    }
  }

  /** DROP: with another base open, the incremental delta is the change of the objective. */
  lemma DropIsExact(p: Instance, bs: seq<nat>, current: seq<real>, second: seq<real>, serving: seq<int>, k: nat)
    requires Sound(p) && IsBases(p, bs) && IsState(p, bs, current, second, serving) && k < |bs| && |bs| >= 2
    ensures Objective(p, Open(bs) - {bs[k]}) == Objective(p, Open(bs)) + DropDelta(p, bs, current, second, serving, k)
  {
    DropInKernels(p, bs, current, second, serving, k);
    hide KernelCost, DropDelta, Sound, IsBases, IsState;
    BasesOpen(bs, k);
    OthersOpen(p, bs, k);
  }

  /** The delta of closing the only base always overrates what remains: the kernels charge INF
      for every item, the objective only its opening cost. */
  lemma LastDropOverrates(p: Instance, bs: seq<nat>, current: seq<real>, second: seq<real>, serving: seq<int>)
    requires Sound(p) && IsBases(p, bs) && IsState(p, bs, current, second, serving) && |bs| == 1
    ensures Objective(p, {}) < Objective(p, Open(bs)) + DropDelta(p, bs, current, second, serving, 0)
  {
    DropInKernels(p, bs, current, second, serving, 0);
    BasesOpen(bs, 0);
    OthersOpen(p, bs, 0);
    SumSame(OnlyAt(p.open, {}), i => 0.0, p.n);
    SumZero(p.n);
    forall i | 0 <= i < p.n ensures p.open(i) < ServeShare(p, {})(i) {
      LeastIsNearest(p, {}, i, INF);
    }
    SumBelow(p.open, ServeShare(p, {}), p.n);
  }

  /** The DROP delta is the change of the objective if and only if the base is not the only one. */
  lemma DropIsExactIff(p: Instance, bs: seq<nat>, current: seq<real>, second: seq<real>, serving: seq<int>, k: nat)
    requires Sound(p) && IsBases(p, bs) && IsState(p, bs, current, second, serving) && k < |bs|
    ensures Objective(p, Open(bs) - {bs[k]}) == Objective(p, Open(bs)) + DropDelta(p, bs, current, second, serving, k)
      <==> |bs| >= 2
  {
    if |bs| >= 2 {
      DropIsExact(p, bs, current, second, serving, k);
    } else {
      LastDropOverrates(p, bs, current, second, serving);
      OthersOpen(p, bs, k);
    }
  }

  lemma AddShare(p: Instance, bs: seq<nat>, current: seq<real>, second: seq<real>, serving: seq<int>, c: nat, i: nat)
    requires Sound(p) && IsBases(p, bs) && IsState(p, bs, current, second, serving) && c < p.n && i < p.n
    ensures ServeShare(p, Open(bs) + {c})(i) == ServeShare(p, Open(bs))(i) + Gain(p, current, c)(i)
  {
    ServeShares(p, bs, current, second, serving);
    assert BestTwo(p, bs, i, current[i], second[i], serving[i]);
    hide IsLeast, Nearest;
    LeastWith(p, Open(bs), i, current[i], c);
    LeastIsNearest(p, Open(bs) + {c}, i, Less(Serve(p, i, c), current[i]));
  }

  /** ADD: the incremental delta is the change of the objective. */
  lemma AddIsExact(p: Instance, bs: seq<nat>, current: seq<real>, second: seq<real>, serving: seq<int>, c: nat)
    requires Sound(p) && IsBases(p, bs) && IsState(p, bs, current, second, serving) && bs != [] && c < p.n && c !in bs
    ensures Objective(p, Open(bs) + {c}) == Objective(p, Open(bs)) + AddDelta(p, current, c)
  {
    BasesOpen(bs, 0);
    var after := Open(bs) + {c};
    assert c in after;
    OpeningOf(p, Open(bs), c);
    var gain := Gain(p, current, c);
    hide Gain, ServeShare, Sum, IsState, IsBases, Sound;
    forall i | 0 <= i < p.n ensures ServeShare(p, after)(i) == ServeShare(p, Open(bs))(i) + gain(i) {
      AddShare(p, bs, current, second, serving, c, i);
    }
    SumPlus(ServeShare(p, Open(bs)), gain, ServeShare(p, after), p.n);
  }

  lemma SwapOpening(p: Instance, bs: seq<nat>, k: nat, c: nat)
    requires IsBases(p, bs) && k < |bs| && c < p.n && c !in bs
    ensures Sum(OnlyAt(p.open, Open(bs) - {bs[k]} + {c}), p.n)
      == Sum(OnlyAt(p.open, Open(bs)), p.n) - p.open(bs[k]) + p.open(c)
  {
    var kept := Open(bs) - {bs[k]};
    OpeningOf(p, kept, bs[k]);
    assert kept + {bs[k]} == Open(bs);
    OpeningOf(p, kept, c);
  }

  /** The share of one item: its gain if `c` is better for it, else what it loses with `k`. */
  lemma SwapShare(p: Instance, bs: seq<nat>, current: seq<real>, second: seq<real>, serving: seq<int>, k: nat, c: nat,
                  i: nat)
    requires Sound(p) && IsBases(p, bs) && IsState(p, bs, current, second, serving)
    requires k < |bs| && c < p.n && c !in bs && i < p.n
    ensures ServeShare(p, Open(bs) - {bs[k]} + {c})(i)
         == ServeShare(p, Open(bs))(i) + (Gain(p, current, c)(i) + Correction(p, current, second, serving, k, c)(i))
  {
    var kept := Open(bs) - {bs[k]};
    ServeShares(p, bs, current, second, serving);
    assert BestTwo(p, bs, i, current[i], second[i], serving[i]);
    LeastWithout(p, bs, i, current[i], second[i], serving[i], k);
    var m := if serving[i] == k then second[i] else current[i];
    hide IsLeast, Nearest;
    LeastWith(p, kept, i, m, c);
    LeastIsNearest(p, kept + {c}, i, Less(Serve(p, i, c), m));
  }

  /** SWAP: the ADD delta, minus what the closed base cost, plus the corrections of the items
      it served, is the change of the objective. */
  lemma SwapIsExact(p: Instance, bs: seq<nat>, current: seq<real>, second: seq<real>, serving: seq<int>, k: nat, c: nat)
    requires Sound(p) && IsBases(p, bs) && IsState(p, bs, current, second, serving)
    requires k < |bs| && c < p.n && c !in bs
    ensures Objective(p, Open(bs) - {bs[k]} + {c})
         == Objective(p, Open(bs)) + SwapDelta(p, bs, current, second, serving, k, c)
  {
    BasesOpen(bs, k);
    var kept := Open(bs) - {bs[k]};
    var after := kept + {c};
    assert c in after;
    SwapOpening(p, bs, k, c);
    var gain, corr := Gain(p, current, c), Correction(p, current, second, serving, k, c);
    var change: int -> real := i => gain(i) + corr(i);
    hide Gain, Correction, ServeShare, Sum, IsState, IsBases, Sound;
    forall i | 0 <= i < p.n ensures ServeShare(p, after)(i) == ServeShare(p, Open(bs))(i) + change(i) {
      SwapShare(p, bs, current, second, serving, k, c, i);
    }
    SumPlus(gain, corr, change, p.n);
    SumPlus(ServeShare(p, Open(bs)), change, ServeShare(p, after), p.n);
  }

  // ---- moves the search must never pick

  /** Closing the only base costs more than any opening saves. */
  lemma LastBaseStays(p: Instance, bs: seq<nat>, current: seq<real>, second: seq<real>, serving: seq<int>)
    requires Sound(p) && IsBases(p, bs) && IsState(p, bs, current, second, serving) && |bs| == 1
    ensures DropDelta(p, bs, current, second, serving, 0) > 0.0
  {
    var b := bs[0];
    var pen := Penalty(current, second, serving, 0);
    assert b in Open(bs);
    forall i | 0 <= i < p.n ensures pen(i) >= 0.0 {
      assert BestTwo(p, bs, i, current[i], second[i], serving[i]);
      LeastWithout(p, bs, i, current[i], second[i], serving[i], 0);
    }
    assert BestTwo(p, bs, b, current[b], second[b], serving[b]);
    assert Open(Without(bs, 0)) == {};
    assert current[b] <= 0.0;
    assert pen(b) >= INF;
    SumTermAtMost(pen, p.n, b);
  }

  lemma OpenCandidateGainsNothing(p: Instance, bs: seq<nat>, current: seq<real>, second: seq<real>, serving: seq<int>,
                                  c: nat)
    requires Sound(p) && IsBases(p, bs) && IsState(p, bs, current, second, serving) && c in bs
    ensures AddDelta(p, current, c) == p.open(c) >= 0.0
    ensures forall i | 0 <= i < p.n :: current[i] <= Serve(p, i, c)
  {
    forall i | 0 <= i < p.n ensures current[i] <= Serve(p, i, c) {
      assert BestTwo(p, bs, i, current[i], second[i], serving[i]);
      assert c in Open(bs);
    }
    SumSame(Gain(p, current, c), i => 0.0, p.n);
    SumZero(p.n);
  }

  /** Swapping an open candidate in is never better than the plain drop, or than nothing. */
  lemma OpenCandidateSwap(p: Instance, bs: seq<nat>, current: seq<real>, second: seq<real>, serving: seq<int>, k: nat,
                          c: nat)
    requires Sound(p) && IsBases(p, bs) && IsState(p, bs, current, second, serving) && k < |bs| && c in bs
    ensures SwapDelta(p, bs, current, second, serving, k, c) >= 0.0
         || SwapDelta(p, bs, current, second, serving, k, c) >= DropDelta(p, bs, current, second, serving, k)
  {
    OpenCandidateGainsNothing(p, bs, current, second, serving, c);
    var corr, pen := Correction(p, current, second, serving, k, c), Penalty(current, second, serving, k);
    if c == bs[k] {
      forall i | 0 <= i < p.n ensures corr(i) >= 0.0 {
        assert BestTwo(p, bs, i, current[i], second[i], serving[i]);
        LeastWithout(p, bs, i, current[i], second[i], serving[i], k);
      }
      SumNonNegative(corr, p.n);
    } else {
      OpenWithout(p, bs, k);
      forall i | 0 <= i < p.n ensures corr(i) == pen(i) {
        assert BestTwo(p, bs, i, current[i], second[i], serving[i]);
        assert c in Open(Without(bs, k));
      }
      SumSame(corr, pen, p.n);
    }
  }
}
