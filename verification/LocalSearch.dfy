/** The kernels of the Teitz-Bart local search and the search itself. */
module LocalSearch {
  import opened Sums
  import opened Sequences
  import opened FacilityLocation

  lemma OpenSnoc(bs: seq<nat>, b: nat)
    ensures Open(bs + [b]) == Open(bs) + {b}
  {
    SetOfSnoc(bs, b);
  }

  lemma BestTwoStep(p: Instance, bs: seq<nat>, i: int, first: real, second: real, k: int, m: nat)
    requires IsBases(p, bs) && m < |bs| && BestTwo(p, bs[..m], i, first, second, k)
    requires Serve(p, i, bs[m]) <= INF
    ensures var cost := Serve(p, i, bs[m]);
      if cost < first then BestTwo(p, bs[..m + 1], i, cost, first, m)
      else BestTwo(p, bs[..m + 1], i, first, Less(cost, second), k)
  {
    hide IsLeast, Serve, IsBases;
    var b := bs[m];
    var short, long := bs[..m], bs[..m + 1];
    assert long == short + [b];
    OpenSnoc(short, b);
    LeastWith(p, Open(short), i, first, b);
    assert Without(long, m) == short;
    if k >= 0 {
      assert Without(long, k) == Without(short, k) + [b];
      OpenSnoc(Without(short, k), b);
      LeastWith(p, Open(Without(short, k)), i, second, b);
    }
  }

  lemma BestTwoStart(p: Instance, bs: seq<nat>, i: int)
    requires bs == []
    ensures BestTwo(p, bs, i, INF, INF, -1)
  {
  }

  /** The scan over the bases for one item. */
  method BestTwoOf(p: Instance, bs: seq<nat>, i: nat) returns (min1: real, min2: real, idx: int)
    requires Sound(p) && IsBases(p, bs) && i < p.n
    ensures BestTwo(p, bs, i, min1, min2, idx)
  {
    hide BestTwo;
    min1, min2, idx := INF, INF, -1;
    BestTwoStart(p, bs[..0], i);
    for k := 0 to |bs|
      invariant BestTwo(p, bs[..k], i, min1, min2, idx)
    {
      var cost := Serve(p, i, bs[k]);
      BestTwoStep(p, bs, i, min1, min2, idx, k);
      if cost < min1 {
        min2, min1, idx := min1, cost, k;
      } else if cost < min2 {
        min2 := cost;
      }
    }
    assert bs[..|bs|] == bs;
  }

  /** `_compute_state_numba`: per item the two cheapest bases. */
  method ComputeState(p: Instance, bs: seq<nat>)
    returns (current: array<real>, second: array<real>, serving: array<int>)
    requires Sound(p) && IsBases(p, bs)
    ensures IsState(p, bs, current[..], second[..], serving[..])
  {
    hide BestTwo;
    current, second, serving := new real[p.n], new real[p.n], new int[p.n];
    for i := 0 to p.n
      invariant forall j | 0 <= j < i :: BestTwo(p, bs, j, current[j], second[j], serving[j])
    {
      var min1, min2, idx := BestTwoOf(p, bs, i);
      current[i], second[i], serving[i] := min1, min2, idx;
    }
  }

  /** `_compute_drop_deltas_numba`. */
  method DropDeltas(p: Instance, bs: seq<nat>, current: array<real>, second: array<real>, serving: array<int>)
    returns (deltas: array<real>)
    requires IsBases(p, bs) && current.Length == second.Length == serving.Length == p.n
    ensures deltas.Length == |bs|
    ensures forall k | 0 <= k < |bs| :: deltas[k] == DropDelta(p, bs, current[..], second[..], serving[..], k)
  {
    deltas := new real[|bs|];
    for k := 0 to |bs|
      invariant forall j | 0 <= j < k :: deltas[j] == DropDelta(p, bs, current[..], second[..], serving[..], j)
    {
      var penalty := 0.0;
      for i := 0 to p.n
        invariant penalty == Sum(Penalty(current[..], second[..], serving[..], k), i)
      {
        if serving[i] == k {
          penalty := penalty + (second[i] - current[i]);
        }
      }
      deltas[k] := -p.open(bs[k]) + penalty;
    }
  }

  /** What the kernel reports for candidate `c`: its ADD, or the first SWAP that beats it. */
  ghost predicate IsBestFor(p: Instance, bs: seq<nat>, current: seq<real>, second: seq<real>, serving: seq<int>,
                            c: nat, delta: real, kind: int, k: int)
  {
    && delta <= AddDelta(p, current, c)
    && (forall j | 0 <= j < |bs| :: delta <= SwapDelta(p, bs, current, second, serving, j, c))
    && (kind == 1 || kind == 2)
    && (kind == 1 ==> delta == AddDelta(p, current, c))
    && (kind == 2 ==>
          0 <= k < |bs| && delta == SwapDelta(p, bs, current, second, serving, k, c) < AddDelta(p, current, c))
  }

  /** The gain of opening `c` and, per base, the correction if that base closes. */
  method GainAndCorrections(p: Instance, bs: seq<nat>, current: array<real>, second: array<real>, serving: array<int>,
                            c: nat)
    returns (gain: real, corrections: array<real>)
    requires IsBases(p, bs) && current.Length == second.Length == serving.Length == p.n
    requires forall i | 0 <= i < p.n :: -1 <= serving[i] < |bs|
    ensures gain == Sum(Gain(p, current[..], c), p.n)
    ensures corrections.Length == |bs|
    ensures forall k | 0 <= k < |bs| ::
      corrections[k] == Sum(Correction(p, current[..], second[..], serving[..], k, c), p.n)
  {
    gain := 0.0;
    corrections := new real[|bs|](_ => 0.0);
    for i := 0 to p.n
      invariant gain == Sum(Gain(p, current[..], c), i)
      invariant forall k | 0 <= k < |bs| ::
        corrections[k] == Sum(Correction(p, current[..], second[..], serving[..], k, c), i)
    {
      var cost := Serve(p, i, c);
      if cost < current[i] {
        gain := gain + (cost - current[i]);
      } else {
        var k := serving[i];
        if k != -1 {
          corrections[k] := corrections[k] + (Less(cost, second[i]) - current[i]);
        }
      }
    }
  }

  /** Comparing the ADD with the SWAPs of one candidate; the first `n` bases are done. */
  ghost predicate BestSoFar(p: Instance, bs: seq<nat>, current: seq<real>, second: seq<real>, serving: seq<int>,
                            c: nat, n: nat, best: real, kind: int, param: int)
    requires n <= |bs|
  {
    && best <= AddDelta(p, current, c) && (kind == 1 || kind == 2)
    && (forall j | 0 <= j < n :: best <= SwapDelta(p, bs, current, second, serving, j, c))
    && (kind == 1 ==> best == AddDelta(p, current, c))
    && (kind == 2 ==>
          0 <= param < n && best == SwapDelta(p, bs, current, second, serving, param, c) < AddDelta(p, current, c))
  }

  method BestFor(p: Instance, bs: seq<nat>, current: array<real>, second: array<real>, serving: array<int>, c: nat)
    returns (best: real, kind: int, param: int)
    requires IsBases(p, bs) && current.Length == second.Length == serving.Length == p.n
    requires forall i | 0 <= i < p.n :: -1 <= serving[i] < |bs|
    ensures IsBestFor(p, bs, current[..], second[..], serving[..], c, best, kind, param)
  {
    var gain, corrections := GainAndCorrections(p, bs, current, second, serving, c);
    var add := p.open(c) + gain;
    best, kind, param := add, 1, -1;
    hide Sum, IsBases;
    for k := 0 to |bs|
      invariant BestSoFar(p, bs, current[..], second[..], serving[..], c, k, best, kind, param)
    {
      var swap := add - p.open(bs[k]) + corrections[k];
      assert swap == SwapDelta(p, bs, current[..], second[..], serving[..], k, c);
      if swap < best {
        best, kind, param := swap, 2, k;
      }
    }
  }

  /** `_find_best_swap_numba`. */
  method FindBestSwap(p: Instance, bs: seq<nat>, candidates: seq<nat>,
                      current: array<real>, second: array<real>, serving: array<int>)
    returns (deltas: array<real>, kinds: array<int>, params: array<int>)
    requires IsBases(p, bs) && current.Length == second.Length == serving.Length == p.n
    requires forall i | 0 <= i < p.n :: -1 <= serving[i] < |bs|
    ensures deltas.Length == kinds.Length == params.Length == |candidates|
    ensures forall x | 0 <= x < |candidates| ::
      IsBestFor(p, bs, current[..], second[..], serving[..], candidates[x], deltas[x], kinds[x], params[x])
  {
    hide IsBestFor, IsBases;
    deltas, kinds, params := new real[|candidates|], new int[|candidates|], new int[|candidates|];
    for x := 0 to |candidates|
      invariant forall y | 0 <= y < x ::
        IsBestFor(p, bs, current[..], second[..], serving[..], candidates[y], deltas[y], kinds[y], params[y])
    {
      var best, kind, param := BestFor(p, bs, current, second, serving, candidates[x]);
      deltas[x], kinds[x], params[x] := best, kind, param;
    }
  }

  /** The library's `argmin`: the first least element. */
  method ArgMin(a: array<real>) returns (m: nat)
    requires a.Length > 0
    ensures m < a.Length
    ensures forall i | 0 <= i < a.Length :: a[m] <= a[i]
    ensures forall i | 0 <= i < m :: a[m] < a[i]
  {
    m := 0;
    for i := 1 to a.Length
      invariant m < i
      invariant forall j | 0 <= j < i :: a[m] <= a[j]
      invariant forall j | 0 <= j < m :: a[m] < a[j]
    {
      if a[i] < a[m] {
        m := i;
      }
    }
  }

  /** A single move: one base closed, be it the last, one candidate opened, or both. */
  ghost predicate IsMove(candidates: set<nat>, before: set<nat>, after: set<nat>) {
    || (exists b | b in before :: after == before - {b})
    || (exists c | c in candidates - before :: after == before + {c})
    || (exists b, c | b in before && c in candidates - before :: after == before - {b} + {c})
  }

  /** No single move lowers the objective by more than eps. */
  ghost predicate LocallyOptimal(p: Instance, candidates: set<nat>, bs: set<nat>, eps: real) {
    forall after | IsMove(candidates, bs, after) :: Objective(p, after) >= Objective(p, bs) - eps
  }

  /** With `count` bases open, `bs` are kept although everything could be closed: there is more
      than one of them, or `bs` cost no more, up to eps, than storing every item raw. */
  ghost predicate LastBasePays(p: Instance, count: nat, bs: set<nat>, eps: real) {
    count >= 2 || Objective(p, bs) <= Sum(p.open, p.n) + eps
  }

  datatype Choice = Stop | Drop(k: nat) | Add(c: nat) | Swap(k: nat, c: nat)

  ghost function Moved(bs: seq<nat>, choice: Choice): set<nat>
    requires choice.Drop? || choice.Swap? ==> choice.k < |bs|
  {
    match choice
    case Stop => Open(bs)
    case Drop(k) => Open(bs) - {bs[k]}
    case Add(c) => Open(bs) + {c}
    case Swap(k, c) => Open(bs) - {bs[k]} + {c}
  }

  /** What the deltas promise for a choice. */
  ghost function ChosenDelta(p: Instance, bs: seq<nat>, current: seq<real>, second: seq<real>, serving: seq<int>,
                             choice: Choice): real
    requires choice.Drop? || choice.Swap? ==> choice.k < |bs|
  {
    match choice
    case Stop => 0.0
    case Drop(k) => DropDelta(p, bs, current, second, serving, k)
    case Add(c) => AddDelta(p, current, c)
    case Swap(k, c) => SwapDelta(p, bs, current, second, serving, k, c)
  }

  ghost predicate DropsFrom(p: Instance, bs: seq<nat>, current: seq<real>, second: seq<real>, serving: seq<int>,
                            d: real)
  {
    forall k | 0 <= k < |bs| :: DropDelta(p, bs, current, second, serving, k) >= d
  }

  ghost predicate CandidatesFrom(p: Instance, bs: seq<nat>, candidates: seq<nat>,
                                 current: seq<real>, second: seq<real>, serving: seq<int>, d: real)
  {
    forall c | c in candidates ::
      AddDelta(p, current, c) >= d && forall k | 0 <= k < |bs| :: SwapDelta(p, bs, current, second, serving, k, c) >= d
  }

  /** No delta lies more than eps below `d`. */
  ghost predicate NoneBelow(p: Instance, bs: seq<nat>, candidates: seq<nat>,
                            current: seq<real>, second: seq<real>, serving: seq<int>, eps: real, d: real)
  {
    DropsFrom(p, bs, current, second, serving, d - eps) &&
      CandidatesFrom(p, bs, candidates, current, second, serving, d - eps)
  }

  /** A candidate is only taken when it beats every drop that pays by more than eps. */
  ghost predicate BeatsDrops(p: Instance, bs: seq<nat>, current: seq<real>, second: seq<real>, serving: seq<int>,
                             eps: real, d: real)
  {
    forall k | 0 <= k < |bs| && DropDelta(p, bs, current, second, serving, k) < -eps ::
      d < DropDelta(p, bs, current, second, serving, k) - eps
  }

  /** The move the deltas of one iteration select: one that pays and that no other beats by
      more than eps, or none. */
  ghost predicate Selected(p: Instance, bs: seq<nat>, candidates: seq<nat>,
                           current: seq<real>, second: seq<real>, serving: seq<int>, eps: real, choice: Choice)
  {
    && (choice.Drop? || choice.Swap? ==> choice.k < |bs|)
    && (choice.Add? || choice.Swap? ==> choice.c in candidates)
    && (!choice.Stop? ==> ChosenDelta(p, bs, current, second, serving, choice) < -eps)
    && (choice.Add? || choice.Swap? ==>
          BeatsDrops(p, bs, current, second, serving, eps, ChosenDelta(p, bs, current, second, serving, choice)))
    && NoneBelow(p, bs, candidates, current, second, serving, eps, ChosenDelta(p, bs, current, second, serving, choice))
  }

  /** A move that pays opens a candidate that is closed. */
  lemma PayingIsNew(p: Instance, bs: seq<nat>, current: seq<real>, second: seq<real>, serving: seq<int>, eps: real,
                    choice: Choice)
    requires Sound(p) && IsBases(p, bs) && IsState(p, bs, current, second, serving) && eps >= 0.0
    requires choice.Drop? || choice.Swap? ==> choice.k < |bs|
    requires ChosenDelta(p, bs, current, second, serving, choice) < -eps
    requires choice.Add? || choice.Swap? ==>
      BeatsDrops(p, bs, current, second, serving, eps, ChosenDelta(p, bs, current, second, serving, choice))
    ensures choice.Add? || choice.Swap? ==> choice.c !in bs
  {
    hide DropDelta, AddDelta, SwapDelta, IsState, Sound, IsBases;
    match choice
    case Add(c) =>
      if c in bs {
        OpenCandidateGainsNothing(p, bs, current, second, serving, c);
      }
    case Swap(k, c) =>
      if c in bs {
        OpenCandidateSwap(p, bs, current, second, serving, k, c);
      }
    case _ =>
  }

  /** A base that pays to drop is not the only one. */
  lemma PayingDropLeaves(p: Instance, bs: seq<nat>, current: seq<real>, second: seq<real>, serving: seq<int>,
                         eps: real, k: nat)
    requires Sound(p) && IsBases(p, bs) && IsState(p, bs, current, second, serving) && eps >= 0.0 && k < |bs|
    requires DropDelta(p, bs, current, second, serving, k) < -eps
    ensures |bs| >= 2 && Open(bs) - {bs[k]} != {}
  {
    hide DropDelta, IsState, Sound;
    if |bs| == 1 {
      LastBaseStays(p, bs, current, second, serving);
    }
    OthersOpen(p, bs, k);
  }

  /** A selected move really opens a closed candidate, keeps a base open and pays off. */
  lemma SelectedImproves(p: Instance, bs: seq<nat>, candidates: seq<nat>,
                         current: seq<real>, second: seq<real>, serving: seq<int>, eps: real, choice: Choice)
    requires Sound(p) && IsBases(p, bs) && bs != [] && IsState(p, bs, current, second, serving) && eps >= 0.0
    requires forall c | c in candidates :: c < p.n
    requires Selected(p, bs, candidates, current, second, serving, eps, choice) && !choice.Stop?
    ensures IsMove(Open(candidates), Open(bs), Moved(bs, choice)) && Moved(bs, choice) != {}
    ensures choice.Add? || choice.Swap? ==> choice.c !in bs
    ensures Objective(p, Moved(bs, choice))
      == Objective(p, Open(bs)) + ChosenDelta(p, bs, current, second, serving, choice)
    ensures Objective(p, Moved(bs, choice)) < Objective(p, Open(bs)) - eps
  {
    hide Objective, DropDelta, AddDelta, SwapDelta, IsState, Sound, IsBases, NoneBelow, BeatsDrops;
    PayingIsNew(p, bs, current, second, serving, eps, choice);
    match choice
    case Drop(k) =>
      PayingDropLeaves(p, bs, current, second, serving, eps, k);
      DropIsExact(p, bs, current, second, serving, k);
      assert bs[k] in Open(bs);
    case Add(c) =>
      AddIsExact(p, bs, current, second, serving, c);
      assert c in Open(candidates) - Open(bs);
    case Swap(k, c) =>
      SwapIsExact(p, bs, current, second, serving, k, c);
      assert bs[k] in Open(bs) && c in Open(candidates) - Open(bs);
  }

  /** A candidate is opened only when that leads more than eps below every drop that pays. */
  lemma CandidateBeatsDrops(p: Instance, bs: seq<nat>, candidates: seq<nat>,
                            current: seq<real>, second: seq<real>, serving: seq<int>, eps: real, choice: Choice, k: nat)
    requires Sound(p) && IsBases(p, bs) && IsState(p, bs, current, second, serving) && eps >= 0.0
    requires forall c | c in candidates :: c < p.n
    requires Selected(p, bs, candidates, current, second, serving, eps, choice) && (choice.Add? || choice.Swap?)
    requires |bs| >= 2 && k < |bs| && Objective(p, Open(bs) - {bs[k]}) < Objective(p, Open(bs)) - eps
    ensures Objective(p, Moved(bs, choice)) < Objective(p, Open(bs) - {bs[k]}) - eps
  {
    DropIsExact(p, bs, current, second, serving, k);
    SelectedImproves(p, bs, candidates, current, second, serving, eps, choice);
    hide Objective, DropDelta, AddDelta, SwapDelta, IsState, Sound, IsBases, NoneBelow, IsMove;
  }

  /** No move that leaves a base open gains more than the deltas promise. */
  lemma MovesAreBounded(p: Instance, bs: seq<nat>, candidates: seq<nat>,
                        current: seq<real>, second: seq<real>, serving: seq<int>, eps: real, d: real, after: set<nat>)
    requires Sound(p) && IsBases(p, bs) && IsState(p, bs, current, second, serving) && bs != []
    requires forall c | c in candidates :: c < p.n
    requires NoneBelow(p, bs, candidates, current, second, serving, eps, d)
    requires IsMove(Open(candidates), Open(bs), after) && after != {}
    ensures Objective(p, after) >= Objective(p, Open(bs)) + d - eps
  {
    hide Objective, DropDelta, AddDelta, SwapDelta, IsState, Sound;
    assert forall x | x in bs :: x in Open(bs);
    if b :| b in Open(bs) && after == Open(bs) - {b} {
      var k :| 0 <= k < |bs| && bs[k] == b;
      OthersOpen(p, bs, k);
      DropIsExact(p, bs, current, second, serving, k);
    } else if c :| c in Open(candidates) - Open(bs) && after == Open(bs) + {c} {
      AddIsExact(p, bs, current, second, serving, c);
    } else {
      var b, c :| b in Open(bs) && c in Open(candidates) - Open(bs) && after == Open(bs) - {b} + {c};
      assert c in candidates && c !in Open(bs);
      assert c !in bs;
      var k :| 0 <= k < |bs| && bs[k] == b;
      SwapIsExact(p, bs, current, second, serving, k, c);
    }
  }

  /** Closing the last base is a move exactly when there is only one. */
  lemma LastMove(p: Instance, bs: seq<nat>, candidates: set<nat>)
    requires IsBases(p, bs) && bs != []
    ensures IsMove(candidates, Open(bs), {}) <==> |bs| == 1
  {
    if |bs| == 1 {
      OthersOpen(p, bs, 0);
      BasesOpen(bs, 0);
    }
    forall b | b in Open(bs) ensures Open(bs) - {b} == {} ==> |bs| == 1 {
      var k :| 0 <= k < |bs| && bs[k] == b;
      OthersOpen(p, bs, k);
    }
    forall c: nat ensures Open(bs) + {c} != {} {
      assert c in Open(bs) + {c};
    }
    forall b: nat, c: nat ensures Open(bs) - {b} + {c} != {} {
      assert c in Open(bs) - {b} + {c};
    }
  }

  /** The search takes the steepest way down: no single move leads more than eps lower, except
      that closing the only base may. */
  lemma NearlySteepest(p: Instance, bs: seq<nat>, candidates: seq<nat>,
                       current: seq<real>, second: seq<real>, serving: seq<int>, eps: real, choice: Choice)
    requires Sound(p) && IsBases(p, bs) && bs != [] && IsState(p, bs, current, second, serving) && eps >= 0.0
    requires forall c | c in candidates :: c < p.n
    requires Selected(p, bs, candidates, current, second, serving, eps, choice)
    ensures (forall after | IsMove(Open(candidates), Open(bs), after) ::
      Objective(p, after) >= Objective(p, Moved(bs, choice)) - eps)
      <==> LastBasePays(p, |bs|, Moved(bs, choice), eps)
  {
    hide DropDelta, AddDelta, SwapDelta, IsState, Sound, IsMove, NoneBelow, KernelCost, BeatsDrops;
    if !choice.Stop? {
      SelectedImproves(p, bs, candidates, current, second, serving, eps, choice);
    }
    LastMove(p, bs, Open(candidates));
    forall after | IsMove(Open(candidates), Open(bs), after) && after != {}
      ensures Objective(p, after) >= Objective(p, Moved(bs, choice)) - eps
    {
      MovesAreBounded(p, bs, candidates, current, second, serving, eps,
        ChosenDelta(p, bs, current, second, serving, choice), after);
    }
    assert Objective(p, {}) == Sum(p.open, p.n);
  }

  /** Leaving by `break` is optimal for single moves if and only if more than one base is open
      or the one that is does not cost more, by eps, than storing every item raw. */
  lemma StopIsOptimal(p: Instance, bs: seq<nat>, candidates: seq<nat>,
                      current: seq<real>, second: seq<real>, serving: seq<int>, eps: real)
    requires Sound(p) && IsBases(p, bs) && bs != [] && IsState(p, bs, current, second, serving) && eps >= 0.0
    requires forall c | c in candidates :: c < p.n
    requires Selected(p, bs, candidates, current, second, serving, eps, Stop)
    ensures LocallyOptimal(p, Open(candidates), Open(bs), eps) <==> LastBasePays(p, |bs|, Open(bs), eps)
  {
    hide NoneBelow, IsMove, Objective;
    NearlySteepest(p, bs, candidates, current, second, serving, eps, Stop);
  }

  ghost predicate IsLone(p: Instance) {
    p.n == 3 && (forall i, j :: p.cost(i, j) == 100.0) && forall j :: p.open(j) == 1.0
  }

  lemma LoneState(p: Instance)
    requires IsLone(p)
    ensures IsState(p, [0], [0.0, 100.0, 100.0], [INF, INF, INF], [0, 0, 0])
  {
    var bs: seq<nat> := [0];
    assert Open(bs) == {0} && Without(bs, 0) == [] && Open(Without(bs, 0)) == {};
    forall i | 0 <= i < 3 ensures BestTwo(p, bs, i, [0.0, 100.0, 100.0][i], INF, 0) {
      assert Serve(p, i, 0) == if i == 0 then 0.0 else 100.0;
      assert 0 in Open(bs);
    }
  }

  lemma LoneStops(p: Instance)
    requires IsLone(p)
    ensures Selected(p, [0], [0], [0.0, 100.0, 100.0], [INF, INF, INF], [0, 0, 0], 0.0, Stop)
  {
    hide DropDelta, AddDelta, SwapDelta, IsState;
    var current, second, serving := [0.0, 100.0, 100.0], [INF, INF, INF], [0, 0, 0];
    LoneState(p);
    LastBaseStays(p, [0], current, second, serving);
    OpenCandidateGainsNothing(p, [0], current, second, serving, 0);
    OpenCandidateSwap(p, [0], current, second, serving, 0, 0);
  }

  lemma ThreeTerms(f: int -> real)
    ensures Sum(f, 3) == f(0) + f(1) + f(2)
  {
    assert Sum(f, 2) == Sum(f, 1) + f(1) == f(0) + f(1);
  }

  lemma LoneCosts(p: Instance)
    requires IsLone(p)
    ensures Objective(p, Open([0])) == 201.0 && Objective(p, {}) == 3.0
  {
    var s: set<nat> := {0};
    assert Open([0]) == s;
    assert 0 in s;
    ThreeTerms(p.open);
    ThreeTerms(OnlyAt(p.open, s));
    ThreeTerms(ServeShare(p, s));
    LeastIsNearest(p, s, 0, 0.0);
    LeastIsNearest(p, s, 1, 100.0);
    LeastIsNearest(p, s, 2, 100.0);
  }

  /** Three items that cost 100 to serve and 1 to open, with item 0 the only base and the only
      candidate: the search stops, although closing the base takes the objective from 201 to 3. */
  lemma StopsAtLastBase()
    ensures var p := Instance(3, (i: int, j: int) => 100.0, (j: int) => 1.0);
      && Sound(p) && IsState(p, [0], [0.0, 100.0, 100.0], [INF, INF, INF], [0, 0, 0])
      && Selected(p, [0], [0], [0.0, 100.0, 100.0], [INF, INF, INF], [0, 0, 0], 0.0, Stop)
      && Objective(p, Open([0])) == 201.0 && Objective(p, {}) == 3.0
      && !LocallyOptimal(p, Open([0]), Open([0]), 0.0)
  {
    var p := Instance(3, (i: int, j: int) => 100.0, (j: int) => 1.0);
    hide Selected, IsState, Objective, LocallyOptimal;
    LoneState(p);
    LoneCosts(p);
    LoneStops(p);
    StopIsOptimal(p, [0], [0], [0.0, 100.0, 100.0], [INF, INF, INF], [0, 0, 0], 0.0);
    assert Sum(p.open, p.n) == 3.0 by { ThreeTerms(p.open); }
  }

  lemma Lower(p: Instance, bs: seq<nat>, candidates: seq<nat>, current: seq<real>, second: seq<real>, serving: seq<int>,
              lowest: real, least: real, d: real)
    requires DropsFrom(p, bs, current, second, serving, lowest) &&
      CandidatesFrom(p, bs, candidates, current, second, serving, least)
    ensures d <= lowest ==> DropsFrom(p, bs, current, second, serving, d)
    ensures d <= least ==> CandidatesFrom(p, bs, candidates, current, second, serving, d)
  {
    hide DropDelta, AddDelta, SwapDelta;
  }

  /** No candidate beats the best drop, or nothing, by more than eps. */
  lemma SelectsDrop(p: Instance, bs: seq<nat>, candidates: seq<nat>, current: seq<real>, second: seq<real>,
                    serving: seq<int>,
                    eps: real, choice: Choice, best: real, lowest: real, least: real)
    requires DropsFrom(p, bs, current, second, serving, lowest) &&
      CandidatesFrom(p, bs, candidates, current, second, serving, least)
    requires eps >= 0.0 && least >= best - eps && lowest >= best - eps
    requires (choice == Stop && best == 0.0)
      || (choice.Drop? && choice.k < |bs| && best == DropDelta(p, bs, current, second, serving, choice.k) < -eps)
    ensures Selected(p, bs, candidates, current, second, serving, eps, choice)
  {
    hide DropDelta, AddDelta, SwapDelta;
    Lower(p, bs, candidates, current, second, serving, lowest, least, best - eps);
  }

  /** A candidate beats the best drop, or nothing, by more than eps. */
  lemma SelectsCandidate(p: Instance, bs: seq<nat>, candidates: seq<nat>, current: seq<real>, second: seq<real>,
                         serving: seq<int>,
                         eps: real, choice: Choice, lowest: real, least: real)
    requires DropsFrom(p, bs, current, second, serving, lowest) &&
      CandidatesFrom(p, bs, candidates, current, second, serving, least)
    requires choice.Add? || (choice.Swap? && choice.k < |bs|)
    requires choice.c in candidates && least == ChosenDelta(p, bs, current, second, serving, choice)
    requires eps >= 0.0 && least < -eps && (lowest < -eps ==> least < lowest - eps)
    ensures Selected(p, bs, candidates, current, second, serving, eps, choice)
  {
    hide DropDelta, AddDelta, SwapDelta;
    Lower(p, bs, candidates, current, second, serving, lowest, least, least - eps);
  }

  /** The best drop, if one pays. */
  method BestDrop(p: Instance, bs: seq<nat>, drops: array<real>, eps: real,
                  ghost current: seq<real>, ghost second: seq<real>, ghost serving: seq<int>)
    returns (choice: Choice, best: real, ghost lowest: real)
    requires bs != [] && drops.Length == |bs| && eps >= 0.0
    requires forall k | 0 <= k < |bs| :: drops[k] == DropDelta(p, bs, current, second, serving, k)
    ensures DropsFrom(p, bs, current, second, serving, lowest)
    ensures if lowest < -eps then best == lowest && choice.Drop? && choice.k < |bs| &&
      best == DropDelta(p, bs, current, second, serving, choice.k)
      else choice == Stop && best == 0.0
  {
    hide DropDelta;
    var k := ArgMin(drops);
    lowest := drops[k];
    if drops[k] < -eps {
      return Drop(k), drops[k], lowest;
    }
    return Stop, 0.0, lowest;
  }

  lemma LeastOfAll(p: Instance, bs: seq<nat>, candidates: seq<nat>, current: seq<real>, second: seq<real>,
                   serving: seq<int>,
                   deltas: seq<real>, kinds: seq<int>, params: seq<int>, least: real)
    requires |deltas| == |kinds| == |params| == |candidates| && forall x | 0 <= x < |deltas| :: least <= deltas[x]
    requires forall x | 0 <= x < |candidates| ::
      IsBestFor(p, bs, current, second, serving, candidates[x], deltas[x], kinds[x], params[x])
    ensures CandidatesFrom(p, bs, candidates, current, second, serving, least)
  {
    hide AddDelta, SwapDelta;
    forall c | c in candidates
      ensures AddDelta(p, current, c) >= least && forall k | 0 <= k < |bs| ::
        SwapDelta(p, bs, current, second, serving, k, c) >= least
    {
      var y :| 0 <= y < |candidates| && candidates[y] == c;
      assert IsBestFor(p, bs, current, second, serving, c, deltas[y], kinds[y], params[y]);
    }
  }

  lemma BestIsChoice(p: Instance, bs: seq<nat>, current: seq<real>, second: seq<real>, serving: seq<int>,
                     c: nat, delta: real, kind: int, k: int)
    requires IsBestFor(p, bs, current, second, serving, c, delta, kind, k)
    ensures kind == 1 || (kind == 2 && 0 <= k < |bs|)
    ensures delta == ChosenDelta(p, bs, current, second, serving, if kind == 1 then Add(c) else Swap(k, c))
  {
    hide AddDelta, SwapDelta;
  }

  /** The best candidate with its ADD or SWAP. */
  method BestCandidate(p: Instance, bs: seq<nat>, candidates: seq<nat>, current: array<real>, second: array<real>,
                       serving: array<int>)
    returns (choice: Choice, least: real)
    requires IsBases(p, bs) && current.Length == second.Length == serving.Length == p.n && candidates != []
    requires forall i | 0 <= i < p.n :: -1 <= serving[i] < |bs|
    ensures CandidatesFrom(p, bs, candidates, current[..], second[..], serving[..], least)
    ensures choice.Add? || (choice.Swap? && choice.k < |bs|)
    ensures choice.c in candidates && least == ChosenDelta(p, bs, current[..], second[..], serving[..], choice)
  {
    hide DropDelta, AddDelta, SwapDelta, IsBases, IsBestFor, ChosenDelta;
    var deltas, kinds, params := FindBestSwap(p, bs, candidates, current, second, serving);
    var x := ArgMin(deltas);
    least := deltas[x];
    LeastOfAll(p, bs, candidates, current[..], second[..], serving[..], deltas[..], kinds[..], params[..], least);
    BestIsChoice(p, bs, current[..], second[..], serving[..], candidates[x], deltas[x], kinds[x], params[x]);
    choice := if kinds[x] == 1 then Add(candidates[x]) else Swap(params[x], candidates[x]);
  }

  lemma NoCandidates(p: Instance, bs: seq<nat>, current: seq<real>, second: seq<real>, serving: seq<int>, d: real)
    ensures CandidatesFrom(p, bs, [], current, second, serving, d)
  {
  }

  lemma ServingInRange(p: Instance, bs: seq<nat>, current: seq<real>, second: seq<real>, serving: seq<int>)
    requires IsState(p, bs, current, second, serving)
    ensures |current| == |second| == |serving| == p.n
    ensures forall i | 0 <= i < p.n :: -1 <= serving[i] < |bs|
  {
    forall i | 0 <= i < p.n ensures -1 <= serving[i] < |bs| {
      assert BestTwo(p, bs, i, current[i], second[i], serving[i]);
    }
  }

  /** The state, the deltas and the choice of one iteration. */
  method Select(p: Instance, bs: seq<nat>, candidates: seq<nat>, eps: real)
    returns (choice: Choice, ghost current: seq<real>, ghost second: seq<real>, ghost serving: seq<int>)
    requires Sound(p) && IsBases(p, bs) && bs != [] && eps >= 0.0
    requires forall c | c in candidates :: c < p.n
    ensures IsState(p, bs, current, second, serving)
    ensures Selected(p, bs, candidates, current, second, serving, eps, choice)
  {
    var cur, sec, srv := ComputeState(p, bs);
    current, second, serving := cur[..], sec[..], srv[..];
    ServingInRange(p, bs, current, second, serving);
    var drops := DropDeltas(p, bs, cur, sec, srv);
    hide *;
    var best;
    ghost var lowest;
    choice, best, lowest := BestDrop(p, bs, drops, eps, current, second, serving);
    if candidates == [] {
      NoCandidates(p, bs, current, second, serving, best - eps);
      SelectsDrop(p, bs, candidates, current, second, serving, eps, choice, best, lowest, best - eps);
    } else {
      var taken, least := BestCandidate(p, bs, candidates, cur, sec, srv);
      if least < best - eps {
        SelectsCandidate(p, bs, candidates, current, second, serving, eps, taken, lowest, least);
        choice := taken;
      } else {
        SelectsDrop(p, bs, candidates, current, second, serving, eps, choice, best, lowest, least);
      }
    }
  }

  lemma RemovedSet(bs: seq<nat>, k: nat)
    requires k < |bs| && forall i, j | 0 <= i < j < |bs| :: bs[i] != bs[j]
    ensures Open(bs[..k] + bs[k + 1..]) == Open(bs) - {bs[k]}
  {
    var r := bs[..k] + bs[k + 1..];
    forall b | b in Open(bs) && b != bs[k] ensures b in r {
      var j :| 0 <= j < |bs| && bs[j] == b;
      assert j < k ==> r[j] == b;
      assert j > k ==> r[j - 1] == b;
    }
  }

  lemma ReplacedSet(bs: seq<nat>, k: nat, c: nat)
    requires k < |bs| && forall i, j | 0 <= i < j < |bs| :: bs[i] != bs[j]
    ensures SetOf(bs[k := c]) == Open(bs) - {bs[k]} + {c}
  {
    var r := bs[k := c];
    assert r[k] == c;
    forall b | b in Open(bs) && b != bs[k] ensures b in r {
      var j :| 0 <= j < |bs| && bs[j] == b;
      assert r[j] == b;
    }
  }

  /** The open bases after a move, in increasing order. */
  method Apply(bs: seq<nat>, choice: Choice) returns (r: seq<nat>)
    requires !choice.Stop? && (choice.Drop? || choice.Swap? ==> choice.k < |bs|)
    requires forall i, j | 0 <= i < j < |bs| :: bs[i] != bs[j]
    requires choice.Drop? ==> Increasing(bs)
    ensures Increasing(r) && Open(r) == Moved(bs, choice)
  {
    match choice
    case Drop(k) =>
      r := bs[..k] + bs[k + 1..];
      RemovedSet(bs, k);
    case Add(c) =>
      SetOfSnoc(bs, c);
      r := Sorted(set b | b in bs + [c]);
      assert Open(r) == SetOf(r) == SetOf(bs + [c]);
    case Swap(k, c) =>
      ReplacedSet(bs, k, c);
      var replaced := bs[k := c];
      r := Sorted(set b | b in replaced);
      assert Open(r) == SetOf(r) == SetOf(replaced);
  }

  /** The library's `unique`: the distinct elements in increasing order. */
  method Unique(s: seq<nat>) returns (q: seq<nat>)
    ensures Increasing(q) && Open(q) == Open(s)
    ensures forall x | x in q :: x in s
    ensures s != [] ==> q != []
  {
    q := Sorted(set x | x in s);
    assert Open(q) == SetOf(q) == Open(s);
    assert forall x | x in q :: x in Open(q);
    assert s != [] ==> s[0] in Open(q);
  }

  /** One accepted move: it pays by more than eps, and no other move pays by eps more, except
      that closing the only base may. */
  ghost predicate IsStep(p: Instance, candidates: set<nat>, before: set<nat>, after: set<nat>, eps: real) {
    && IsMove(candidates, before, after) && after != {}
    && Objective(p, after) < Objective(p, before) - eps
    && ((forall other | IsMove(candidates, before, other) :: Objective(p, other) >= Objective(p, after) - eps)
        <==> LastBasePays(p, |before|, after, eps))
  }

  /** The base sets of a search, from `start` to `end`, one accepted move apart. */
  ghost predicate IsTrail(p: Instance, candidates: set<nat>, start: set<nat>, trail: seq<set<nat>>, end: set<nat>,
                          eps: real)
  {
    && trail != [] && trail[0] == start && trail[|trail| - 1] == end
    && forall k | 0 < k < |trail| :: IsStep(p, candidates, trail[k - 1], trail[k], eps)
  }

  lemma TrailSnoc(p: Instance, candidates: set<nat>, start: set<nat>, trail: seq<set<nat>>, end: set<nat>, eps: real,
                  after: set<nat>)
    requires IsTrail(p, candidates, start, trail, end, eps) && IsStep(p, candidates, end, after, eps)
    ensures IsTrail(p, candidates, start, trail + [after], after, eps)
  {
    hide IsStep;
    var more := trail + [after];
    forall k | 0 < k < |more| ensures IsStep(p, candidates, more[k - 1], more[k], eps) {
      if k < |trail| {
        assert more[k - 1] == trail[k - 1] && more[k] == trail[k];
      }
    }
  }

  /** After `swaps` moves from `start`: each has lowered the objective by more than eps. */
  ghost predicate Improved(p: Instance, candidates: set<nat>, start: set<nat>, bs: seq<nat>, swaps: nat, eps: real) {
    && Increasing(bs) && IsBases(p, bs) && bs != []
    && Open(bs) <= start + candidates
    && Objective(p, Open(bs)) <= Objective(p, start) - swaps as real * eps
    && (swaps > 0 ==> Objective(p, Open(bs)) < Objective(p, start) - swaps as real * eps)
  }

  lemma OpenCount(p: Instance, bs: seq<nat>)
    requires IsBases(p, bs)
    ensures |Open(bs)| == |bs|
  {
    DistinctCount(bs);
    assert Open(bs) == SetOf(bs);
  }

  lemma SortedBases(p: Instance, bs: seq<nat>, s: set<nat>)
    requires Increasing(bs) && Open(bs) == s && s != {} && Within(p, s)
    ensures IsBases(p, bs) && bs != []
  {
    forall k | 0 <= k < |bs| ensures bs[k] < p.n {
      assert bs[k] in Open(bs);
    }
    assert bs == [] ==> Open(bs) == {};
  }

  lemma MoveStaysWithin(p: Instance, candidates: set<nat>, before: set<nat>, after: set<nat>)
    requires IsMove(candidates, before, after) && Within(p, before) && Within(p, candidates)
    ensures Within(p, after) && after <= before + candidates
  {
    if c :| c in candidates && c in after {
    }
  }

  lemma MoveImproves(p: Instance, candidates: seq<nat>, start: set<nat>, bs: seq<nat>, swaps: nat, eps: real,
                     current: seq<real>, second: seq<real>, serving: seq<int>, choice: Choice, after: seq<nat>)
    requires Sound(p) && eps >= 0.0 && forall c | c in candidates :: c < p.n
    requires Improved(p, Open(candidates), start, bs, swaps, eps)
    requires IsState(p, bs, current, second, serving)
    requires Selected(p, bs, candidates, current, second, serving, eps, choice)
    requires !choice.Stop? && (choice.Drop? || choice.Swap? ==> choice.k < |bs|)
    requires Increasing(after) && Open(after) == Moved(bs, choice)
    ensures Improved(p, Open(candidates), start, after, swaps + 1, eps)
    ensures IsStep(p, Open(candidates), Open(bs), Open(after), eps)
  {
    hide Objective, Moved, Selected, IsState, IsMove;
    OpenCount(p, bs);
    NearlySteepest(p, bs, candidates, current, second, serving, eps, choice);
    SelectedImproves(p, bs, candidates, current, second, serving, eps, choice);
    MoveStaysWithin(p, Open(candidates), Open(bs), Open(after));
    SortedBases(p, after, Open(after));
    assert (swaps + 1) as real * eps == swaps as real * eps + eps;
  }

  lemma SelectedFits(p: Instance, bs: seq<nat>, candidates: seq<nat>,
                     current: seq<real>, second: seq<real>, serving: seq<int>, eps: real, choice: Choice)
    requires Selected(p, bs, candidates, current, second, serving, eps, choice)
    ensures choice.Drop? || choice.Swap? ==> choice.k < |bs|
  {
  }

  /** Bases serve themselves, every other item is served by a nearest base. */
  ghost predicate ServedNearest(p: Instance, bs: set<nat>, assignment: seq<int>) {
    && |assignment| == p.n
    && forall i | 0 <= i < p.n ::
      assignment[i] in bs && (i in bs ==> assignment[i] == i) && Serve(p, i, assignment[i]) == Nearest(p, bs, i, p.n)
  }

  /** The first of the bases nearest to an item that is no base. */
  method NearestBase(p: Instance, bs: seq<nat>, i: nat) returns (b: nat)
    requires Sound(p) && IsBases(p, bs) && bs != [] && i < p.n && i !in bs
    ensures b in bs && p.cost(i, b) == Serve(p, i, b) == Nearest(p, Open(bs), i, p.n)
  {
    var m := 0;
    for k := 1 to |bs|
      invariant m < k
      invariant forall j | 0 <= j < k :: p.cost(i, bs[m]) <= p.cost(i, bs[j])
    {
      if p.cost(i, bs[k]) < p.cost(i, bs[m]) {
        m := k;
      }
    }
    b := bs[m];
    assert b in Open(bs);
    LeastIsNearest(p, Open(bs), i, Serve(p, i, b));
  }

  lemma BaseServesItself(p: Instance, bs: set<nat>, i: nat)
    requires Sound(p) && Within(p, bs) && i in bs
    ensures Nearest(p, bs, i, p.n) == 0.0
  {
    assert Serve(p, i, i) == 0.0;
    LeastIsNearest(p, bs, i, 0.0);
  }

  ghost predicate ServedWell(p: Instance, bs: set<nat>, j: nat, b: int) {
    b in bs && (j in bs ==> b == j) && Serve(p, j, b) == Nearest(p, bs, j, p.n)
  }

  /** The items before `k` are connected, the others still assigned to themselves. */
  ghost predicate ServedBefore(p: Instance, bs: set<nat>, assignment: seq<int>, k: nat) {
    && k <= |assignment| == p.n
    && (forall j | k <= j < p.n :: assignment[j] == j)
    && forall j | 0 <= j < k :: ServedWell(p, bs, j, assignment[j])
  }

  lemma SelfServed(p: Instance, bs: seq<nat>, i: nat)
    requires Sound(p) && IsBases(p, bs) && i in bs
    ensures ServedWell(p, Open(bs), i, i) && ServeShare(p, Open(bs))(i) == 0.0
  {
    BaseServesItself(p, Open(bs), i);
  }

  lemma NearestServed(p: Instance, bs: seq<nat>, i: nat, b: nat)
    requires b in bs && i !in bs && p.cost(i, b) == Serve(p, i, b) == Nearest(p, Open(bs), i, p.n)
    ensures ServedWell(p, Open(bs), i, b) && ServeShare(p, Open(bs))(i) == p.cost(i, b)
  {
    hide Nearest;
  }

  lemma AllServed(p: Instance, bs: seq<nat>, assignment: seq<int>)
    requires ServedBefore(p, Open(bs), assignment, p.n)
    ensures ServedNearest(p, Open(bs), assignment)
  {
    hide Nearest;
  }

  /** Connects every item that is no base to a nearest one. */
  method Connect(p: Instance, bs: seq<nat>) returns (assignment: array<int>, connect: real)
    requires Sound(p) && IsBases(p, bs) && bs != []
    ensures ServedNearest(p, Open(bs), assignment[..]) && connect == Sum(ServeShare(p, Open(bs)), p.n)
  {
    assignment := new int[p.n](i => i);
    connect := 0.0;
    hide Nearest, ServedWell, Sound, IsBases;
    for i := 0 to p.n
      invariant connect == Sum(ServeShare(p, Open(bs)), i)
      invariant ServedBefore(p, Open(bs), assignment[..], i)
    {
      ghost var was := assignment[..];
      if i in bs {
        SelfServed(p, bs, i);
      } else {
        var b := NearestBase(p, bs, i);
        NearestServed(p, bs, i, b);
        assignment[i] := b;
        connect := connect + p.cost(i, b);
        assert assignment[..] == was[i := b];
      }
    }
    AllServed(p, bs, assignment[..]);
  }

  method OpeningCost(p: Instance, bs: seq<nat>) returns (cost: real)
    requires IsBases(p, bs)
    ensures cost == Sum(OnlyAt(p.open, Open(bs)), p.n)
  {
    cost := 0.0;
    for k := 0 to |bs|
      invariant cost == SumAt(p.open, bs[..k])
    {
      assert bs[..k + 1][..k] == bs[..k];
      cost := cost + p.open(bs[k]);
    }
    assert bs[..|bs|] == bs;
    SumAtMembers(p.open, bs, p.n);
    assert Open(bs) == SetOf(bs);
  }

  /** `_compute_objective_and_assignment`: the full recomputation the deltas stand for. */
  method ObjectiveAndAssignment(p: Instance, bases: seq<nat>) returns (assignment: array<int>, total: real)
    requires Sound(p) && forall b | b in bases :: b < p.n
    ensures bases != [] ==> total == Objective(p, Open(bases)) && ServedNearest(p, Open(bases), assignment[..])
    ensures bases == [] ==>
      total == Sum(p.open, p.n) && assignment.Length == p.n && forall i | 0 <= i < p.n :: assignment[i] == i
  {
    hide ServedNearest, Sound, Nearest;
    if bases == [] {
      assignment := new int[p.n](i => i);
      total := 0.0;
      for i := 0 to p.n
        invariant total == Sum(p.open, i)
      {
        total := total + p.open(i);
      }
      return;
    }
    var bs := Unique(bases);
    assert bases[0] in Open(bases);
    SortedBases(p, bs, Open(bases));
    var connect;
    assignment, connect := Connect(p, bs);
    total := OpeningCost(p, bs);
    total := total + connect;
  }

  lemma TrailStarts(p: Instance, candidates: set<nat>, start: set<nat>, eps: real)
    ensures IsTrail(p, candidates, start, [start], start, eps)
  {
  }

  lemma NoDearer(p: Instance, candidates: set<nat>, start: set<nat>, bs: seq<nat>, swaps: nat, eps: real)
    requires Improved(p, candidates, start, bs, swaps, eps) && eps >= 0.0
    ensures Objective(p, Open(bs)) <= Objective(p, start)
  {
    hide Objective, IsBases;
    assert swaps as real * eps >= 0.0;
  }

  /** `_run_local_swap_refinement`: every accepted move lowers the objective by more than eps.
      Stopping before the limit means that no single move would lower it by more, except that
      closing the only base may; that cannot happen when the start is no dearer than storing
      every item raw. */
  method Refine(p: Instance, candidateIndices: seq<nat>, initial: seq<nat>, maxSwaps: nat, eps: real)
    returns (bs: seq<nat>, swaps: nat, stopped: bool, assignment: array<int>, ghost trail: seq<set<nat>>)
    requires Sound(p) && eps >= 0.0 && initial != []
    requires forall b | b in initial :: b < p.n
    requires forall c | c in candidateIndices :: c < p.n
    ensures swaps <= maxSwaps && (swaps < maxSwaps ==> stopped)
    ensures |trail| == swaps + 1 && IsTrail(p, Open(candidateIndices), Open(initial), trail, Open(bs), eps)
    ensures Improved(p, Open(candidateIndices), Open(initial), bs, swaps, eps)
    ensures stopped ==>
      (LocallyOptimal(p, Open(candidateIndices), Open(bs), eps) <==> LastBasePays(p, |bs|, Open(bs), eps))
    ensures stopped && Objective(p, Open(initial)) <= Sum(p.open, p.n) + eps ==>
      LocallyOptimal(p, Open(candidateIndices), Open(bs), eps)
    ensures ServedNearest(p, Open(bs), assignment[..])
  {
    hide Objective, IsMove, LocallyOptimal, Selected, IsState, ServedNearest, IsStep, IsTrail;
    bs := Unique(initial);
    var candidates := Unique(candidateIndices);
    assert initial[0] in Open(initial);
    SortedBases(p, bs, Open(initial));
    swaps, stopped, trail := 0, false, [Open(initial)];
    TrailStarts(p, Open(candidateIndices), Open(initial), eps);
    while swaps < maxSwaps && !stopped
      invariant swaps <= maxSwaps
      invariant |trail| == swaps + 1 && IsTrail(p, Open(candidateIndices), Open(initial), trail, Open(bs), eps)
      invariant Improved(p, Open(candidateIndices), Open(initial), bs, swaps, eps)
      invariant stopped ==>
        (LocallyOptimal(p, Open(candidateIndices), Open(bs), eps) <==> LastBasePays(p, |bs|, Open(bs), eps))
      decreases maxSwaps - swaps, !stopped
    {
      var choice;
      ghost var current, second, serving;
      choice, current, second, serving := Select(p, bs, candidates, eps);
      SelectedFits(p, bs, candidates, current, second, serving, eps, choice);
      if choice.Stop? {
        StopIsOptimal(p, bs, candidates, current, second, serving, eps);
        stopped := true;
      } else {
        ghost var before := bs;
        bs := Apply(bs, choice);
        MoveImproves(p, candidates, Open(initial), before, swaps, eps, current, second, serving, choice, bs);
        TrailSnoc(p, Open(candidateIndices), Open(initial), trail, Open(before), eps, Open(bs));
        trail := trail + [Open(bs)];
        swaps := swaps + 1;
      }
    }
    var total;
    assignment, total := ObjectiveAndAssignment(p, bs);
    NoDearer(p, Open(candidateIndices), Open(initial), bs, swaps, eps);
  }
}
