/** Building the work list of the full-hub executor: group the plan's pairs by base, cut the
    groups into units of bounded bytes, and deal the units to shards, heaviest first. */
module WorkUnits {
  import opened Sums
  import opened Sequences
  import opened Sharding

  /** A base row with target rows to encode against it; a whole group has the same shape. */
  datatype Unit = Unit(base: nat, targets: seq<nat>)

  type Size = nat -> nat

  function Bytes(size: Size, targets: seq<nat>): nat {
    if targets == [] then 0 else Bytes(size, targets[..|targets| - 1]) + size(targets[|targets| - 1])
  }

  ghost function PairsOf(base: nat, targets: seq<nat>): multiset<(nat, nat)> {
    if targets == [] then multiset{}
    else PairsOf(base, targets[..|targets| - 1]) + multiset{(base, targets[|targets| - 1])}
  }

  /** All (base, target) pairs in a list of units, with multiplicity. */
  ghost function AllPairs(units: seq<Unit>): multiset<(nat, nat)> {
    if units == [] then multiset{}
    else
      var u := units[|units| - 1];
      AllPairs(units[..|units| - 1]) + PairsOf(u.base, u.targets)
  }

  lemma PairsSnoc(base: nat, targets: seq<nat>, t: nat)
    ensures PairsOf(base, targets + [t]) == PairsOf(base, targets) + multiset{(base, t)}
  {
    assert (targets + [t])[..|targets|] == targets;
  }

  lemma BytesSnoc(size: Size, targets: seq<nat>, t: nat)
    ensures Bytes(size, targets + [t]) == Bytes(size, targets) + size(t)
  {
    assert (targets + [t])[..|targets|] == targets;
  }

  lemma AllPairsSnoc(units: seq<Unit>, u: Unit)
    ensures AllPairs(units + [u]) == AllPairs(units) + PairsOf(u.base, u.targets)
  {
    assert (units + [u])[..|units|] == units;
  }

  lemma AllPairsJoinOne(xs: seq<Unit>, front: seq<Unit>, u: Unit)
    requires AllPairs(xs + front) == AllPairs(xs) + AllPairs(front)
    ensures AllPairs(xs + (front + [u])) == AllPairs(xs) + AllPairs(front + [u])
  {
    hide PairsOf, AllPairs;
    AllPairsSnoc(xs + front, u);
    AllPairsSnoc(front, u);
    assert xs + (front + [u]) == (xs + front) + [u];
  }

  lemma NoUnits()
    ensures AllPairs([]) == multiset{}
  {
  }

  lemma {:induction false} AllPairsJoin(xs: seq<Unit>, ys: seq<Unit>)
    ensures AllPairs(xs + ys) == AllPairs(xs) + AllPairs(ys)
  {
    hide PairsOf, AllPairs;
    if ys == [] {
      NoUnits();
      assert xs + ys == xs;
    } else {
      var front, u := ys[..|ys| - 1], ys[|ys| - 1];
      AllPairsJoin(xs, front);
      AllPairsJoinOne(xs, front, u);
      assert front + [u] == ys;
    }
  }

  // ---- groups by base

  /** One more target in one group is one more pair. */
  lemma AllPairsUpdate(units: seq<Unit>, k: nat, t: nat)
    requires k < |units|
    ensures AllPairs(units[k := Unit(units[k].base, units[k].targets + [t])])
      == AllPairs(units) + multiset{(units[k].base, t)}
  {
    hide PairsOf, AllPairs;
    var u, v := units[k], Unit(units[k].base, units[k].targets + [t]);
    var front, back := units[..k], units[k + 1..];
    PairsSnoc(u.base, u.targets, t);
    AllPairsSnoc(front, u);
    AllPairsSnoc(front, v);
    AllPairsJoin(front + [u], back);
    AllPairsJoin(front + [v], back);
    assert units == front + [u] + back;
    assert units[k := v] == front + [v] + back;
  }

  ghost predicate OneGroupPerBase(groups: seq<Unit>) {
    forall i, j | 0 <= i < j < |groups| :: groups[i].base != groups[j].base
  }

  /** The targets paired with `b`, in the order of the plan. */
  ghost function TargetsOf(pairs: seq<(nat, nat)>, b: nat): seq<nat> {
    if pairs == [] then []
    else
      var last := pairs[|pairs| - 1];
      TargetsOf(pairs[..|pairs| - 1], b) + (if last.0 == b then [last.1] else [])
  }

  ghost predicate Grouped(pairs: seq<(nat, nat)>, groups: seq<Unit>) {
    && OneGroupPerBase(groups)
    && (forall g | g in groups :: g.targets == TargetsOf(pairs, g.base) && g.targets != [])
    && AllPairs(groups) == multiset(pairs)
  }

  lemma NoGroups()
    ensures Grouped([], [])
  {
  }

  lemma {:induction false} NotPaired(pairs: seq<(nat, nat)>, b: nat)
    requires forall p | p in pairs :: p.0 != b
    ensures TargetsOf(pairs, b) == []
  {
    if pairs != [] {
      NotPaired(pairs[..|pairs| - 1], b);
    }
  }

  lemma {:induction false} PairsHaveBase(base: nat, targets: seq<nat>)
    ensures forall p | p in PairsOf(base, targets) :: p.0 == base
  {
    if targets != [] {
      PairsHaveBase(base, targets[..|targets| - 1]);
    }
  }

  lemma {:induction false} NoBase(groups: seq<Unit>, b: nat)
    requires forall g | g in groups :: g.base != b
    ensures forall p | p in AllPairs(groups) :: p.0 != b
  {
    if groups != [] {
      var u := groups[|groups| - 1];
      NoBase(groups[..|groups| - 1], b);
      PairsHaveBase(u.base, u.targets);
    }
  }

  lemma {:induction false} NoTargets(pairs: seq<(nat, nat)>, groups: seq<Unit>, b: nat)
    requires AllPairs(groups) == multiset(pairs) && forall g | g in groups :: g.base != b
    ensures TargetsOf(pairs, b) == []
  {
    NoBase(groups, b);
    forall p | p in pairs ensures p.0 != b {
      assert p in multiset(pairs);
    }
    NotPaired(pairs, b);
  }

  lemma TargetsSnoc(pairs: seq<(nat, nat)>, p: (nat, nat))
    ensures TargetsOf(pairs + [p], p.0) == TargetsOf(pairs, p.0) + [p.1]
    ensures forall b | b != p.0 :: TargetsOf(pairs + [p], b) == TargetsOf(pairs, b)
  {
    assert (pairs + [p])[..|pairs|] == pairs;
  }

  lemma NoPairs(base: nat)
    ensures PairsOf(base, []) == multiset{}
  {
  }

  lemma OnePairMore(pairs: seq<(nat, nat)>, groups: seq<Unit>, p: (nat, nat), k: nat)
    requires Grouped(pairs, groups) && k <= |groups|
    requires forall j | 0 <= j < k :: groups[j].base != p.0
    requires k < |groups| ==> groups[k].base == p.0
    ensures k < |groups| ==> Grouped(pairs + [p], groups[k := Unit(groups[k].base, groups[k].targets + [p.1])])
    ensures k == |groups| ==> Grouped(pairs + [p], groups + [Unit(p.0, [p.1])])
  {
    hide AllPairs, PairsOf, TargetsOf;
    assert multiset(pairs + [p]) == multiset(pairs) + multiset{p};
    TargetsSnoc(pairs, p);
    if k < |groups| {
      AllPairsUpdate(groups, k, p.1);
      var next := groups[k := Unit(groups[k].base, groups[k].targets + [p.1])];
      forall g | g in next ensures g.targets == TargetsOf(pairs + [p], g.base) && g.targets != [] {
        var i :| 0 <= i < |next| && next[i] == g;
        assert groups[i] in groups;
      }
    } else {
      var u := Unit(p.0, [p.1]);
      AllPairsSnoc(groups, u);
      PairsSnoc(p.0, [], p.1);
      NoPairs(p.0);
      assert [] + [p.1] == [p.1];
      NoTargets(pairs, groups, p.0);
    }
  }

  /** `pairs` holds (base, target) in plan order. */
  method Group(pairs: seq<(nat, nat)>) returns (groups: seq<Unit>)
    ensures Grouped(pairs, groups)
  {
    hide Grouped;
    groups := [];
    NoGroups();
    for i := 0 to |pairs|
      invariant Grouped(pairs[..i], groups)
    {
      var k := 0;
      while k < |groups| && groups[k].base != pairs[i].0
        invariant k <= |groups| && forall j | 0 <= j < k :: groups[j].base != pairs[i].0
      {
        k := k + 1;
      }
      OnePairMore(pairs[..i], groups, pairs[i], k);
      assert pairs[..i + 1] == pairs[..i] + [pairs[i]];
      if k < |groups| {
        groups := groups[k := Unit(groups[k].base, groups[k].targets + [pairs[i].1])];
      } else {
        groups := groups + [Unit(pairs[i].0, [pairs[i].1])];
      }
    }
    assert pairs[..|pairs|] == pairs;
  }

  // ---- units of bounded bytes

  ghost function Joined(units: seq<Unit>): seq<nat> {
    if units == [] then [] else Joined(units[..|units| - 1]) + units[|units| - 1].targets
  }

  lemma JoinedSnoc(units: seq<Unit>, u: Unit)
    ensures Joined(units + [u]) == Joined(units) + u.targets
  {
    assert (units + [u])[..|units|] == units;
  }

  /** Only a single target may exceed the cap. */
  ghost predicate Fits(size: Size, cap: nat, u: Unit) {
    u.targets != [] && (Bytes(size, u.targets) <= cap || |u.targets| == 1)
  }

  /** The pieces of one group: in order, bounded, and none cut earlier than necessary. */
  ghost predicate IsCut(size: Size, cap: nat, base: nat, targets: seq<nat>, units: seq<Unit>) {
    && Joined(units) == targets
    && (forall u | u in units :: u.base == base && Fits(size, cap, u))
    && (forall k | 0 <= k < |units| - 1 && units[k + 1].targets != [] ::
          Bytes(size, units[k].targets) + size(units[k + 1].targets[0]) > cap)
  }

  /** Finished pieces, and the piece being filled with its bytes. */
  ghost predicate Cutting(size: Size, cap: nat, base: nat, targets: seq<nat>, done: seq<Unit>, cur: seq<nat>, acc: nat)
  {
    && acc == Bytes(size, cur)
    && (cur == [] ==> done == [] && targets == [])
    && (cur == [] || IsCut(size, cap, base, targets, done + [Unit(base, cur)]))
  }

  lemma NothingJoined()
    ensures Joined([]) == []
  {
  }

  lemma CutLonger(size: Size, cap: nat, base: nat, targets: seq<nat>, done: seq<Unit>, cur: seq<nat>, t: nat)
    requires cur != [] && IsCut(size, cap, base, targets, done + [Unit(base, cur)])
    requires Bytes(size, cur) + size(t) <= cap
    ensures IsCut(size, cap, base, targets + [t], done + [Unit(base, cur + [t])])
  {
    hide Joined, Bytes;
    BytesSnoc(size, cur, t);
    JoinedSnoc(done, Unit(base, cur));
    JoinedSnoc(done, Unit(base, cur + [t]));
    assert (Joined(done) + cur) + [t] == Joined(done) + (cur + [t]);
    var was, now := done + [Unit(base, cur)], done + [Unit(base, cur + [t])];
    assert forall u | u in done :: u in was;
    forall k | 0 <= k < |now| - 1 && now[k + 1].targets != []
      ensures Bytes(size, now[k].targets) + size(now[k + 1].targets[0]) > cap
    {
      assert now[k] == was[k] && was[k + 1].targets != [] && now[k + 1].targets[0] == was[k + 1].targets[0];
    }
  }

  lemma CutHere(size: Size, cap: nat, base: nat, targets: seq<nat>, done: seq<Unit>, cur: seq<nat>, t: nat)
    requires cur != [] && IsCut(size, cap, base, targets, done + [Unit(base, cur)])
    requires Bytes(size, cur) + size(t) > cap
    ensures IsCut(size, cap, base, targets + [t], done + [Unit(base, cur)] + [Unit(base, [t])])
  {
    hide Joined, Bytes;
    JoinedSnoc(done + [Unit(base, cur)], Unit(base, [t]));
    var was := done + [Unit(base, cur)];
    var now := was + [Unit(base, [t])];
    assert forall u | u in now :: u in was || u == Unit(base, [t]);
    forall k | 0 <= k < |now| - 1 && now[k + 1].targets != []
      ensures Bytes(size, now[k].targets) + size(now[k + 1].targets[0]) > cap
    {
      if k < |was| - 1 {
        assert now[k] == was[k] && now[k + 1] == was[k + 1];
      } else {
        assert now[k] == Unit(base, cur) && now[k + 1] == Unit(base, [t]);
      }
    }
  }

  lemma CutOne(size: Size, cap: nat, base: nat, targets: seq<nat>, done: seq<Unit>, cur: seq<nat>, acc: nat, t: nat)
    requires Cutting(size, cap, base, targets, done, cur, acc)
    ensures cur != [] && acc + size(t) > cap ==>
      Cutting(size, cap, base, targets + [t], done + [Unit(base, cur)], [t], size(t))
    ensures cur == [] || acc + size(t) <= cap ==>
      Cutting(size, cap, base, targets + [t], done, cur + [t], acc + size(t))
  {
    hide Joined;
    BytesSnoc(size, cur, t);
    BytesSnoc(size, [], t);
    assert [] + [t] == [t];
    JoinedSnoc(done, Unit(base, cur));
    JoinedSnoc(done + [Unit(base, cur)], Unit(base, [t]));
    JoinedSnoc(done, Unit(base, cur + [t]));
    assert (Joined(done) + cur) + [t] == Joined(done) + (cur + [t]);
    if cur == [] {
      NothingJoined();
      assert [] + [Unit(base, [t])] == [Unit(base, [t])];
    } else if acc + size(t) <= cap {
      CutLonger(size, cap, base, targets, done, cur, t);
    } else {
      CutHere(size, cap, base, targets, done, cur, t);
    }
  }

  lemma NothingCut(size: Size, cap: nat, base: nat)
    ensures IsCut(size, cap, base, [], [])
  {
  }

  method Cut(size: Size, cap: nat, base: nat, targets: seq<nat>) returns (units: seq<Unit>)
    ensures IsCut(size, cap, base, targets, units)
  {
    hide IsCut;
    var cur: seq<nat>, acc: nat := [], 0;
    units := [];
    for i := 0 to |targets|
      invariant Cutting(size, cap, base, targets[..i], units, cur, acc)
    {
      var t := targets[i];
      CutOne(size, cap, base, targets[..i], units, cur, acc, t);
      assert targets[..i + 1] == targets[..i] + [t];
      if cur != [] && acc + size(t) > cap {
        units := units + [Unit(base, cur)];
        cur, acc := [], 0;
      }
      cur, acc := cur + [t], acc + size(t);
      assert [] + [t] == [t];
    }
    assert targets[..|targets|] == targets;
    if cur != [] {
      units := units + [Unit(base, cur)];
    } else {
      NothingCut(size, cap, base);
    }
  }

  lemma PairsJoinOne(base: nat, xs: seq<nat>, front: seq<nat>, t: nat)
    requires PairsOf(base, xs + front) == PairsOf(base, xs) + PairsOf(base, front)
    ensures PairsOf(base, xs + (front + [t])) == PairsOf(base, xs) + PairsOf(base, front + [t])
  {
    hide PairsOf;
    PairsSnoc(base, xs + front, t);
    PairsSnoc(base, front, t);
    assert xs + (front + [t]) == (xs + front) + [t];
  }

  lemma {:induction false} PairsJoin(base: nat, xs: seq<nat>, ys: seq<nat>)
    ensures PairsOf(base, xs + ys) == PairsOf(base, xs) + PairsOf(base, ys)
  {
    hide PairsOf;
    if ys == [] {
      NoPairs(base);
      assert xs + ys == xs;
    } else {
      var front, t := ys[..|ys| - 1], ys[|ys| - 1];
      PairsJoin(base, xs, front);
      PairsJoinOne(base, xs, front, t);
      assert front + [t] == ys;
    }
  }

  /** Cutting neither loses nor repeats a pair. */
  lemma {:induction false} CutPairs(base: nat, units: seq<Unit>)
    requires forall u | u in units :: u.base == base
    ensures AllPairs(units) == PairsOf(base, Joined(units))
  {
    if units != [] {
      var last := |units| - 1;
      CutPairs(base, units[..last]);
      PairsJoin(base, Joined(units[..last]), units[last].targets);
    }
  }

  /** All units of a plan: bounded, and together exactly the pairs of the plan. */
  method MakeUnits(size: Size, cap: nat, pairs: seq<(nat, nat)>) returns (units: seq<Unit>)
    ensures AllPairs(units) == multiset(pairs)
    ensures forall u | u in units :: Fits(size, cap, u)
  {
    hide AllPairs, PairsOf, Fits, Joined;
    var groups := Group(pairs);
    units := [];
    NoUnits();
    for i := 0 to |groups|
      invariant AllPairs(units) == AllPairs(groups[..i])
      invariant forall u | u in units :: Fits(size, cap, u)
    {
      var pieces := Cut(size, cap, groups[i].base, groups[i].targets);
      CutPairs(groups[i].base, pieces);
      AllPairsJoin(units, pieces);
      AllPairsSnoc(groups[..i], groups[i]);
      assert groups[..i + 1] == groups[..i] + [groups[i]];
      units := units + pieces;
    }
    assert groups[..|groups|] == groups;
  }

  // ---- dealing units to shards

  function Weight(size: Size, u: Unit): nat {
    size(u.base) + Bytes(size, u.targets)
  }

  ghost function Weights(size: Size, units: seq<Unit>): (w: seq<int>)
    ensures |w| == |units| && forall j | 0 <= j < |w| :: w[j] == Weight(size, units[j]) >= 0
  {
    seq(|units|, j requires 0 <= j < |units| => Weight(size, units[j]))
  }

  ghost function SizesOf(size: Size, targets: seq<nat>): (s: seq<int>)
    ensures |s| == |targets|
  {
    seq(|targets|, j requires 0 <= j < |targets| => size(targets[j]))
  }

  /** The sizes of everything a unit reads: its base once, and each of its targets. */
  ghost function UnitSizes(size: Size, u: Unit): seq<int> {
    [size(u.base)] + SizesOf(size, u.targets)
  }

  ghost function ShardSizes(size: Size, shard: seq<Unit>): seq<int> {
    if shard == [] then [] else ShardSizes(size, shard[..|shard| - 1]) + UnitSizes(size, shard[|shard| - 1])
  }

  lemma {:induction false} BytesAre(size: Size, targets: seq<nat>)
    ensures Bytes(size, targets) == Total(SizesOf(size, targets))
  {
    if targets != [] {
      var n := |targets| - 1;
      BytesAre(size, targets[..n]);
      assert SizesOf(size, targets)[..n] == SizesOf(size, targets[..n]);
    }
  }

  lemma {:induction false} TotalJoin(a: seq<int>, b: seq<int>)
    ensures Total(a + b) == Total(a) + Total(b)
  {
    if b == [] {
      assert a + b == a;
    } else {
      TotalJoin(a, b[..|b| - 1]);
      assert (a + b)[..|a + b| - 1] == a + b[..|b| - 1];
    }
  }

  /** A unit weighs its base, counted once, and all its targets. */
  lemma WeightIs(size: Size, u: Unit)
    ensures Weight(size, u) == Total(UnitSizes(size, u))
  {
    BytesAre(size, u.targets);
    TotalJoin([size(u.base)], SizesOf(size, u.targets));
    assert [size(u.base)][..0] == [];
  }

  lemma InsertSorted(v: seq<int>, k: nat, x: int)
    requires Descending(v) && k <= |v| && (forall j | 0 <= j < k :: v[j] >= x) && (k < |v| ==> x > v[k])
    ensures Descending(v[..k] + [x] + v[k..])
  {
    var w := v[..k] + [x] + v[k..];
    assert forall i | k < i < |w| :: w[i] == v[i - 1] && w[i] <= x;
  }

  lemma InsertPairs(xs: seq<Unit>, u: Unit, ys: seq<Unit>)
    ensures AllPairs(xs + [u] + ys) == AllPairs(xs + ys) + PairsOf(u.base, u.targets)
  {
    hide AllPairs, PairsOf;
    AllPairsJoin(xs + [u], ys);
    AllPairsSnoc(xs, u);
    AllPairsJoin(xs, ys);
  }

  /** Where `u` goes in a list sorted by falling weight: after its equals. */
  method Insert(size: Size, sorted: seq<Unit>, u: Unit) returns (r: seq<Unit>)
    requires Descending(Weights(size, sorted))
    ensures Descending(Weights(size, r)) && AllPairs(r) == AllPairs(sorted) + PairsOf(u.base, u.targets)
    ensures multiset(r) == multiset(sorted) + multiset{u}
  {
    hide AllPairs, PairsOf, Weight, Descending;
    var k := 0;
    while k < |sorted| && Weight(size, sorted[k]) >= Weight(size, u)
      invariant k <= |sorted| && forall j | 0 <= j < k :: Weight(size, sorted[j]) >= Weight(size, u)
    {
      k := k + 1;
    }
    r := sorted[..k] + [u] + sorted[k..];
    InsertPairs(sorted[..k], u, sorted[k..]);
    assert sorted == sorted[..k] + sorted[k..];
    assert forall j | 0 <= j < k :: Weights(size, sorted)[j] >= Weight(size, u);
    InsertSorted(Weights(size, sorted), k, Weight(size, u));
    assert Weights(size, r) == Weights(size, sorted)[..k] + [Weight(size, u)] + Weights(size, sorted)[k..];
  }

  /** Heaviest first; units of equal weight keep their order. */
  method SortUnits(size: Size, units: seq<Unit>) returns (sorted: seq<Unit>)
    ensures Descending(Weights(size, sorted)) && AllPairs(sorted) == AllPairs(units)
    ensures multiset(sorted) == multiset(units)
  {
    hide AllPairs, PairsOf;
    sorted := [];
    for i := 0 to |units|
      invariant Descending(Weights(size, sorted)) && AllPairs(sorted) == AllPairs(units[..i])
      invariant multiset(sorted) == multiset(units[..i])
    {
      AllPairsSnoc(units[..i], units[i]);
      assert units[..i + 1] == units[..i] + [units[i]];
      sorted := Insert(size, sorted, units[i]);
    }
    assert units[..|units|] == units;
  }

  /** The units dealt to shard `i`, in the order of the list. */
  ghost function Dealt(units: seq<Unit>, a: seq<nat>, k: nat, i: nat): seq<Unit>
    requires k <= |units| && k <= |a|
  {
    if k == 0 then [] else Dealt(units, a, k - 1, i) + if a[k - 1] == i then [units[k - 1]] else []
  }

  ghost predicate Dealing(size: Size, units: seq<Unit>, a: seq<nat>, k: nat, m: nat, shards: seq<seq<Unit>>,
                          weights: seq<nat>)
  {
    && k == |a| <= |units| && |shards| == |weights| == m
    && IsGreedy(Weights(size, units)[..k], a, m)
    && forall i | 0 <= i < m :: shards[i] == Dealt(units, a, k, i) && weights[i] == Load(Weights(size, units), a, k, i)
  }

  lemma {:induction false} LoadPrefix(w: seq<int>, v: seq<int>, a: seq<nat>, b: seq<nat>, k: nat, i: nat)
    requires k <= |w| && k <= |v| && k <= |a| && k <= |b|
    requires forall j | 0 <= j < k :: w[j] == v[j] && a[j] == b[j]
    ensures Load(w, a, k, i) == Load(v, b, k, i)
  {
    if k > 0 {
      LoadPrefix(w, v, a, b, k - 1, i);
    }
  }

  lemma {:induction false} DealtPrefix(units: seq<Unit>, a: seq<nat>, b: seq<nat>, k: nat, i: nat)
    requires k <= |units| && k <= |a| && k <= |b| && forall j | 0 <= j < k :: a[j] == b[j]
    ensures Dealt(units, a, k, i) == Dealt(units, b, k, i)
  {
    if k > 0 {
      DealtPrefix(units, a, b, k - 1, i);
    }
  }

  lemma LeastPrefix(w: seq<int>, v: seq<int>, a: seq<nat>, b: seq<nat>, m: nat, j: nat)
    requires j < |a| && j < |b| && j < |w| && j < |v| && a[j] == b[j] && IsLeast(w, a, m, j)
    requires forall l | 0 <= l < j :: w[l] == v[l] && a[l] == b[l]
    ensures IsLeast(v, b, m, j)
  {
    hide Load;
    LoadPrefix(w, v, a, b, j, a[j]);
    forall r | 0 <= r < m ensures Load(v, b, j, b[j]) <= Load(v, b, j, r) {
      LoadPrefix(w, v, a, b, j, r);
    }
  }

  lemma LastIsLeast(w: seq<int>, v: seq<int>, a: seq<nat>, b: seq<nat>, m: nat, i: nat)
    requires |a| < |w| && |a| < |v| && |b| == |a| + 1 && b[|a|] == i < m
    requires forall l | 0 <= l < |a| :: w[l] == v[l] && a[l] == b[l]
    requires forall r | 0 <= r < m :: Load(w, a, |a|, i) <= Load(w, a, |a|, r)
    ensures IsLeast(v, b, m, |a|)
  {
    hide Load;
    LoadPrefix(w, v, a, b, |a|, i);
    forall r | 0 <= r < m ensures Load(v, b, |a|, i) <= Load(v, b, |a|, r) {
      LoadPrefix(w, v, a, b, |a|, r);
    }
  }

  lemma GreedySnoc(u: seq<int>, v: seq<int>, a: seq<nat>, b: seq<nat>, m: nat)
    requires |v| == |b| == |a| + 1 && IsGreedy(u, a, m)
    requires forall l | 0 <= l < |a| :: u[l] == v[l] && a[l] == b[l]
    requires v[|a|] >= 0 && b[|a|] < m && IsLeast(v, b, m, |a|)
    ensures IsGreedy(v, b, m)
  {
    hide Load, IsLeast;
    forall j | 0 <= j < |a| ensures IsLeast(v, b, m, j) {
      LeastPrefix(u, v, a, b, m, j);
    }
  }

  lemma GreedyStep(w: seq<int>, a: seq<nat>, m: nat, i: nat)
    requires |a| < |w| && IsGreedy(w[..|a|], a, m) && i < m && w[|a|] >= 0
    requires forall r | 0 <= r < m :: Load(w, a, |a|, i) <= Load(w, a, |a|, r)
    ensures IsGreedy(w[..|a| + 1], a + [i], m)
  {
    hide IsGreedy, IsLeast;
    LastIsLeast(w, w[..|a| + 1], a, a + [i], m, i);
    GreedySnoc(w[..|a|], w[..|a| + 1], a, a + [i], m);
  }

  lemma DealOne(size: Size, units: seq<Unit>, a: seq<nat>, m: nat, shards: seq<seq<Unit>>, weights: seq<nat>, i: nat)
    requires Dealing(size, units, a, |a|, m, shards, weights) && |a| < |units| && i < m
    requires forall r | 0 <= r < m :: weights[i] <= weights[r]
    ensures Dealing(size, units, a + [i], |a| + 1, m, shards[i := shards[i] + [units[|a|]]],
                    weights[i := weights[i] + Weight(size, units[|a|])])
  {
    hide IsGreedy, Weight;
    var w, k, b := Weights(size, units), |a|, a + [i];
    GreedyStep(w, a, m, i);
    forall r | 0 <= r < m
      ensures Load(w, b, k, r) == Load(w, a, k, r) && Dealt(units, b, k, r) == Dealt(units, a, k, r)
    {
      LoadPrefix(w, w, b, a, k, r);
      DealtPrefix(units, b, a, k, r);
    }
    assert b[k] == i;
  }

  lemma StartDealing(size: Size, units: seq<Unit>, m: nat)
    ensures Dealing(size, units, [], 0, m, seq(m, i => []), seq(m, i => 0))
  {
  }

  method Lightest(weights: seq<nat>) returns (i: nat)
    requires weights != []
    ensures i < |weights| && forall r | 0 <= r < |weights| :: weights[i] <= weights[r]
    ensures forall r | 0 <= r < i :: weights[i] < weights[r]
  {
    i := 0;
    for r := 1 to |weights|
      invariant i < r && forall s | 0 <= s < r :: weights[i] <= weights[s]
      invariant forall s | 0 <= s < i :: weights[i] < weights[s]
    {
      if weights[r] < weights[i] {
        i := r;
      }
    }
  }

  /** Each unit goes to the shard with the least weight so far. */
  method Deal(size: Size, units: seq<Unit>, m: nat)
    returns (shards: seq<seq<Unit>>, weights: seq<nat>, ghost a: seq<nat>)
    requires m >= 1
    ensures Dealing(size, units, a, |units|, m, shards, weights)
  {
    hide Dealing;
    shards, weights, a := seq(m, i => []), seq(m, i => 0), [];
    StartDealing(size, units, m);
    for k := 0 to |units|
      invariant |a| == k && |shards| == |weights| == m
      invariant Dealing(size, units, a, k, m, shards, weights)
    {
      var i := Lightest(weights);
      DealOne(size, units, a, m, shards, weights, i);
      shards, weights := shards[i := shards[i] + [units[k]]], weights[i := weights[i] + Weight(size, units[k])];
      a := a + [i];
    }
  }

  // ---- the whole plan

  ghost function ShardPairs(shards: seq<seq<Unit>>): multiset<(nat, nat)> {
    if shards == [] then multiset{} else ShardPairs(shards[..|shards| - 1]) + AllPairs(shards[|shards| - 1])
  }

  ghost function DealtShards(units: seq<Unit>, a: seq<nat>, k: nat, m: nat): (s: seq<seq<Unit>>)
    requires k <= |units| && k <= |a|
    ensures |s| == m && forall i | 0 <= i < m :: s[i] == Dealt(units, a, k, i)
  {
    seq(m, i requires 0 <= i < m => Dealt(units, a, k, i))
  }

  lemma {:induction false} ShardPairsUpdate(shards: seq<seq<Unit>>, i: nat, u: Unit)
    requires i < |shards|
    ensures ShardPairs(shards[i := shards[i] + [u]]) == ShardPairs(shards) + PairsOf(u.base, u.targets)
  {
    hide AllPairs, PairsOf;
    var last := |shards| - 1;
    AllPairsSnoc(shards[i], u);
    if i == last {
      assert shards[i := shards[i] + [u]][..last] == shards[..last];
    } else {
      ShardPairsUpdate(shards[..last], i, u);
      assert shards[i := shards[i] + [u]][..last] == shards[..last][i := shards[i] + [u]];
    }
  }

  lemma {:induction false} NothingDealt(shards: seq<seq<Unit>>)
    requires forall i | 0 <= i < |shards| :: shards[i] == []
    ensures ShardPairs(shards) == multiset{}
  {
    if shards != [] {
      NothingDealt(shards[..|shards| - 1]);
    }
  }

  /** Dealing neither loses nor repeats a pair. */
  lemma {:induction false} DealtPairs(units: seq<Unit>, a: seq<nat>, k: nat, m: nat)
    requires k <= |units| && k <= |a| && forall j | 0 <= j < k :: a[j] < m
    ensures ShardPairs(DealtShards(units, a, k, m)) == AllPairs(units[..k])
  {
    hide AllPairs, PairsOf, ShardPairs;
    if k == 0 {
      NothingDealt(DealtShards(units, a, 0, m));
      NoUnits();
    } else {
      DealtPairs(units, a, k - 1, m);
      var s, u := DealtShards(units, a, k - 1, m), units[k - 1];
      var next := DealtShards(units, a, k, m);
      forall i | 0 <= i < m ensures next[i] == s[a[k - 1] := s[a[k - 1]] + [u]][i] {
        assert next[i] == Dealt(units, a, k, i);
        assert s[i] + [] == s[i];
      }
      assert next == s[a[k - 1] := s[a[k - 1]] + [u]];
      ShardPairsUpdate(s, a[k - 1], u);
      AllPairsSnoc(units[..k - 1], u);
      assert units[..k] == units[..k - 1] + [u];
    }
  }

  lemma DealtAll(size: Size, units: seq<Unit>, a: seq<nat>, m: nat, shards: seq<seq<Unit>>, weights: seq<nat>)
    requires Dealing(size, units, a, |units|, m, shards, weights)
    ensures |a| == |units| && |shards| == |weights| == m && IsGreedy(Weights(size, units), a, m)
    ensures ShardPairs(shards) == AllPairs(units)
    ensures forall i | 0 <= i < m ::
      shards[i] == Dealt(units, a, |units|, i) && weights[i] == Load(Weights(size, units), a, |units|, i)
  {
    hide AllPairs, ShardPairs;
    var w := Weights(size, units);
    assert w[..|units|] == w && units[..|units|] == units;
    DealtPairs(units, a, |units|, m);
    assert DealtShards(units, a, |units|, m) == shards;
  }

  /** What a shard carries is what its units read. */
  lemma {:induction false} LoadIsBytes(size: Size, units: seq<Unit>, a: seq<nat>, k: nat, i: nat)
    requires k <= |units| && k <= |a|
    ensures Load(Weights(size, units), a, k, i) == Total(ShardSizes(size, Dealt(units, a, k, i)))
  {
    if k > 0 {
      LoadIsBytes(size, units, a, k - 1, i);
      var was, u := Dealt(units, a, k - 1, i), units[k - 1];
      assert was + [] == was;
      if a[k - 1] == i {
        WeightIs(size, u);
        TotalJoin(ShardSizes(size, was), UnitSizes(size, u));
        assert (was + [u])[..|was|] == was;
        hide UnitSizes, Weight;
      }
    }
  }

  /** The executor's work list. Every pair of the plan is in exactly one unit of one shard; a
      unit exceeds the cap only when it holds a single target; no shard is heavier than the
      average plus (m - 1)/m of the heaviest unit, nor heavier than 4/3 - 1/(3m) times the
      heaviest shard of any other way to deal the same units. */
  method BuildShards(size: Size, cap: nat, pairs: seq<(nat, nat)>, m: nat)
    returns (shards: seq<seq<Unit>>, weights: seq<nat>, ghost units: seq<Unit>, ghost a: seq<nat>)
    requires m >= 1
    ensures |shards| == |weights| == m
    ensures ShardPairs(shards) == multiset(pairs)
    ensures Descending(Weights(size, units)) && forall u | u in units :: Fits(size, cap, u)
    ensures |a| == |units| && forall i | 0 <= i < m ::
      shards[i] == Dealt(units, a, |units|, i) && weights[i] == Load(Weights(size, units), a, |units|, i)
    ensures forall i | 0 <= i < m :: weights[i] == Total(ShardSizes(size, shards[i]))
    ensures forall i | 0 <= i < m ::
      m * weights[i] <= Total(Weights(size, units)) + (m - 1) * Max(Weights(size, units))
    ensures forall i, f, best: int | 0 <= i < m && Within(Weights(size, units), f, m, best) ::
      3 * m * weights[i] <= (4 * m - 1) * best
  {
    hide AllPairs, PairsOf, ShardPairs, Fits, Dealing, Descending, Weight, IsGreedy, Within;
    var made := MakeUnits(size, cap, pairs);
    var sorted := SortUnits(size, made);
    forall u | u in sorted ensures Fits(size, cap, u) {
      assert u in multiset(sorted);
    }
    shards, weights, a := Deal(size, sorted, m);
    units := sorted;
    DealtAll(size, units, a, m, shards, weights);
    forall i | 0 <= i < m ensures weights[i] == Total(ShardSizes(size, shards[i])) {
      LoadIsBytes(size, units, a, |units|, i);
    }
    forall i | 0 <= i < m
      ensures m * weights[i] <= Total(Weights(size, units)) + (m - 1) * Max(Weights(size, units))
    {
      GreedyBound(Weights(size, units), a, m, i, Max(Weights(size, units)));
    }
    forall i, f, best: int | 0 <= i < m && Within(Weights(size, units), f, m, best)
      ensures 3 * m * weights[i] <= (4 * m - 1) * best
    {
      HeaviestFirstBound(Weights(size, units), a, m, f, best, i);
    }
  }
}
