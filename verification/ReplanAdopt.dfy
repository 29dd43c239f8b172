/** Adoption of a published plan onto the tensors that physically exist, and the fallback to
    the planner's own pairs for the tensors it leaves without a role. */
module ReplanAdopt {
  import opened Sequences
  import opened ConflictResolution
  import AttachPlanner

  /** A row of the published plan: base, input bytes, measured output bytes, predicted ratio. */
  datatype Row = Row(tid: Tid, base: Tid, bytesIn: int, bytesOut: int, predicted: real)

  datatype Provenance = Paper(ratio: real) | V1

  /** The ratio the published row promises. */
  function EstimatedRatio(r: Row): real
    requires r.bytesIn > 0
  {
    if r.bytesOut > 0 then r.bytesOut as real / r.bytesIn as real
    else if 0.0 <= r.predicted <= 1.0 then r.predicted
    else 0.35
  }

  function Gain(size: int, r: Row): real
    requires r.bytesIn > 0
  {
    var g := size as real * (1.0 - EstimatedRatio(r));
    if g > 0.0 then g else 0.0
  }

  function AsPair(size: int, r: Row): Pair<Provenance>
    requires r.bytesIn > 0
  {
    Pair(r.tid, r.base, Gain(size, r),
         Paper(if r.bytesOut > 0 then r.bytesOut as real / r.bytesIn as real else -1.0))
  }

  /** What a published row promises of a tensor of `size` bytes: the measured ratio, else the
      predicted one if it is one, else 0.35; and the bytes that ratio saves, if any. */
  ghost predicate Published(size: int, r: Row, x: Pair<Provenance>) {
    && x.tid == r.tid && x.base == r.base && x.gain >= 0.0
    && (if r.bytesOut > 0 then
          && (if r.bytesOut < r.bytesIn && size > 0
              then x.gain * r.bytesIn as real == size as real * (r.bytesIn - r.bytesOut) as real
              else size >= 0 ==> x.gain == 0.0)
          && x.payload.Paper? && x.payload.ratio * r.bytesIn as real == r.bytesOut as real
        else
          && (if 0.0 <= r.predicted <= 1.0
              then size >= 0 ==> x.gain == size as real * (1.0 - r.predicted)
              else size >= 0 ==> x.gain == size as real * 65.0 / 100.0)
          && x.payload == Paper(-1.0))
  }

  lemma GainIsNotNegative(size: int, r: Row)
    requires r.bytesIn > 0
    ensures Gain(size, r) >= 0.0
  {
    hide EstimatedRatio;
  }

  lemma SavedPart(size: real, part: real)
    requires 0.0 <= part
    ensures size >= 0.0 ==> size * part >= 0.0
  {
  }

  lemma PredictedGain(size: int, r: Row)
    requires r.bytesIn > 0 && r.bytesOut <= 0 && size >= 0
    ensures Gain(size, r)
      == if 0.0 <= r.predicted <= 1.0 then size as real * (1.0 - r.predicted) else size as real * 65.0 / 100.0
  {
    SavedPart(size as real, 1.0 - EstimatedRatio(r));
  }

  lemma GainOfRatio(size: real, q: real, n: real, m: real)
    requires n > 0.0 && q * n == m
    ensures size * (1.0 - q) * n == size * (n - m)
    ensures size >= 0.0 && m >= n ==> size * (1.0 - q) <= 0.0
    ensures size > 0.0 && m < n ==> size * (1.0 - q) > 0.0
  {
    assert size * (1.0 - q) * n == size * ((1.0 - q) * n);
    assert (1.0 - q) * n == n - m;
    if m >= n {
      assert (q - 1.0) * n >= 0.0;
      assert q >= 1.0;
    } else {
      assert (1.0 - q) * n > 0.0;
      assert q < 1.0;
    }
  }

  lemma MeasuredGain(size: int, r: Row)
    requires r.bytesIn > 0 && r.bytesOut > 0
    ensures EstimatedRatio(r) * r.bytesIn as real == r.bytesOut as real
    ensures r.bytesOut < r.bytesIn && size > 0 ==>
      Gain(size, r) * r.bytesIn as real == size as real * (r.bytesIn - r.bytesOut) as real
    ensures !(r.bytesOut < r.bytesIn && size > 0) && size >= 0 ==> Gain(size, r) == 0.0
  {
    var q, n, m := r.bytesOut as real / r.bytesIn as real, r.bytesIn as real, r.bytesOut as real;
    assert q * n == m;
    GainOfRatio(size as real, q, n, m);
  }

  lemma PairIsPublished(size: int, r: Row)
    requires r.bytesIn > 0
    ensures Published(size, r, AsPair(size, r))
  {
    GainIsNotNegative(size, r);
    hide Gain, EstimatedRatio;
    if r.bytesOut > 0 {
      MeasuredGain(size, r);
      assert r.bytesOut as real / r.bytesIn as real * r.bytesIn as real == r.bytesOut as real;
    } else if size >= 0 {
      PredictedGain(size, r);
    }
  }

  ghost predicate IsRows(rows: seq<Row>) {
    && (forall i, j | 0 <= i < j < |rows| :: rows[i].tid != rows[j].tid)
    && forall r | r in rows :: r.bytesIn > 0
  }

  lemma PairOfRow(sizes: map<Tid, int>, phys: set<Tid>, r: Row)
    requires r.bytesIn > 0
    ensures r.tid in sizes ==> AsPair(sizes[r.tid], r).tid == r.tid && AsPair(sizes[r.tid], r).base == r.base
  {
  }

  /** The published pairs whose two tensors both exist. */
  method Candidates(rows: seq<Row>, sizes: map<Tid, int>, phys: set<Tid>) returns (plan: seq<Pair<Provenance>>)
    requires IsRows(rows) && forall t | t in phys :: t in sizes
    ensures IsPlan(plan)
    ensures forall x | x in plan :: x.tid in phys && x.base in phys
    ensures forall x :: x in plan <==>
      exists r | r in rows :: r.tid in phys && r.base in phys && x == AsPair(sizes[r.tid], r)
    ensures forall x | x in plan :: exists r | r in rows :: Published(sizes[x.tid], r, x)
    ensures forall r | r in rows && r.tid in phys && r.base in phys :: exists x | x in plan ::
      Published(sizes[x.tid], r, x)
  {
    hide AsPair, Published;
    plan := [];
    for i := 0 to |rows|
      invariant forall x | x in plan :: x.tid in phys && x.base in phys && exists k | 0 <= k < i :: rows[k].tid == x.tid
      invariant IsPlan(plan)
      invariant forall x :: x in plan <==>
        exists k | 0 <= k < i :: rows[k].tid in phys && rows[k].base in phys && x == AsPair(sizes[rows[k].tid], rows[k])
    {
      var r := rows[i];
      assert r in rows;
      PairOfRow(sizes, phys, r);
      if r.tid in phys && r.base in phys {
        plan := plan + [AsPair(sizes[r.tid], r)];
      }
    }
    assert forall r :: r in rows <==> exists k :: 0 <= k < |rows| && rows[k] == r;
    forall r | r in rows && r.tid in phys && r.base in phys
      ensures AsPair(sizes[r.tid], r) in plan && AsPair(sizes[r.tid], r).tid == r.tid
      ensures Published(sizes[r.tid], r, AsPair(sizes[r.tid], r))
    {
      PairOfRow(sizes, phys, r);
      PairIsPublished(sizes[r.tid], r);
    }
  }

  /** Targets are exactly the tensors with a pair, and every pair's base has a role. */
  ghost predicate Roled(phys: set<Tid>, final: map<Tid, Pair<Provenance>>, roles: map<Tid, Role>) {
    && (forall t | t in roles :: t in phys && (roles[t] == Target <==> t in final))
    && (forall t | t in final :: t in roles && final[t].tid == t && final[t].base in roles)
  }

  /** No base of a pair is the target of another pair. */
  ghost predicate OnlySelf(final: map<Tid, Pair<Provenance>>) {
    forall t | t in final && final[t].base in final :: final[t].base == t
  }

  /** Tensors that have a role before the fallback starts. */
  ghost predicate RoleTaken(plan: seq<Pair<Provenance>>, t: Tid) {
    HasTarget(plan, t) || exists x | x in plan && IsKept(plan, x) :: x.base == t
  }

  /** Every tensor that is its own fallback partner has a role from the published plan. */
  ghost predicate SelfPairsTaken(plan: seq<Pair<Provenance>>, phys: set<Tid>, v1: map<Tid, Tid>) {
    forall t | t in phys && t in v1 && v1[t] == t :: RoleTaken(plan, t)
  }

  lemma AdoptedRoles(plan: seq<Pair<Provenance>>, phys: set<Tid>, final: map<Tid, Pair<Provenance>>,
                     roles: map<Tid, Role>)
    requires RolesFit(plan, |plan|, final, roles) && forall x | x in plan :: x.tid in phys && x.base in phys
    ensures Roled(phys, final, roles)
  {
    assert plan[..|plan|] == plan;
    forall t | t in roles ensures t in phys {
      if x :| x in plan && x.tid == t {
      } else {
        var u :| u in final && final[u].base == t;
      }
    }
    forall t | t in final ensures t in roles && final[t].base in roles {
      assert HasTarget(plan, t);
    }
  }

  datatype Assignment = Assignment(final: map<Tid, Pair<Provenance>>, roles: map<Tid, Role>)

  ghost function Paired(v1: map<Tid, Tid>, a: Assignment, t: Tid): Assignment
    requires t in v1
  {
    var asTarget := a.roles[t := Target];
    Assignment(a.final[t := Pair(t, v1[t], 0.0, V1)], if v1[t] in asTarget then asTarget else asTarget[v1[t] := Base])
  }

  /** What the fallback does for one tensor. */
  ghost function Turn(phys: set<Tid>, v1: map<Tid, Tid>, a: Assignment, t: Tid): Assignment {
    if t in a.roles then a
    else if t in v1 && v1[t] in phys && (v1[t] !in a.roles || a.roles[v1[t]] == Base) &&
      v1[t] !in a.final then Paired(v1, a, t)
    else a.(roles := a.roles[t := Base])
  }

  /** The fallback over all tensors in one order. */
  ghost function Turns(phys: set<Tid>, v1: map<Tid, Tid>, a: Assignment, order: seq<Tid>): Assignment {
    if order == [] then a
    else Turn(phys, v1, Turns(phys, v1, a, order[..|order| - 1]), order[|order| - 1])
  }

  lemma FallbackKeeps(phys: set<Tid>, v1: map<Tid, Tid>, a: Assignment, t: Tid)
    requires Roled(phys, a.final, a.roles) && OnlySelf(a.final)
    requires t in phys && t !in a.roles && t in v1 && v1[t] in phys && v1[t] !in a.final
    ensures var r := Paired(v1, a, t);
      Roled(phys, r.final, r.roles) && OnlySelf(r.final) && (t != v1[t] && DepthOne(a.final) ==> DepthOne(r.final))
  {
    forall u | u in a.final ensures a.final[u].base != t {
      assert a.final[u].base in a.roles;
    }
    assert t !in a.final;
  }

  /** Where every pair comes from: a published pair that conflict resolution keeps, or the
      fallback partner of a tensor the published plan gives no pair. */
  ghost predicate Sourced(plan: seq<Pair<Provenance>>, phys: set<Tid>, v1: map<Tid, Tid>,
                          final: map<Tid, Pair<Provenance>>)
  {
    forall t | t in final ::
      || (final[t] in plan && IsKept(plan, final[t]))
      || (t in v1 && v1[t] in phys && !HasTarget(plan, t) && final[t] == Pair(t, v1[t], 0.0, V1))
  }

  ghost predicate IsBaseOf(final: map<Tid, Pair<Provenance>>, t: Tid) {
    exists u | u in final :: final[u].base == t
  }

  /** Why a tensor has no pair: its published pair gave way, it is the base of another, or its
      fallback partner is missing or is stored as a delta itself. */
  ghost predicate NoneMissed(plan: seq<Pair<Provenance>>, phys: set<Tid>, v1: map<Tid, Tid>,
                             final: map<Tid, Pair<Provenance>>,
                             roles: map<Tid, Role>)
  {
    && (forall x | x in plan && IsKept(plan, x) :: x.tid in final && final[x.tid] == x)
    && forall t | t in roles && t !in final ::
      HasTarget(plan, t) || IsBaseOf(final, t) || t !in v1 || v1[t] !in phys || v1[t] in final
  }

  lemma AdoptedSources(plan: seq<Pair<Provenance>>, phys: set<Tid>, v1: map<Tid, Tid>,
                       final: map<Tid, Pair<Provenance>>,
                       roles: map<Tid, Role>)
    requires RolesFit(plan, |plan|, final, roles)
    ensures Sourced(plan, phys, v1, final) && NoneMissed(plan, phys, v1, final, roles)
    ensures forall t | HasTarget(plan, t) :: t in roles
  {
    hide IsKept;
    assert plan[..|plan|] == plan;
    forall t | t in roles && t !in final ensures HasTarget(plan, t) || IsBaseOf(final, t) {
      assert HasTarget(plan[..|plan|], t) || exists u | u in final :: final[u].base == t;
    }
  }

  lemma BasesRemain(v1: map<Tid, Tid>, a: Assignment, t: Tid)
    requires t !in a.final && t in v1
    ensures var r := Paired(v1, a, t);
      IsBaseOf(r.final, v1[t]) && forall u | IsBaseOf(a.final, u) :: IsBaseOf(r.final, u)
  {
    var r := Paired(v1, a, t);
    forall u | IsBaseOf(a.final, u) ensures IsBaseOf(r.final, u) {
      var w :| w in a.final && a.final[w].base == u;
      assert r.final[w].base == u;
    }
    assert r.final[t].base == v1[t];
    assert IsBaseOf(r.final, v1[t]);
  }

  lemma FallbackSourced(plan: seq<Pair<Provenance>>, phys: set<Tid>, v1: map<Tid, Tid>, a: Assignment, t: Tid)
    requires Sourced(plan, phys, v1, a.final) && t !in a.final && !HasTarget(plan, t) && t in v1 && v1[t] in phys
    ensures Sourced(plan, phys, v1, Paired(v1, a, t).final)
  {
    hide IsKept, HasTarget;
  }

  lemma FallbackMissesNone(plan: seq<Pair<Provenance>>, phys: set<Tid>, v1: map<Tid, Tid>, a: Assignment, t: Tid)
    requires NoneMissed(plan, phys, v1, a.final, a.roles) && t !in a.final && !HasTarget(plan, t) && t in v1
    ensures NoneMissed(plan, phys, v1, Paired(v1, a, t).final, Paired(v1, a, t).roles)
  {
    BasesRemain(v1, a, t);
    hide IsKept, IsBaseOf;
  }

  lemma FallbackSources(plan: seq<Pair<Provenance>>, phys: set<Tid>, v1: map<Tid, Tid>, a: Assignment, t: Tid)
    requires Sourced(plan, phys, v1, a.final) && NoneMissed(plan, phys, v1, a.final, a.roles) &&
      Roled(phys, a.final, a.roles)
    requires t !in a.roles && !HasTarget(plan, t) && t in v1 && v1[t] in phys
    ensures var r := Paired(v1, a, t);
      Sourced(plan, phys, v1, r.final) && NoneMissed(plan, phys, v1, r.final, r.roles)
  {
    hide Sourced, NoneMissed, HasTarget;
    assert t !in a.final;
    FallbackSourced(plan, phys, v1, a, t);
    FallbackMissesNone(plan, phys, v1, a, t);
  }

  /** A pair of a tensor with itself comes from the fallback. */
  ghost predicate SelfPairsExplained(plan: seq<Pair<Provenance>>, phys: set<Tid>, v1: map<Tid, Tid>,
                                     final: map<Tid, Pair<Provenance>>)
  {
    forall t | t in final && final[t].base == t :: t in phys && t in v1 && v1[t] == t && !RoleTaken(plan, t)
  }

  /** What holds after the first phase and through the second. */
  ghost predicate Adopting(plan: seq<Pair<Provenance>>, phys: set<Tid>, v1: map<Tid, Tid>, a: Assignment) {
    && Roled(phys, a.final, a.roles) && OnlySelf(a.final) && SelfPairsExplained(plan, phys, v1, a.final)
    && Sourced(plan, phys, v1, a.final) && NoneMissed(plan, phys, v1, a.final, a.roles)
    && forall t | RoleTaken(plan, t) :: t in a.roles
  }

  lemma AdoptingStarts(plan: seq<Pair<Provenance>>, phys: set<Tid>, v1: map<Tid, Tid>, a: Assignment)
    requires RolesFit(plan, |plan|, a.final, a.roles) && forall x | x in plan :: x.tid in phys && x.base in phys
    ensures Adopting(plan, phys, v1, a) && DepthOne(a.final)
  {
    AdoptedRoles(plan, phys, a.final, a.roles);
    AdoptedSources(plan, phys, v1, a.final, a.roles);
    FitIsDepthOne(plan, a.final, a.roles);
    assert plan[..|plan|] == plan;
    forall x | x in plan && IsKept(plan, x) ensures x.base in a.roles {
      assert a.final[x.tid].base == x.base;
    }
    hide IsKept;
  }

  lemma PairedKeeps(plan: seq<Pair<Provenance>>, phys: set<Tid>, v1: map<Tid, Tid>, a: Assignment, t: Tid)
    requires Adopting(plan, phys, v1, a) && t in phys && t !in a.roles
    requires t in v1 && v1[t] in phys && v1[t] !in a.final
    ensures Adopting(plan, phys, v1, Paired(v1, a, t))
  {
    assert !RoleTaken(plan, t);
    FallbackKeeps(phys, v1, a, t);
    FallbackSources(plan, phys, v1, a, t);
    hide Sourced, NoneMissed, RoleTaken, Roled, OnlySelf;
  }

  lemma BaseStaysRoled(phys: set<Tid>, a: Assignment, t: Tid)
    requires Roled(phys, a.final, a.roles) && t in phys && t !in a.roles
    ensures Roled(phys, a.final, a.roles[t := Base])
    ensures forall u | u in a.roles && a.roles[u] == Target :: u in a.final
  {
  }

  lemma StaysBase(plan: seq<Pair<Provenance>>, phys: set<Tid>, v1: map<Tid, Tid>, final: map<Tid, Pair<Provenance>>,
                  roles: map<Tid, Role>, t: Tid)
    requires NoneMissed(plan, phys, v1, final, roles)
    requires forall u | u in roles && roles[u] == Target :: u in final
    ensures t !in v1 || v1[t] !in phys || v1[t] in final || (v1[t] in roles && roles[v1[t]] == Target) ==>
      NoneMissed(plan, phys, v1, final, roles[t := Base])
  {
    hide IsKept, HasTarget, IsBaseOf;
  }

  lemma BasedKeeps(plan: seq<Pair<Provenance>>, phys: set<Tid>, v1: map<Tid, Tid>, a: Assignment, t: Tid)
    requires Adopting(plan, phys, v1, a) && t in phys && t !in a.roles
    requires t !in v1 || v1[t] !in phys || v1[t] in a.final || (v1[t] in a.roles && a.roles[v1[t]] == Target)
    ensures Adopting(plan, phys, v1, a.(roles := a.roles[t := Base]))
  {
    BaseStaysRoled(phys, a, t);
    StaysBase(plan, phys, v1, a.final, a.roles, t);
    hide Sourced, NoneMissed, RoleTaken, OnlySelf, SelfPairsExplained, Roled;
  }

  lemma TurnKeeps(plan: seq<Pair<Provenance>>, phys: set<Tid>, v1: map<Tid, Tid>, a: Assignment, t: Tid)
    requires Adopting(plan, phys, v1, a) && t in phys
    ensures Adopting(plan, phys, v1, Turn(phys, v1, a, t))
    ensures a.roles.Keys <= Turn(phys, v1, a, t).roles.Keys && t in Turn(phys, v1, a, t).roles
  {
    hide Adopting;
    if t in a.roles {
    } else if t in v1 && v1[t] in phys && (v1[t] !in a.roles || a.roles[v1[t]] == Base) && v1[t] !in a.final {
      PairedKeeps(plan, phys, v1, a, t);
    } else {
      BasedKeeps(plan, phys, v1, a, t);
    }
  }

  lemma {:induction false} TurnsKeep(plan: seq<Pair<Provenance>>, phys: set<Tid>, v1: map<Tid, Tid>, a: Assignment,
                                     order: seq<Tid>)
    requires Adopting(plan, phys, v1, a) && forall t | t in order :: t in phys
    ensures Adopting(plan, phys, v1, Turns(phys, v1, a, order))
  {
    if order != [] {
      hide Adopting, Turn;
      TurnsKeep(plan, phys, v1, a, order[..|order| - 1]);
      TurnKeeps(plan, phys, v1, Turns(phys, v1, a, order[..|order| - 1]), order[|order| - 1]);
    }
  }

  /** The fallback for one physical tensor without a role. */
  method Fallback(phys: set<Tid>, v1: map<Tid, Tid>, final0: map<Tid, Pair<Provenance>>, roles0: map<Tid, Role>, t: Tid)
    returns (final: map<Tid, Pair<Provenance>>, roles: map<Tid, Role>)
    requires t !in roles0
    ensures Assignment(final, roles) == Turn(phys, v1, Assignment(final0, roles0), t)
  {
    final, roles := final0, roles0;
    if t !in v1 {
      roles := roles[t := Base];
      return;
    }
    var b := v1[t];
    if b in phys && (b !in roles || roles[b] == Base) && b !in final {
      final := final[t := Pair(t, b, 0.0, V1)];
      roles := roles[t := Target];
      if b !in roles {
        roles := roles[b := Base];
      }
    } else {
      roles := roles[t := Base];
    }
  }

  lemma AdoptedDepth(plan: seq<Pair<Provenance>>, phys: set<Tid>, v1: map<Tid, Tid>, a: Assignment)
    requires Adopting(plan, phys, v1, a)
    ensures DepthOne(a.final) <==> forall t | t in a.final :: a.final[t].base != t
    ensures SelfPairsTaken(plan, phys, v1) ==> DepthOne(a.final)
  {
    hide Sourced, NoneMissed, Roled, RoleTaken;
  }

  lemma NoTurn(phys: set<Tid>, v1: map<Tid, Tid>, a: Assignment, t: Tid)
    requires t in a.roles
    ensures Turn(phys, v1, a, t) == a
  {
  }

  /** The fallback for all tensors, in the order in which they come. */
  method FallbackAll(phys: seq<Tid>, v1: map<Tid, Tid>, final0: map<Tid, Pair<Provenance>>, roles0: map<Tid, Role>,
                     ghost plan: seq<Pair<Provenance>>)
    returns (final: map<Tid, Pair<Provenance>>, roles: map<Tid, Role>)
    requires Adopting(plan, SetOf(phys), v1, Assignment(final0, roles0))
    ensures Adopting(plan, SetOf(phys), v1, Assignment(final, roles))
    ensures Assignment(final, roles) == Turns(SetOf(phys), v1, Assignment(final0, roles0), phys)
    ensures forall t | t in phys :: t in roles
  {
    hide Adopting, Turn;
    var all := set t | t in phys;
    assert all == SetOf(phys);
    ghost var start := Assignment(final0, roles0);
    final, roles := final0, roles0;
    assert phys[..0] == [];
    for i := 0 to |phys|
      invariant Adopting(plan, all, v1, Assignment(final, roles))
      invariant Assignment(final, roles) == Turns(all, v1, start, phys[..i])
      invariant forall k | 0 <= k < i :: phys[k] in roles
    {
      assert phys[i] in all;
      assert phys[..i + 1][..i] == phys[..i];
      TurnKeeps(plan, all, v1, Assignment(final, roles), phys[i]);
      if phys[i] in roles {
        NoTurn(all, v1, Assignment(final, roles), phys[i]);
        continue;
      }
      final, roles := Fallback(all, v1, final, roles, phys[i]);
    }
    assert phys[..|phys|] == phys;
  }

  /** Both phases. Whatever the order in which the physical tensors are gone through: each gets
      a role, targets are exactly those with a pair, and no pair's base is another pair's
      target. All pairs are one delta deep if no pair joins a tensor to itself, and no tensor
      without a published role being its own fallback partner is enough for that. */
  method Adopt(rows: seq<Row>, sizes: map<Tid, int>, phys: seq<Tid>, v1: map<Tid, Tid>)
    returns (final: map<Tid, Pair<Provenance>>, roles: map<Tid, Role>,
             ghost plan: seq<Pair<Provenance>>, ghost start: Assignment)
    requires IsRows(rows) && forall t | t in phys :: t in sizes
    ensures IsPlan(plan) && forall x :: x in plan <==>
      exists r | r in rows :: r.tid in phys && r.base in phys && x == AsPair(sizes[r.tid], r)
    ensures RolesFit(plan, |plan|, start.final, start.roles)
    ensures Assignment(final, roles) == Turns(SetOf(phys), v1, start, phys)
    ensures Sourced(plan, SetOf(phys), v1, final) && NoneMissed(plan, SetOf(phys), v1, final, roles)
    ensures roles.Keys == SetOf(phys)
    ensures Roled(SetOf(phys), final, roles)
    ensures OnlySelf(final)
    ensures DepthOne(final) <==> forall t | t in final :: final[t].base != t
    ensures SelfPairsTaken(plan, SetOf(phys), v1) ==> DepthOne(final)
  {
    hide RolesFit, AsPair, Sourced, NoneMissed, HasTarget, IsPlan, RoleTaken, Turn, Published;
    var all := set t | t in phys;
    assert all == SetOf(phys);
    var pairs := Candidates(rows, sizes, all);
    plan := pairs;
    final, roles := Resolve(pairs);
    start := Assignment(final, roles);
    AdoptingStarts(plan, all, v1, start);
    hide DepthOne, OnlySelf, SelfPairsExplained, SelfPairsTaken, Turns;
    final, roles := FallbackAll(phys, v1, final, roles, plan);
    AdoptedDepth(plan, all, v1, Assignment(final, roles));
  }

  lemma FreeAtStart(plan: seq<Pair<Provenance>>, start: Assignment, t: Tid)
    requires RolesFit(plan, |plan|, start.final, start.roles) && !RoleTaken(plan, t)
    ensures t !in start.roles
  {
    assert plan[..|plan|] == plan;
    hide IsKept;
  }

  lemma Listed(s: set<Tid>) returns (q: seq<Tid>)
    ensures Distinct(q) && SetOf(q) == s
  {
    if s == {} {
      q := [];
    } else {
      var x :| x in s;
      q := Listed(s - {x});
      assert x !in SetOf(q);
      SetOfSnoc(q, x);
      q := q + [x];
    }
  }

  /** A tensor that comes first and is its own partner is paired with itself for good. */
  lemma {:induction false} SelfFirst(plan: seq<Pair<Provenance>>, phys: set<Tid>, v1: map<Tid, Tid>, start: Assignment,
                                     t: Tid,
                                     rest: seq<Tid>)
    requires Roled(phys, start.final, start.roles) && t in phys && t !in start.roles && t in v1 && v1[t] == t
    ensures var r := Turns(phys, v1, start, [t] + rest);
      t in r.roles && t in r.final && r.final[t].base == t
  {
    var order := [t] + rest;
    if rest == [] {
      assert order[..0] == [] && Turns(phys, v1, start, []) == start;
      assert t !in start.final;
    } else {
      assert order[..|order| - 1] == [t] + rest[..|rest| - 1];
      SelfFirst(plan, phys, v1, start, t, rest[..|rest| - 1]);
    }
  }

  /** The order of the fallback, in which `phys` is gone through, is not fixed. One delta deep
      in every order: exactly when no tensor without a published role is its own partner. */
  lemma DepthInEveryOrder(plan: seq<Pair<Provenance>>, phys: set<Tid>, v1: map<Tid, Tid>, start: Assignment)
    requires IsPlan(plan) && forall x | x in plan :: x.tid in phys && x.base in phys
    requires RolesFit(plan, |plan|, start.final, start.roles)
    ensures SelfPairsTaken(plan, phys, v1) <==>
      forall order: seq<Tid> | Distinct(order) && SetOf(order) == phys :: DepthOne(Turns(phys, v1, start, order).final)
  {
    hide IsKept, RolesFit, Sourced, NoneMissed;
    AdoptingStarts(plan, phys, v1, start);
    if SelfPairsTaken(plan, phys, v1) {
      forall order: seq<Tid> | Distinct(order) && SetOf(order) == phys
        ensures DepthOne(Turns(phys, v1, start, order).final)
      {
        assert forall t | t in order :: t in SetOf(order);
        TurnsKeep(plan, phys, v1, start, order);
        AdoptedDepth(plan, phys, v1, Turns(phys, v1, start, order));
      }
    } else {
      var t :| t in phys && t in v1 && v1[t] == t && !RoleTaken(plan, t);
      assert t !in start.roles by {
        FreeAtStart(plan, start, t);
      }
      var rest := Listed(phys - {t});
      var order := [t] + rest;
      assert SetOf(order) == {t} + SetOf(rest) == phys;
      assert Distinct(order) by {
        assert forall x | x in rest :: x in SetOf(rest);
      }
      SelfFirst(plan, phys, v1, start, t, rest);
      assert !DepthOne(Turns(phys, v1, start, order).final);
    }
  }

  /** One tensor, no published row, itself as its fallback partner: target and base at once. */
  lemma SelfPairSurvives()
    ensures var r := Turns({0}, map[0 := 0], Assignment(map[], map[]), [0]);
      r.final == map[0 := Pair(0, 0, 0.0, V1)] && r.roles == map[0 := Target] && !DepthOne(r.final)
  {
    assert Turns({0}, map[0 := 0], Assignment(map[], map[]), []) == Assignment(map[], map[]);
    assert [0][..0] == [];
  }

  ghost predicate PlannedIn(a: AttachPlanner.Arena, group: seq<nat>, tidOf: nat -> Tid, t: Tid, b: Tid) {
    exists x | x in AttachPlanner.AtRows(group, AttachPlanner.Naive(a, group, |group|).attach) ::
      t == tidOf(x.target) && b == tidOf(x.base)
  }

  /** Fallback partners as the attach planner assigns them within the groups. */
  ghost predicate Planned(a: AttachPlanner.Arena, groups: seq<seq<nat>>, tidOf: nat -> Tid, v1: map<Tid, Tid>) {
    forall t | t in v1 :: exists g | g in groups :: PlannedIn(a, g, tidOf, t, v1[t])
  }

  ghost predicate OneTidEach(tidOf: nat -> Tid) {
    forall r, q | tidOf(r) == tidOf(q) :: r == q
  }

  lemma PartnerIsOther(a: AttachPlanner.Arena, group: seq<nat>, tidOf: nat -> Tid, t: Tid, b: Tid)
    requires Distinct(group) && PlannedIn(a, group, tidOf, t, b) && OneTidEach(tidOf)
    ensures t != b
  {
    var attach := AttachPlanner.Naive(a, group, |group|).attach;
    var x :| x in AttachPlanner.AtRows(group, attach) && t == tidOf(x.target) && b == tidOf(x.base);
    var k :| 0 <= k < |attach| && AttachPlanner.AtRows(group, attach)[k] == x;
    AttachPlanner.NaiveExplained(a, group, |group|);
    assert attach[k] in attach;
  }

  /** The partner the attach planner gives came earlier, so it is another tensor: adoption with
      its pairs is one delta deep. */
  lemma PlannerPairsOthers(a: AttachPlanner.Arena, groups: seq<seq<nat>>, tidOf: nat -> Tid, v1: map<Tid, Tid>,
                           plan: seq<Pair<Provenance>>, phys: set<Tid>)
    requires (forall g | g in groups :: Distinct(g)) && OneTidEach(tidOf)
    requires Planned(a, groups, tidOf, v1)
    ensures SelfPairsTaken(plan, phys, v1)
  {
    hide PlannedIn, OneTidEach, RoleTaken;
    forall t | t in v1 ensures v1[t] != t {
      var g :| g in groups && PlannedIn(a, g, tidOf, t, v1[t]);
      PartnerIsOther(a, g, tidOf, t, v1[t]);
    }
  }
}
