/** A compression plan may name a tensor both as a target and as the base of others. Conflict
    resolution gives every tensor one role, so that every target is one delta away from a
    base that is stored raw. */
module ConflictResolution {
  import opened Sums
  import opened Sequences

  type Tid = nat

  /** Target, base, the bytes saved by storing the delta, and what the caller keeps with it. */
  datatype Pair<T> = Pair(tid: Tid, base: Tid, gain: real, payload: T)

  datatype Role = Base | Target

  /** A plan is a dictionary keyed by target, listed in the order in which it is iterated. */
  ghost predicate IsPlan<T>(plan: seq<Pair<T>>) {
    forall i, j | 0 <= i < j < |plan| :: plan[i].tid != plan[j].tid
  }

  ghost predicate HasTarget<T>(plan: seq<Pair<T>>, t: Tid) {
    exists x | x in plan :: x.tid == t
  }

  ghost predicate HasChild<T>(plan: seq<Pair<T>>, t: Tid) {
    exists x | x in plan :: x.base == t
  }

  /** The gain of `t` as a target, 0 if it is none. */
  ghost function GainOf<T>(plan: seq<Pair<T>>, t: Tid): real {
    if plan == [] then 0.0
    else if plan[|plan| - 1].tid == t then plan[|plan| - 1].gain
    else GainOf(plan[..|plan| - 1], t)
  }

  /** The value of `t` as a base: the gains of its children. */
  ghost function ValueOf<T>(plan: seq<Pair<T>>, t: Tid): real {
    if plan == [] then 0.0
    else ValueOf(plan[..|plan| - 1], t) + (if plan[|plan| - 1].base == t then plan[|plan| - 1].gain else 0.0)
  }

  ghost predicate InConflict<T>(plan: seq<Pair<T>>, t: Tid) {
    HasTarget(plan, t) && HasChild(plan, t)
  }

  /** In conflict and worth more as a base than as a target. */
  ghost predicate IsForced<T>(plan: seq<Pair<T>>, t: Tid) {
    InConflict(plan, t) && ValueOf(plan, t) > GainOf(plan, t)
  }

  ghost predicate IsKept<T>(plan: seq<Pair<T>>, x: Pair<T>) {
    !IsForced(plan, x.tid) && (InConflict(plan, x.base) ==> IsForced(plan, x.base))
  }

  /** No base of a chosen pair is itself a chosen target. */
  ghost predicate DepthOne<T>(chosen: map<Tid, Pair<T>>) {
    forall t | t in chosen :: chosen[t].base !in chosen
  }

  /** A kept pair's base is not the target of a kept pair, self-pairs included. */
  lemma KeptIsDepthOne<T>(plan: seq<Pair<T>>, x: Pair<T>, y: Pair<T>)
    requires x in plan && y in plan && IsKept(plan, x) && IsKept(plan, y)
    ensures x.base != y.tid
  {
    if x.base == y.tid {
      assert InConflict(plan, y.tid);
    }
  }

  function Real(m: map<Tid, real>, t: Tid): real {
    if t in m then m[t] else 0.0
  }

  lemma Snoc<T>(plan: seq<Pair<T>>, i: nat)
    requires i < |plan|
    ensures forall t :: GainOf(plan[..i + 1], t) == if plan[i].tid == t then plan[i].gain else GainOf(plan[..i], t)
    ensures forall t ::
      ValueOf(plan[..i + 1], t) == ValueOf(plan[..i], t) + (if plan[i].base == t then plan[i].gain else 0.0)
    ensures forall t :: HasTarget(plan[..i + 1], t) <==> HasTarget(plan[..i], t) || plan[i].tid == t
    ensures forall t :: HasChild(plan[..i + 1], t) <==> HasChild(plan[..i], t) || plan[i].base == t
  {
    var r := plan[..i + 1];
    assert r[..i] == plan[..i] && r[i] == plan[i];
    assert forall x :: x in r <==> x in plan[..i] || x == plan[i];
    forall t
      ensures GainOf(r, t) == if plan[i].tid == t then plan[i].gain else GainOf(plan[..i], t)
      ensures ValueOf(r, t) == ValueOf(plan[..i], t) + (if plan[i].base == t then plan[i].gain else 0.0)
      ensures HasTarget(r, t) <==> HasTarget(plan[..i], t) || plan[i].tid == t
      ensures HasChild(r, t) <==> HasChild(plan[..i], t) || plan[i].base == t
    {
      assert plan[i] in r;
      if HasTarget(plan[..i], t) {
        var x :| x in plan[..i] && x.tid == t;
        assert x in r;
      }
      if HasChild(plan[..i], t) {
        var x :| x in plan[..i] && x.base == t;
        assert x in r;
      }
    }
  }

  /** The dictionaries of gains and base values. */
  method Values<T>(plan: seq<Pair<T>>) returns (gains: map<Tid, real>, values: map<Tid, real>)
    ensures forall t :: Real(gains, t) == GainOf(plan, t) && (t in gains <==> HasTarget(plan, t))
    ensures forall t :: Real(values, t) == ValueOf(plan, t) && (t in values <==> HasChild(plan, t))
  {
    gains, values := map[], map[];
    assert plan[..0] == [];
    for i := 0 to |plan|
      invariant forall t :: Real(gains, t) == GainOf(plan[..i], t) && (t in gains <==> HasTarget(plan[..i], t))
      invariant forall t :: Real(values, t) == ValueOf(plan[..i], t) && (t in values <==> HasChild(plan[..i], t))
    {
      var x := plan[i];
      Snoc(plan, i);
      gains := gains[x.tid := x.gain];
      values := values[x.base := Real(values, x.base) + x.gain];
    }
    assert plan[..|plan|] == plan;
  }

  ghost predicate RolesFit<T>(plan: seq<Pair<T>>, done: nat, final: map<Tid, Pair<T>>, roles: map<Tid, Role>)
    requires done <= |plan|
  {
    && (forall t | t in final :: final[t] in plan[..done] && final[t].tid == t && IsKept(plan, final[t]))
    && (forall x | x in plan[..done] && IsKept(plan, x) :: x.tid in final && final[x.tid] == x)
    && (forall t :: t in roles <==> HasTarget(plan[..done], t) || exists u | u in final :: final[u].base == t)
    && (forall t | t in roles :: roles[t] == Target <==> t in final)
  }

  lemma NotYetFinal<T>(plan: seq<Pair<T>>, done: nat, final: map<Tid, Pair<T>>, roles: map<Tid, Role>)
    requires IsPlan(plan) && done < |plan| && RolesFit(plan, done, final, roles)
    ensures plan[done].tid !in final
    ensures forall y :: y in plan[..done + 1] <==> y in plan[..done] || y == plan[done]
    ensures forall t :: HasTarget(plan[..done + 1], t) <==> HasTarget(plan[..done], t) || plan[done].tid == t
  {
    hide IsKept;
    Snoc(plan, done);
    assert plan[..done + 1] == plan[..done] + [plan[done]];
    forall t | t in final ensures t != plan[done].tid {
      var i :| 0 <= i < done && plan[i] == final[t];
    }
  }

  lemma DropStep<T>(plan: seq<Pair<T>>, done: nat, final: map<Tid, Pair<T>>, roles: map<Tid, Role>)
    requires IsPlan(plan) && done < |plan| && RolesFit(plan, done, final, roles) && !IsKept(plan, plan[done])
    ensures RolesFit(plan, done + 1, final, roles[plan[done].tid := Base])
  {
    hide IsKept, HasTarget;
    NotYetFinal(plan, done, final, roles);
  }

  /** The base of a kept pair is no target so far, and not this pair's own. */
  lemma BaseStaysBase<T>(plan: seq<Pair<T>>, done: nat, final: map<Tid, Pair<T>>, roles: map<Tid, Role>)
    requires done < |plan| && RolesFit(plan, done, final, roles) && IsKept(plan, plan[done])
    ensures plan[done].base !in final && plan[done].base != plan[done].tid
  {
    forall t | t in final ensures t != plan[done].base {
      assert final[t] in plan;
      KeptIsDepthOne(plan, plan[done], final[t]);
    }
    KeptIsDepthOne(plan, plan[done], plan[done]);
  }

  lemma KeepStep<T>(plan: seq<Pair<T>>, done: nat, final: map<Tid, Pair<T>>, roles: map<Tid, Role>)
    requires IsPlan(plan) && done < |plan| && RolesFit(plan, done, final, roles) && IsKept(plan, plan[done])
    ensures var x := plan[done];
      var asTarget := roles[x.tid := Target];
      RolesFit(plan, done + 1, final[x.tid := x], if x.base in asTarget then asTarget else asTarget[x.base := Base])
  {
    hide IsKept, HasTarget;
    var x := plan[done];
    NotYetFinal(plan, done, final, roles);
    BaseStaysBase(plan, done, final, roles);
    var final' := final[x.tid := x];
    var asTarget := roles[x.tid := Target];
    var roles' := if x.base in asTarget then asTarget else asTarget[x.base := Base];
    forall t ensures t in roles' <==> HasTarget(plan[..done + 1], t) || exists u | u in final' :: final'[u].base == t {
      if u :| u in final && final[u].base == t {
        assert final'[u].base == t;
      }
      assert t == x.base ==> final'[x.tid].base == t;
    }
  }

  lemma ForcedMeans<T>(plan: seq<Pair<T>>, t: Tid)
    ensures IsForced(plan, t) <==> InConflict(plan, t) && ValueOf(plan, t) > GainOf(plan, t)
  {
  }

  lemma KeptMeans<T>(plan: seq<Pair<T>>, x: Pair<T>)
    ensures IsKept(plan, x) <==> !IsForced(plan, x.tid) && (InConflict(plan, x.base) ==> IsForced(plan, x.base))
  {
  }

  lemma NothingYet<T>(plan: seq<Pair<T>>)
    ensures RolesFit(plan, 0, map[], map[])
  {
  }

  lemma FitIsDepthOne<T>(plan: seq<Pair<T>>, final: map<Tid, Pair<T>>, roles: map<Tid, Role>)
    requires RolesFit(plan, |plan|, final, roles)
    ensures DepthOne(final)
  {
    assert plan[..|plan|] == plan;
    forall t, u | t in final && u in final ensures final[t].base != u {
      KeptIsDepthOne(plan, final[t], final[u]);
    }
  }

  /** Roles and the pairs that survive. A tensor is a target exactly when its pair survives,
      which it does when neither it nor its base has to give way, and then its base is none. */
  method Resolve<T>(plan: seq<Pair<T>>) returns (final: map<Tid, Pair<T>>, roles: map<Tid, Role>)
    requires IsPlan(plan)
    ensures RolesFit(plan, |plan|, final, roles)
    ensures DepthOne(final)
  {
    hide RolesFit, IsKept, IsForced;
    var gains, values := Values(plan);
    var conflicts := set t | t in gains && t in values;
    var forced := set t | t in conflicts && Real(values, t) > Real(gains, t);
    forall t ensures (t in conflicts <==> InConflict(plan, t)) && (t in forced <==> IsForced(plan, t)) {
      ForcedMeans(plan, t);
    }
    final, roles := map[], map[];
    NothingYet(plan);
    for i := 0 to |plan|
      invariant RolesFit(plan, i, final, roles)
    {
      var x := plan[i];
      KeptMeans(plan, x);
      if IsKept(plan, x) {
        KeepStep(plan, i, final, roles);
      } else {
        DropStep(plan, i, final, roles);
      }
      if x.tid in forced {
        roles := roles[x.tid := Base];
        continue;
      }
      if x.base in conflicts && x.base !in forced {
        roles := roles[x.tid := Base];
        continue;
      }
      final := final[x.tid := x];
      roles := roles[x.tid := Target];
      if x.base !in roles {
        roles := roles[x.base := Base];
      }
    }
    FitIsDepthOne(plan, final, roles);
  }
}
