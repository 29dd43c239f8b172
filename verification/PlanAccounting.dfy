/** The chronological storage account of a resolved plan. */
module PlanAccounting {
  import opened Sums
  import opened Sequences
  import opened ConflictResolution

  // ---- `_sim_overall_reduction`: the account, in the order in which models were created

  /** A pair of the plan keeps the bytes its delta takes. */
  type Sized = Pair<int>

  function Size(sizes: map<Tid, int>, t: Tid): int {
    if t in sizes then sizes[t] else 0
  }

  ghost function SizeOf(sizes: map<Tid, int>): Tid -> int {
    (t: Tid) => Size(sizes, t)
  }

  /** What storing one tensor takes under the plan. */
  ghost function StoredAs(sizes: map<Tid, int>, final: map<Tid, Sized>): Tid -> int {
    (t: Tid) => if t in final then final[t].payload else Size(sizes, t)
  }

  /** The visited tensors and the bases of the targets among them. */
  ghost function Reached(final: map<Tid, Sized>, visits: set<Tid>): set<Tid> {
    visits + set t | t in visits && t in final :: final[t].base
  }

  ghost predicate Booked(sizes: map<Tid, int>, final: map<Tid, Sized>, visits: set<Tid>,
                         processed: set<Tid>, original: int, stored: int)
  {
    && processed == Reached(final, visits)
    && original == SumOver(processed, SizeOf(sizes))
    && stored == SumOver(processed, StoredAs(sizes, final))
  }

  lemma ReachOne(final: map<Tid, Sized>, visits: set<Tid>, t: Tid)
    requires DepthOne(final)
    ensures Reached(final, visits + {t}) ==
      Reached(final, visits) + {t} + if t in final then {final[t].base} else {}
    ensures t in Reached(final, visits) && t in final ==> final[t].base in Reached(final, visits)
  {
    var more := Reached(final, visits + {t});
    if t in final {
      assert final[t].base in more;
      assert t in visits + {t};
    }
    forall x | x in more ensures x in Reached(final, visits) + {t} + if t in final then {final[t].base} else {} {
    }
  }

  /** Booking a tensor that is not yet stored, at `bytes`. */
  lemma AddOne(sizes: map<Tid, int>, final: map<Tid, Sized>, processed: set<Tid>, t: Tid)
    requires t !in processed
    ensures SumOver(processed + {t}, SizeOf(sizes)) == SumOver(processed, SizeOf(sizes)) + Size(sizes, t)
    ensures SumOver(processed + {t}, StoredAs(sizes, final)) ==
      SumOver(processed, StoredAs(sizes, final)) + if t in final then final[t].payload else Size(sizes, t)
  {
    SumOverWith(processed, SizeOf(sizes), t);
    SumOverWith(processed, StoredAs(sizes, final), t);
  }

  lemma NotItself(final: map<Tid, Sized>, t: Tid)
    requires DepthOne(final) && t in final
    ensures final[t].base != t
  {
  }

  lemma BookOne(sizes: map<Tid, int>, final: map<Tid, Sized>, visits: set<Tid>,
                processed: set<Tid>, original: int, stored: int, t: Tid)
    requires DepthOne(final) && Booked(sizes, final, visits, processed, original, stored)
    ensures t in processed ==> Booked(sizes, final, visits + {t}, processed, original, stored)
    ensures t !in processed && t !in final ==>
      Booked(sizes, final, visits + {t}, processed + {t}, original + Size(sizes, t), stored + Size(sizes, t))
    ensures t !in processed && t in final && final[t].base in processed ==>
      Booked(sizes, final, visits + {t}, processed + {t}, original + Size(sizes, t), stored + final[t].payload)
    ensures t !in processed && t in final && final[t].base !in processed ==>
      var b := final[t].base;
      Booked(sizes, final, visits + {t}, processed + {t} + {b},
             original + Size(sizes, t) + Size(sizes, b), stored + final[t].payload + Size(sizes, b))
  {
    hide SumOver, Reached;
    ReachOne(final, visits, t);
    var more := Reached(final, visits + {t});
    if t in processed {
      assert more == processed;
    } else {
      AddOne(sizes, final, processed, t);
      if t !in final {
        assert more == processed + {t};
      } else if final[t].base in processed {
        assert more == processed + {t};
      } else {
        NotItself(final, t);
        AddOne(sizes, final, processed + {t}, final[t].base);
        assert more == processed + {t} + {final[t].base};
      }
    }
  }

  /** One tensor of one model: skipped if already stored, else stored with its base. */
  method AccountOne(sizes: map<Tid, int>, final: map<Tid, Sized>, roles: map<Tid, Role>, ghost visits: set<Tid>,
                    t: Tid, processed0: set<Tid>, original0: int, stored0: int)
    returns (processed: set<Tid>, original: int, stored: int)
    requires DepthOne(final) && forall t :: t in final <==> t in roles && roles[t] == Target
    requires Booked(sizes, final, visits, processed0, original0, stored0)
    ensures Booked(sizes, final, visits + {t}, processed, original, stored)
  {
    hide Booked, DepthOne;
    BookOne(sizes, final, visits, processed0, original0, stored0, t);
    processed, original, stored := processed0, original0, stored0;
    if t in processed {
      return;
    }
    original := original + Size(sizes, t);
    if t in roles && roles[t] == Target && t in final {
      var b := final[t].base;
      stored := stored + final[t].payload;
      processed := processed + {t};
      NotItself(final, t);
      if b !in processed {
        stored := stored + Size(sizes, b);
        original := original + Size(sizes, b);
        processed := processed + {b};
      }
    } else {
      stored := stored + Size(sizes, t);
      processed := processed + {t};
    }
  }

  ghost function Members(models: seq<seq<Tid>>): set<Tid> {
    if models == [] then {} else Members(models[..|models| - 1]) + SetOf(models[|models| - 1])
  }

  lemma NothingBooked(sizes: map<Tid, int>, final: map<Tid, Sized>)
    ensures Booked(sizes, final, {}, {}, 0, 0)
  {
  }

  lemma VisitOne(before: set<Tid>, tids: seq<Tid>, i: nat)
    requires i < |tids|
    ensures before + SetOf(tids[..i + 1]) == before + SetOf(tids[..i]) + {tids[i]}
  {
    assert tids[..i + 1] == tids[..i] + [tids[i]];
    SetOfSnoc(tids[..i], tids[i]);
  }

  lemma VisitModel(models: seq<seq<Tid>>, m: nat)
    requires m < |models|
    ensures Members(models[..m + 1]) == Members(models[..m]) + SetOf(models[m][..|models[m]|])
  {
    assert models[..m + 1][..m] == models[..m];
    assert models[m][..|models[m]|] == models[m];
  }

  /** The account of all models in turn. Because resolution leaves no tensor both target and
      base, it depends only on which tensors the models contain, not on any order. */
  method Account(sizes: map<Tid, int>, final: map<Tid, Sized>, roles: map<Tid, Role>, models: seq<seq<Tid>>)
    returns (original: int, stored: int)
    requires DepthOne(final) && forall t :: t in final <==> t in roles && roles[t] == Target
    ensures original == SumOver(Reached(final, Members(models)), SizeOf(sizes))
    ensures stored == SumOver(Reached(final, Members(models)), StoredAs(sizes, final))
  {
    hide Reached, DepthOne;
    original, stored := 0, 0;
    var processed: set<Tid> := {};
    NothingBooked(sizes, final);
    assert models[..0] == [];
    for m := 0 to |models|
      invariant Booked(sizes, final, Members(models[..m]), processed, original, stored)
    {
      var tids := models[m];
      assert Members(models[..m]) + SetOf(tids[..0]) == Members(models[..m]);
      for i := 0 to |tids|
        invariant Booked(sizes, final, Members(models[..m]) + SetOf(tids[..i]), processed, original, stored)
      {
        VisitOne(Members(models[..m]), tids, i);
        processed, original, stored := AccountOne(
          sizes, final, roles, Members(models[..m]) + SetOf(tids[..i]), tids[i], processed, original, stored);
      }
      VisitModel(models, m);
    }
    assert models[..|models|] == models;
  }

  ghost predicate Contains(models: seq<seq<Tid>>, t: Tid) {
    exists m | 0 <= m < |models| :: t in models[m]
  }

  lemma {:induction false} MembersAre(models: seq<seq<Tid>>, t: Tid)
    ensures t in Members(models) <==> Contains(models, t)
  {
    if models != [] {
      var n := |models| - 1;
      MembersAre(models[..n], t);
      if m :| 0 <= m < n && t in models[..n][m] {
        assert t in models[m];
      }
      if m :| 0 <= m < |models| && t in models[m] {
        if m < n {
          assert t in models[..n][m];
        } else {
          assert t in SetOf(models[n]);
        }
      }
    }
  }

  /** Whatever the order of the models and of the tensors within them. */
  lemma OrderIsIrrelevant(models: seq<seq<Tid>>, others: seq<seq<Tid>>)
    requires forall t :: Contains(models, t) <==> Contains(others, t)
    ensures Members(models) == Members(others)
  {
    forall t ensures t in Members(models) <==> t in Members(others) {
      MembersAre(models, t);
      MembersAre(others, t);
    }
  }

  // ---- from the plan to the totals

  /** An entry of the plan: target, base, bytes of the delta. */
  datatype Planned = Planned(tid: Tid, base: Tid, bytesOut: int)

  /** A plan is a dictionary keyed by target, listed in the order in which it is iterated. */
  ghost predicate IsDict(plan: seq<Planned>) {
    forall i, j | 0 <= i < j < |plan| :: plan[i].tid != plan[j].tid
  }

  /** What a target saves is never counted below zero. */
  function Priced(sizes: map<Tid, int>, x: Planned): Sized {
    var saved := Size(sizes, x.tid) - x.bytesOut;
    Pair(x.tid, x.base, if saved > 0 then saved as real else 0.0, x.bytesOut)
  }

  function PricedPlan(sizes: map<Tid, int>, plan: seq<Planned>): (pairs: seq<Sized>)
    ensures |pairs| == |plan| && forall i | 0 <= i < |plan| :: pairs[i] == Priced(sizes, plan[i])
  {
    seq(|plan|, i requires 0 <= i < |plan| => Priced(sizes, plan[i]))
  }

  /** The pairs that survive conflict resolution. */
  ghost function Surviving(pairs: seq<Sized>): map<Tid, Sized>
    requires IsPlan(pairs)
  {
    map x | x in pairs && IsKept(pairs, x) :: x.tid := x
  }

  lemma ResolvedSurvive(pairs: seq<Sized>, final: map<Tid, Sized>, roles: map<Tid, Role>)
    requires IsPlan(pairs) && RolesFit(pairs, |pairs|, final, roles)
    ensures final == Surviving(pairs)
    ensures forall t :: t in final <==> t in roles && roles[t] == Target
  {
    hide IsKept;
    assert pairs[..|pairs|] == pairs;
    forall t ensures t in final <==> t in roles && roles[t] == Target {
      if t in final {
        assert HasTarget(pairs[..|pairs|], t);
      }
    }
  }

  lemma PricedIsPlan(sizes: map<Tid, int>, plan: seq<Planned>)
    requires IsDict(plan)
    ensures IsPlan(PricedPlan(sizes, plan))
  {
  }

  /** The tensors of the models that have a creation time. */
  ghost function Visited(modelTensors: map<string, seq<Tid>>, createdAt: seq<(string, int)>): set<Tid> {
    set e, t | e in createdAt && e.0 in modelTensors && t in modelTensors[e.0] :: t
  }

  /** What `_sim_overall_reduction` reports, as a function of plan, sizes and tensors. */
  ghost function OriginalBytes(sizes: map<Tid, int>, plan: seq<Planned>, visited: set<Tid>): int
    requires IsDict(plan)
  {
    PricedIsPlan(sizes, plan);
    SumOver(Reached(Surviving(PricedPlan(sizes, plan)), visited), SizeOf(sizes))
  }

  ghost function StoredBytes(sizes: map<Tid, int>, plan: seq<Planned>, visited: set<Tid>): int
    requires IsDict(plan)
  {
    PricedIsPlan(sizes, plan);
    var final := Surviving(PricedPlan(sizes, plan));
    SumOver(Reached(final, visited), StoredAs(sizes, final))
  }

  ghost predicate ByTime(timed: seq<(string, int)>) {
    forall i, j | 0 <= i < j < |timed| :: timed[i].1 <= timed[j].1
  }

  lemma InsertKeepsTime(timed: seq<(string, int)>, k: nat, e: (string, int))
    requires ByTime(timed) && k <= |timed| && (k > 0 ==> timed[k - 1].1 <= e.1)
    requires forall i | k <= i < |timed| :: e.1 < timed[i].1
    ensures ByTime(timed[..k] + [e] + timed[k..])
  {
    var r := timed[..k] + [e] + timed[k..];
    forall i, j | 0 <= i < j < |r| ensures r[i].1 <= r[j].1 {
      InsertedAt(timed, k, e, i);
      InsertedAt(timed, k, e, j);
    }
  }

  lemma OneBetween<T>(front: seq<T>, x: T, back: seq<T>)
    ensures multiset(front + [x] + back) == multiset(front + back) + multiset{x}
  {
  }

  /** Into a list in order of time, behind those of the same time. */
  method InsertByTime(timed: seq<(string, int)>, e: (string, int)) returns (r: seq<(string, int)>)
    requires ByTime(timed)
    ensures ByTime(r) && multiset(r) == multiset(timed) + multiset{e}
  {
    hide ByTime;
    var k: nat := |timed|;
    while k > 0 && timed[k - 1].1 > e.1
      invariant k <= |timed| && forall i | k <= i < |timed| :: e.1 < timed[i].1
    {
      k := k - 1;
    }
    r := timed[..k] + [e] + timed[k..];
    InsertKeepsTime(timed, k, e);
    assert timed == timed[..k] + timed[k..];
    OneBetween(timed[..k], e, timed[k..]);
  }

  /** The models that are known and have a creation time, oldest first. */
  method Chronological(modelTensors: map<string, seq<Tid>>, createdAt: seq<(string, int)>)
    returns (timed: seq<(string, int)>)
    ensures ByTime(timed) && forall e :: e in timed <==> e in createdAt && e.0 in modelTensors
  {
    timed := [];
    for i := 0 to |createdAt|
      invariant ByTime(timed) && forall e :: e in timed <==> e in createdAt[..i] && e.0 in modelTensors
    {
      assert createdAt[..i + 1] == createdAt[..i] + [createdAt[i]];
      if createdAt[i].0 in modelTensors {
        ghost var before := timed;
        timed := InsertByTime(timed, createdAt[i]);
        forall e ensures e in timed <==> e in before || e == createdAt[i] {
          assert e in timed <==> e in multiset(timed);
          assert e in before <==> e in multiset(before);
        }
      }
    }
    assert createdAt[..|createdAt|] == createdAt;
  }

  function TensorsOf(modelTensors: map<string, seq<Tid>>, timed: seq<(string, int)>): (models: seq<seq<Tid>>)
    requires forall e | e in timed :: e.0 in modelTensors
    ensures |models| == |timed| && forall i | 0 <= i < |timed| ::
      timed[i] in timed && models[i] == modelTensors[timed[i].0]
  {
    seq(|timed|, i requires 0 <= i < |timed| => assert timed[i] in timed; modelTensors[timed[i].0])
  }

  lemma TimedAreVisited(modelTensors: map<string, seq<Tid>>, createdAt: seq<(string, int)>, timed: seq<(string, int)>)
    requires forall e :: e in timed <==> e in createdAt && e.0 in modelTensors
    ensures Members(TensorsOf(modelTensors, timed)) == Visited(modelTensors, createdAt)
  {
    var models := TensorsOf(modelTensors, timed);
    forall t ensures t in Members(models) <==> t in Visited(modelTensors, createdAt) {
      MembersAre(models, t);
      if t in Visited(modelTensors, createdAt) {
        var e :| e in createdAt && e.0 in modelTensors && t in modelTensors[e.0];
        assert e in timed;
        var m :| 0 <= m < |timed| && timed[m] == e;
        assert t in models[m];
      }
    }
  }

  // ---- the totals in terms of the plan's own entries

  /** The bytes an entry saves, never below zero. */
  ghost function Saves(sizes: map<Tid, int>, x: Planned): int {
    if x.bytesOut < Size(sizes, x.tid) then Size(sizes, x.tid) - x.bytesOut else 0
  }

  /** The bytes saved by all entries with base `t`. */
  ghost function SavedBy(sizes: map<Tid, int>, plan: seq<Planned>, t: Tid): int {
    if plan == [] then 0
    else
      var x, was := plan[|plan| - 1], plan[..|plan| - 1];
      SavedBy(sizes, was, t) + if x.base == t then Saves(sizes, x) else 0
  }

  ghost predicate IsBothEnds(plan: seq<Planned>, t: Tid) {
    (exists x | x in plan :: x.tid == t) && exists x | x in plan :: x.base == t
  }

  /** `t` is both target and base, and its children save more than it does. */
  ghost predicate GivesWay(sizes: map<Tid, int>, plan: seq<Planned>, t: Tid) {
    IsBothEnds(plan, t) && exists x | x in plan :: x.tid == t && SavedBy(sizes, plan, t) > Saves(sizes, x)
  }

  /** An entry survives unless its target gives way, or its base is a target that does not. */
  ghost predicate Survives(sizes: map<Tid, int>, plan: seq<Planned>, x: Planned) {
    !GivesWay(sizes, plan, x.tid) && (IsBothEnds(plan, x.base) ==> GivesWay(sizes, plan, x.base))
  }

  /** What the entries that survive save over the visited tensors; an entry that would take
      more bytes than its tensor counts against it. */
  ghost function Savings(sizes: map<Tid, int>, plan: seq<Planned>, visited: set<Tid>, k: nat): int
    requires k <= |plan|
  {
    if k == 0 then 0
    else
      var x := plan[k - 1];
      Savings(sizes, plan, visited, k - 1)
      + if Survives(sizes, plan, x) && x.tid in visited then Size(sizes, x.tid) - x.bytesOut else 0
  }

  /** The visited tensors and the bases of the entries that survive for them. */
  ghost function StoredTensors(sizes: map<Tid, int>, plan: seq<Planned>, visited: set<Tid>): set<Tid> {
    visited + set x | x in plan && Survives(sizes, plan, x) && x.tid in visited :: x.base
  }

  lemma {:induction false} SavedIsValue(sizes: map<Tid, int>, plan: seq<Planned>, t: Tid)
    ensures ValueOf(PricedPlan(sizes, plan), t) == SavedBy(sizes, plan, t) as real
  {
    if plan != [] {
      var n := |plan| - 1;
      SavedIsValue(sizes, plan[..n], t);
      assert PricedPlan(sizes, plan)[..n] == PricedPlan(sizes, plan[..n]);
    }
  }

  lemma PricedIn(sizes: map<Tid, int>, plan: seq<Planned>, x: Planned)
    requires x in plan
    ensures Priced(sizes, x) in PricedPlan(sizes, plan)
  {
    var k :| 0 <= k < |plan| && plan[k] == x;
    assert PricedPlan(sizes, plan)[k] == Priced(sizes, x);
  }

  lemma EndsArePriced(sizes: map<Tid, int>, plan: seq<Planned>, t: Tid)
    ensures InConflict(PricedPlan(sizes, plan), t) <==> IsBothEnds(plan, t)
  {
    var pairs := PricedPlan(sizes, plan);
    if x :| x in plan && x.tid == t {
      PricedIn(sizes, plan, x);
    }
    if x :| x in plan && x.base == t {
      PricedIn(sizes, plan, x);
    }
    forall y | y in pairs ensures exists x | x in plan :: y == Priced(sizes, x) {
      var k :| 0 <= k < |pairs| && pairs[k] == y;
      assert plan[k] in plan;
    }
  }

  lemma {:induction false} GainOfIs(pairs: seq<Sized>, x: Sized)
    requires IsPlan(pairs) && x in pairs
    ensures GainOf(pairs, x.tid) == x.gain
  {
    var n := |pairs| - 1;
    if pairs[n].tid != x.tid {
      var i :| 0 <= i < |pairs| && pairs[i] == x;
      assert pairs[..n][i] == x;
      GainOfIs(pairs[..n], x);
    } else {
      var i :| 0 <= i < |pairs| && pairs[i] == x;
    }
  }

  lemma ForcedGivesWay(sizes: map<Tid, int>, plan: seq<Planned>, t: Tid)
    requires IsDict(plan)
    ensures IsForced(PricedPlan(sizes, plan), t) <==> GivesWay(sizes, plan, t)
  {
    PricedIsPlan(sizes, plan);
    EndsArePriced(sizes, plan, t);
    SavedIsValue(sizes, plan, t);
    hide ValueOf, GainOf, SavedBy, PricedPlan, InConflict;
    forall x | x in plan && x.tid == t ensures GainOf(PricedPlan(sizes, plan), t) == Saves(sizes, x) as real {
      PricedIn(sizes, plan, x);
      GainOfIs(PricedPlan(sizes, plan), Priced(sizes, x));
    }
  }

  /** Which entries survive, by comparing what they save. */
  lemma SurvivingIs(sizes: map<Tid, int>, plan: seq<Planned>, x: Planned)
    requires IsDict(plan) && x in plan && IsPlan(PricedPlan(sizes, plan))
    ensures var final := Surviving(PricedPlan(sizes, plan));
      && (x.tid in final <==> Survives(sizes, plan, x))
      && (x.tid in final ==> final[x.tid].base == x.base && final[x.tid].payload == x.bytesOut)
  {
    ForcedGivesWay(sizes, plan, x.tid);
    ForcedGivesWay(sizes, plan, x.base);
    EndsArePriced(sizes, plan, x.base);
    PricedIn(sizes, plan, x);
    hide IsForced, GivesWay, InConflict, IsBothEnds;
    var pairs := PricedPlan(sizes, plan);
    forall y | y in pairs && y.tid == x.tid ensures y == Priced(sizes, x) {
      var i :| 0 <= i < |pairs| && pairs[i] == y;
      var j :| 0 <= j < |plan| && plan[j] == x;
    }
  }

  lemma NoOthersSurvive(sizes: map<Tid, int>, plan: seq<Planned>, t: Tid)
    requires IsPlan(PricedPlan(sizes, plan)) && t in Surviving(PricedPlan(sizes, plan))
    ensures exists x | x in plan :: x.tid == t
  {
    var pairs := PricedPlan(sizes, plan);
    var y :| y in pairs && y.tid == t;
    var k :| 0 <= k < |pairs| && pairs[k] == y;
    assert plan[k] in plan;
  }

  lemma {:induction false} SumOverSame(s: set<Tid>, f: Tid -> int, g: Tid -> int)
    requires forall y | y in s :: f(y) == g(y)
    ensures SumOver(s, f) == SumOver(s, g)
  {
    if x :| x in s {
      SumOverWithout(s, f, x);
      SumOverWithout(s, g, x);
      SumOverSame(s - {x}, f, g);
    }
  }

  lemma {:induction false} SumOverChange(s: set<Tid>, f: Tid -> int, g: Tid -> int, x: Tid)
    requires x in s && forall y | y in s && y != x :: f(y) == g(y)
    ensures SumOver(s, g) == SumOver(s, f) - f(x) + g(x)
  {
    SumOverWithout(s, f, x);
    SumOverWithout(s, g, x);
    SumOverSame(s - {x}, f, g);
  }

  /** What the first `k` entries of the plan take off the size of a tensor. */
  ghost function StoredUpTo(sizes: map<Tid, int>, plan: seq<Planned>, k: nat): Tid -> int
    requires k <= |plan|
  {
    (t: Tid) =>
      if exists j | 0 <= j < k :: plan[j].tid == t && Survives(sizes, plan, plan[j])
      then (var j :| 0 <= j < k && plan[j].tid == t && Survives(sizes, plan, plan[j]); plan[j].bytesOut)
      else Size(sizes, t)
  }

  lemma OneEntry(sizes: map<Tid, int>, plan: seq<Planned>, k: nat, t: Tid)
    requires IsDict(plan) && 0 < k <= |plan|
    ensures t != plan[k - 1].tid ==> StoredUpTo(sizes, plan, k)(t) == StoredUpTo(sizes, plan, k - 1)(t)
    ensures StoredUpTo(sizes, plan, k - 1)(plan[k - 1].tid) == Size(sizes, plan[k - 1].tid)
    ensures StoredUpTo(sizes, plan, k)(plan[k - 1].tid)
      == if Survives(sizes, plan, plan[k - 1]) then plan[k - 1].bytesOut else Size(sizes, plan[k - 1].tid)
  {
    hide Survives;
  }

  lemma {:induction false} SavingsUpTo(sizes: map<Tid, int>, plan: seq<Planned>, visited: set<Tid>, stored: set<Tid>,
                                       k: nat)
    requires IsDict(plan) && k <= |plan| && visited <= stored
    requires forall x | x in plan && Survives(sizes, plan, x) && x.tid in stored :: x.tid in visited
    ensures SumOver(stored, StoredUpTo(sizes, plan, k))
      == SumOver(stored, SizeOf(sizes)) - Savings(sizes, plan, visited, k)
  {
    hide Survives, SumOver;
    if k == 0 {
      SumOverSame(stored, StoredUpTo(sizes, plan, 0), SizeOf(sizes));
    } else {
      var x := plan[k - 1];
      var f, g := StoredUpTo(sizes, plan, k - 1), StoredUpTo(sizes, plan, k);
      SavingsUpTo(sizes, plan, visited, stored, k - 1);
      assert x in plan;
      forall y | y != x.tid ensures f(y) == g(y) {
        OneEntry(sizes, plan, k, y);
      }
      OneEntry(sizes, plan, k, x.tid);
      if x.tid in stored {
        SumOverChange(stored, f, g, x.tid);
      } else {
        SumOverSame(stored, f, g);
      }
    }
  }

  lemma StoredIs(sizes: map<Tid, int>, plan: seq<Planned>, t: Tid)
    requires IsDict(plan) && IsPlan(PricedPlan(sizes, plan))
    ensures StoredUpTo(sizes, plan, |plan|)(t) == StoredAs(sizes, Surviving(PricedPlan(sizes, plan)))(t)
  {
    hide Survives, Surviving, PricedPlan;
    forall x | x in plan && x.tid == t
      ensures var final := Surviving(PricedPlan(sizes, plan));
        && (t in final <==> Survives(sizes, plan, x)) && (t in final ==> final[t].payload == x.bytesOut)
    {
      SurvivingIs(sizes, plan, x);
    }
    if t in Surviving(PricedPlan(sizes, plan)) {
      NoOthersSurvive(sizes, plan, t);
      var x :| x in plan && x.tid == t;
      var j :| 0 <= j < |plan| && plan[j] == x;
    }
  }

  lemma SurvivorsDepthOne(pairs: seq<Sized>)
    requires IsPlan(pairs)
    ensures DepthOne(Surviving(pairs))
  {
    var final := Surviving(pairs);
    forall t, u | t in final && u in final ensures final[t].base != u {
      KeptIsDepthOne(pairs, final[t], final[u]);
    }
  }

  lemma ReachedIsStored(sizes: map<Tid, int>, plan: seq<Planned>, visited: set<Tid>)
    requires IsDict(plan) && IsPlan(PricedPlan(sizes, plan))
    ensures Reached(Surviving(PricedPlan(sizes, plan)), visited) == StoredTensors(sizes, plan, visited)
  {
    hide Survives, Surviving, PricedPlan;
    var final := Surviving(PricedPlan(sizes, plan));
    forall x | x in plan ensures (x.tid in final <==> Survives(sizes, plan, x)) &&
      (x.tid in final ==> final[x.tid].base == x.base) {
      SurvivingIs(sizes, plan, x);
    }
    forall t | t in visited && t in final ensures exists x | x in plan :: x.tid == t {
      NoOthersSurvive(sizes, plan, t);
    }
  }

  /** The totals are sums over what has to be stored, and differ by what the surviving entries
      save. */
  lemma TotalsOfEntries(sizes: map<Tid, int>, plan: seq<Planned>, visited: set<Tid>)
    requires IsDict(plan)
    ensures OriginalBytes(sizes, plan, visited) == SumOver(StoredTensors(sizes, plan, visited), SizeOf(sizes))
    ensures OriginalBytes(sizes, plan, visited) - StoredBytes(sizes, plan, visited)
      == Savings(sizes, plan, visited, |plan|)
  {
    hide Survives, SumOver, Surviving;
    PricedIsPlan(sizes, plan);
    var final := Surviving(PricedPlan(sizes, plan));
    SurvivorsDepthOne(PricedPlan(sizes, plan));
    ReachedIsStored(sizes, plan, visited);
    var stored := StoredTensors(sizes, plan, visited);
    assert forall t | t in Reached(final, visited) && t in final :: t in visited;
    forall x | x in plan && Survives(sizes, plan, x) && x.tid in stored ensures x.tid in visited {
      SurvivingIs(sizes, plan, x);
    }
    SavingsUpTo(sizes, plan, visited, stored, |plan|);
    forall t | t in stored ensures StoredUpTo(sizes, plan, |plan|)(t) == StoredAs(sizes, final)(t) {
      StoredIs(sizes, plan, t);
    }
    SumOverSame(stored, StoredUpTo(sizes, plan, |plan|), StoredAs(sizes, final));
  }

  lemma OneSurvives(sizes: map<Tid, int>, plan: seq<Planned>)
    requires sizes == map[0 := 100, 1 := 100] && plan == [Planned(1, 0, 10)]
    ensures Survives(sizes, plan, plan[0])
    ensures SumOver(StoredTensors(sizes, plan, {0, 1}), SizeOf(sizes)) == 200
  {
    assert plan[0] in plan;
    assert !IsBothEnds(plan, 0) && !IsBothEnds(plan, 1);
    hide Survives, GivesWay, IsBothEnds;
    assert Survives(sizes, plan, plan[0]) ==> StoredTensors(sizes, plan, {0, 1}) == {} + {0} + {1};
    SumOverWith({}, SizeOf(sizes), 0);
    SumOverWith({} + {0}, SizeOf(sizes), 1);
  }

  /** Two tensors of 100 bytes, one a delta of 10 against the other: 200 bytes take 110. */
  lemma TwoTensors()
    ensures var sizes, plan := map[0 := 100, 1 := 100], [Planned(1, 0, 10)];
      OriginalBytes(sizes, plan, {0, 1}) == 200 && StoredBytes(sizes, plan, {0, 1}) == 110
  {
    var sizes, plan := map[0 := 100, 1 := 100], [Planned(1, 0, 10)];
    OneSurvives(sizes, plan);
    hide OriginalBytes, StoredBytes, Survives, SumOver, StoredTensors;
    TotalsOfEntries(sizes, plan, {0, 1});
    assert Savings(sizes, plan, {0, 1}, 0) == 0;
  }

  /** `_sim_overall_reduction`: conflicts are resolved, then the models are gone through in
      order of creation. */
  method OverallReduction(plan: seq<Planned>, sizes: map<Tid, int>, modelTensors: map<string, seq<Tid>>,
                          createdAt: seq<(string, int)>)
    returns (original: int, stored: int, reduction: real)
    requires IsDict(plan)
    ensures original == OriginalBytes(sizes, plan, Visited(modelTensors, createdAt))
    ensures stored == StoredBytes(sizes, plan, Visited(modelTensors, createdAt))
    ensures original == SumOver(StoredTensors(sizes, plan, Visited(modelTensors, createdAt)), SizeOf(sizes))
    ensures original - stored == Savings(sizes, plan, Visited(modelTensors, createdAt), |plan|)
    ensures reduction == if original > 0 then (1.0 - stored as real / original as real) * 100.0 else 0.0
  {
    hide RolesFit, DepthOne, IsKept, SumOver, Reached, StoredTensors, Savings;
    PricedIsPlan(sizes, plan);
    var pairs := PricedPlan(sizes, plan);
    var final, roles := Resolve(pairs);
    ResolvedSurvive(pairs, final, roles);
    var timed := Chronological(modelTensors, createdAt);
    var models := TensorsOf(modelTensors, timed);
    TimedAreVisited(modelTensors, createdAt, timed);
    original, stored := Account(sizes, final, roles, models);
    TotalsOfEntries(sizes, plan, Visited(modelTensors, createdAt));
    reduction := if original > 0 then (1.0 - stored as real / original as real) * 100.0 else 0.0;
  }

  // ---- no order matters

  lemma {:induction false} ValueWithout(pairs: seq<Sized>, k: nat, t: Tid)
    requires k < |pairs|
    ensures ValueOf(pairs, t)
      == ValueOf(pairs[..k] + pairs[k + 1..], t) + (if pairs[k].base == t then pairs[k].gain else 0.0)
  {
    var n := |pairs| - 1;
    if k == n {
      assert pairs[..k] + pairs[k + 1..] == pairs[..n];
    } else {
      ValueWithout(pairs[..n], k, t);
      assert (pairs[..k] + pairs[k + 1..])[..n - 1] == pairs[..n][..k] + pairs[..n][k + 1..];
    }
  }

  /** The place of the last element in a list with the same elements. */
  lemma LastElsewhere<T>(a: seq<T>, b: seq<T>) returns (k: nat)
    requires multiset(a) == multiset(b) && a != []
    ensures k < |b| && b[k] == a[|a| - 1] && multiset(a[..|a| - 1]) == multiset(b[..k] + b[k + 1..])
  {
    var n := |a| - 1;
    assert a == a[..n] + [a[n]];
    assert a[n] in multiset(b);
    k :| 0 <= k < |b| && b[k] == a[n];
    assert b == b[..k] + [b[k]] + b[k + 1..];
    OneBetween(b[..k], b[k], b[k + 1..]);
    OneBetween(a[..n], a[n], []);
    assert a[..n] + [] == a[..n];
    assert a[..n] + [a[n]] + [] == a;
    assert multiset(a[..n]) == multiset(a) - multiset{a[n]};
  }

  lemma {:induction false} ValueInAnyOrder(pairs: seq<Sized>, others: seq<Sized>, t: Tid)
    requires multiset(pairs) == multiset(others)
    ensures ValueOf(pairs, t) == ValueOf(others, t)
  {
    if pairs == [] {
      assert others == [] by {
        assert |multiset(others)| == 0;
      }
    } else {
      var n := |pairs| - 1;
      var k := LastElsewhere(pairs, others);
      ValueInAnyOrder(pairs[..n], others[..k] + others[k + 1..], t);
      ValueWithout(others, k, t);
    }
  }

  lemma SameMembers<T>(a: seq<T>, b: seq<T>)
    requires multiset(a) == multiset(b)
    ensures forall x :: x in a <==> x in b
  {
    forall x ensures x in a <==> x in b {
      assert x in a <==> x in multiset(a);
      assert x in b <==> x in multiset(b);
    }
  }

  lemma SameForced(pairs: seq<Sized>, others: seq<Sized>, t: Tid)
    requires IsPlan(pairs) && IsPlan(others) && multiset(pairs) == multiset(others)
    ensures InConflict(pairs, t) <==> InConflict(others, t)
    ensures IsForced(pairs, t) <==> IsForced(others, t)
  {
    SameMembers(pairs, others);
    ValueInAnyOrder(pairs, others, t);
    hide ValueOf, GainOf;
    if x :| x in pairs && x.tid == t {
      GainOfIs(pairs, x);
      GainOfIs(others, x);
    }
    hide IsPlan;
  }

  /** Which pairs survive does not depend on the order of the plan. */
  lemma SameSurvive(pairs: seq<Sized>, others: seq<Sized>)
    requires IsPlan(pairs) && IsPlan(others) && multiset(pairs) == multiset(others)
    ensures Surviving(pairs) == Surviving(others)
  {
    SameMembers(pairs, others);
    forall x ensures IsKept(pairs, x) <==> IsKept(others, x) {
      SameForced(pairs, others, x.tid);
      SameForced(pairs, others, x.base);
    }
    hide IsKept, IsPlan;
  }

  lemma {:induction false} PricedInAnyOrder(sizes: map<Tid, int>, plan: seq<Planned>, others: seq<Planned>)
    requires multiset(plan) == multiset(others)
    ensures multiset(PricedPlan(sizes, plan)) == multiset(PricedPlan(sizes, others))
  {
    if plan == [] {
      assert others == [] by {
        assert |multiset(others)| == 0;
      }
    } else {
      var n := |plan| - 1;
      var k := LastElsewhere(plan, others);
      var rest := others[..k] + others[k + 1..];
      PricedInAnyOrder(sizes, plan[..n], rest);
      var x := Priced(sizes, plan[n]);
      var q, r := PricedPlan(sizes, plan[..n]), PricedPlan(sizes, rest);
      hide Priced;
      assert PricedPlan(sizes, plan) == q + [x] + [] && q + [] == q;
      assert PricedPlan(sizes, others) == r[..k] + [x] + r[k..] && r == r[..k] + r[k..];
      OneBetween(q, x, []);
      OneBetween(r[..k], x, r[k..]);
    }
  }

  lemma VisitedInAnyOrder(modelTensors: map<string, seq<Tid>>, createdAt: seq<(string, int)>,
                          createdAt': seq<(string, int)>)
    requires forall e :: e in createdAt <==> e in createdAt'
    ensures Visited(modelTensors, createdAt) == Visited(modelTensors, createdAt')
  {
  }

  /** The totals do not depend on the order of the plan, of the models or of the tensors in
      them, nor on the times: only on which tensors the timed models contain. */
  lemma SameTotals(sizes: map<Tid, int>, plan: seq<Planned>, plan': seq<Planned>,
                   modelTensors: map<string, seq<Tid>>, createdAt: seq<(string, int)>,
                   modelTensors': map<string, seq<Tid>>, createdAt': seq<(string, int)>)
    requires IsDict(plan) && IsDict(plan') && multiset(plan) == multiset(plan')
    requires Visited(modelTensors, createdAt) == Visited(modelTensors', createdAt')
    ensures OriginalBytes(sizes, plan, Visited(modelTensors, createdAt))
      == OriginalBytes(sizes, plan', Visited(modelTensors', createdAt'))
    ensures StoredBytes(sizes, plan, Visited(modelTensors, createdAt))
      == StoredBytes(sizes, plan', Visited(modelTensors', createdAt'))
  {
    hide SumOver, Reached, Surviving, Visited;
    PricedIsPlan(sizes, plan);
    PricedIsPlan(sizes, plan');
    PricedInAnyOrder(sizes, plan, plan');
    SameSurvive(PricedPlan(sizes, plan), PricedPlan(sizes, plan'));
  }
}
