/** The evictor's watermark pass over the hot cache, and the two scores it can order by. */
module Evictor {
  import opened Reals
  import opened Forest
  import opened Sequences

  /** A cached entry as the directory listing reports it. */
  datatype Resident = Resident(tid: Tid, size: nat, atime: real)

  // ---- scores

  ghost function Worth(s: set<Tid>, cost: map<Tid, real>): real {
    if s == {} then 0.0
    else
      var d :| d in s;
      (if d in cost then cost[d] else 0.0) + Worth(s - {d}, cost)
  }

  lemma {:induction false} WorthWithout(s: set<Tid>, cost: map<Tid, real>, d: Tid)
    requires d in s
    ensures Worth(s, cost) == (if d in cost then cost[d] else 0.0) + Worth(s - {d}, cost)
    decreases |s|
  {
    var e :| e in s && Worth(s, cost) == (if e in cost then cost[e] else 0.0) + Worth(s - {e}, cost);
    if e != d {
      WorthWithout(s - {e}, cost, d);
      WorthWithout(s - {d}, cost, e);
      assert s - {e} - {d} == s - {d} - {e};
    }
  }

  lemma {:induction false} WorthGrows(s: set<Tid>, t: set<Tid>, cost: map<Tid, real>)
    requires s <= t && forall d | d in cost :: cost[d] >= 0.0
    ensures 0.0 <= Worth(s, cost) <= Worth(t, cost)
    decreases |t|
  {
    if d :| d in t && d !in s {
      WorthWithout(t, cost, d);
      WorthGrows(s, t - {d}, cost);
    } else {
      assert s == t;
      if d :| d in t {
        WorthWithout(t, cost, d);
        WorthGrows(t - {d}, t - {d}, cost);
      }
    }
  }

  const RECENCY: real := 0.000000000001

  /** `dag_value`: what it would cost to bring the entry and its resident dependents back, per
      byte, with a trace of recency. */
  ghost function DagValue(rdeps: map<Tid, set<Tid>>, cost: map<Tid, real>, resident: set<Tid>, e: Resident): real {
    var own := if e.tid in cost then cost[e.tid] else e.size as real;
    var deps := if e.tid in rdeps then rdeps[e.tid] * resident else {};
    (own + Worth(deps, cost)) / AtLeastOne(e.size as real) + RECENCY * e.atime
  }

  /** The score, spread over the bytes of the entry: its own cost, or its size if that is not
      known, the costs of its resident dependents, and a trace of its age. */
  lemma DagMeans(rdeps: map<Tid, set<Tid>>, cost: map<Tid, real>, resident: set<Tid>, e: Resident)
    ensures (DagValue(rdeps, cost, resident, e) - e.atime / 1000000000000.0) * (if e.size
      >= 1 then e.size else 1) as real
      == (if e.tid in cost then cost[e.tid] else e.size as real)
        + Worth(if e.tid in rdeps then rdeps[e.tid] * resident else {}, cost)
  {
    var own := if e.tid in cost then cost[e.tid] else e.size as real;
    var x := own + Worth(if e.tid in rdeps then rdeps[e.tid] * resident else {}, cost);
    assert x / AtLeastOne(e.size as real) * AtLeastOne(e.size as real) == x;
    hide Worth;
  }

  /** One more resident dependent adds its cost, spread over the bytes of its base. */
  lemma DependentAdds(rdeps: map<Tid, set<Tid>>, cost: map<Tid, real>, resident: set<Tid>, e: Resident, d: Tid)
    requires d !in resident && e.tid in rdeps && d in rdeps[e.tid] && d in cost
    ensures (DagValue(rdeps, cost, resident + {d}, e) - DagValue(rdeps, cost, resident, e))
      * (if e.size >= 1 then e.size else 1) as real == cost[d]
  {
    DagMeans(rdeps, cost, resident, e);
    DagMeans(rdeps, cost, resident + {d}, e);
    var deps := rdeps[e.tid] * (resident + {d});
    WorthWithout(deps, cost, d);
    assert deps - {d} == rdeps[e.tid] * resident;
    hide DagValue, Worth;
  }

  /** A base is worth more while more of what is stored against it is resident. */
  lemma DependentsProtect(rdeps: map<Tid, set<Tid>>, cost: map<Tid, real>, fewer: set<Tid>, more: set<Tid>, e: Resident)
    requires fewer <= more && forall d | d in cost :: cost[d] >= 0.0
    ensures DagValue(rdeps, cost, fewer, e) <= DagValue(rdeps, cost, more, e)
  {
    var own := if e.tid in cost then cost[e.tid] else e.size as real;
    if e.tid in rdeps {
      WorthGrows(rdeps[e.tid] * fewer, rdeps[e.tid] * more, cost);
      QuotientGrows(own + Worth(rdeps[e.tid] * fewer, cost), own + Worth(rdeps[e.tid] * more, cost),
        AtLeastOne(e.size as real));
    }
  }

  // ---- the pass

  /** `locked` are entries whose file cannot be unlinked. */
  datatype Guard = Guard(pinned: set<Tid>, now: real, minAge: real, locked: set<Tid>)

  predicate Evictable(g: Guard, e: Resident) {
    e.tid !in g.pinned && g.now - e.atime >= g.minAge && e.tid !in g.locked
  }

  ghost function Victims(g: Guard, es: seq<Resident>): (v: seq<Resident>)
    ensures forall e :: e in v <==> e in es && Evictable(g, e)
  {
    if es == [] then []
    else
      var last := |es| - 1;
      assert es == es[..last] + [es[last]];
      Victims(g, es[..last]) + if Evictable(g, es[last]) then [es[last]] else []
  }

  ghost function SizeOf(es: seq<Resident>): nat {
    if es == [] then 0 else SizeOf(es[..|es| - 1]) + es[|es| - 1].size
  }

  ghost predicate Ascending(score: Resident -> real, es: seq<Resident>) {
    forall i, j | 0 <= i < j < |es| :: score(es[i]) <= score(es[j])
  }

  /** `sorted` is a permutation of `entries`, lowest score first. */
  ghost predicate Resorted(score: Resident -> real, entries: seq<Resident>, sorted: seq<Resident>) {
    Ascending(score, sorted) && multiset(sorted) == multiset(entries) && SizeOf(sorted) == SizeOf(entries)
  }

  lemma OneMoreEntry(entries: seq<Resident>, i: nat)
    requires i < |entries|
    ensures multiset(entries[..i + 1]) == multiset(entries[..i]) + multiset{entries[i]}
    ensures SizeOf(entries[..i + 1]) == SizeOf(entries[..i]) + entries[i].size
  {
    assert entries[..i + 1] == entries[..i] + [entries[i]];
    assert entries[..i + 1][..i] == entries[..i];
  }

  lemma InsertSorted(score: Resident -> real, es: seq<Resident>, e: Resident, k: nat)
    requires Ascending(score, es) && k <= |es| && forall j | 0 <= j < k :: score(es[j]) <= score(e)
    requires k < |es| ==> score(e) < score(es[k])
    ensures Ascending(score, es[..k] + [e] + es[k..])
  {
    var r := es[..k] + [e] + es[k..];
    forall j | k < j < |r| ensures r[j] == es[j - 1] && score(e) <= score(r[j]) {
    }
  }

  lemma SizeOfOne(e: Resident)
    ensures SizeOf([e]) == e.size
  {
    assert [e][..0] == [];
  }

  lemma {:induction false} SizeJoin(xs: seq<Resident>, ys: seq<Resident>)
    ensures SizeOf(xs + ys) == SizeOf(xs) + SizeOf(ys)
  {
    if ys == [] {
      assert xs + ys == xs;
    } else {
      SizeJoin(xs, ys[..|ys| - 1]);
      assert (xs + ys)[..|xs + ys| - 1] == xs + ys[..|ys| - 1];
    }
  }

  lemma InsertSize(es: seq<Resident>, e: Resident, k: nat)
    requires k <= |es|
    ensures SizeOf(es[..k] + [e] + es[k..]) == SizeOf(es) + e.size
  {
    hide SizeOf;
    SizeJoin(es[..k] + [e], es[k..]);
    SizeJoin(es[..k], [e]);
    SizeJoin(es[..k], es[k..]);
    SizeOfOne(e);
    assert es == es[..k] + es[k..];
  }

  lemma SortOne(score: Resident -> real, entries: seq<Resident>, i: nat, sorted: seq<Resident>, k: nat)
    requires i < |entries| && Resorted(score, entries[..i], sorted) && k <= |sorted|
    requires forall j | 0 <= j < k :: score(sorted[j]) <= score(entries[i])
    requires k < |sorted| ==> score(entries[i]) < score(sorted[k])
    ensures Resorted(score, entries[..i + 1], sorted[..k] + [entries[i]] + sorted[k..])
  {
    hide Ascending, SizeOf;
    InsertSorted(score, sorted, entries[i], k);
    InsertSize(sorted, entries[i], k);
    OneMoreEntry(entries, i);
    assert sorted == sorted[..k] + sorted[k..];
  }

  lemma NothingSorted(score: Resident -> real)
    ensures Resorted(score, [], [])
  {
  }

  method SortByScore(score: Resident -> real, entries: seq<Resident>) returns (sorted: seq<Resident>)
    ensures Resorted(score, entries, sorted)
  {
    hide Resorted, Ascending;
    sorted := [];
    NothingSorted(score);
    for i := 0 to |entries|
      invariant Resorted(score, entries[..i], sorted)
    {
      var k := 0;
      while k < |sorted| && score(sorted[k]) <= score(entries[i])
        invariant k <= |sorted| && forall j | 0 <= j < k :: score(sorted[j]) <= score(entries[i])
      {
        k := k + 1;
      }
      SortOne(score, entries, i, sorted, k);
      sorted := sorted[..k] + [entries[i]] + sorted[k..];
    }
    assert entries[..|entries|] == entries;
  }

  lemma VictimsSnoc(g: Guard, es: seq<Resident>, k: nat)
    requires k < |es|
    ensures Victims(g, es[..k + 1]) == Victims(g, es[..k]) + if Evictable(g, es[k]) then [es[k]] else []
    ensures SizeOf(Victims(g, es[..k + 1]))
      == SizeOf(Victims(g, es[..k])) + if Evictable(g, es[k]) then es[k].size else 0
  {
    assert es[..k + 1][..k] == es[..k];
    var v := Victims(g, es[..k]);
    assert (v + [es[k]])[..|v|] == v;
    assert v + [] == v;
  }

  /** The pass looked at the `stop` lowest scores; `drop` is what it had to free. */
  ghost predicate StopsThere(g: Guard, sorted: seq<Resident>, stop: nat, drop: real, total: nat) {
    && stop <= |sorted|
    && (stop < |sorted| ==>
      SizeOf(Victims(g, sorted[..stop])) as real >= drop || SizeOf(Victims(g, sorted[..stop])) >= total)
    && forall k | 0 <= k < stop ::
      (SizeOf(Victims(g, sorted[..k])) as real) < drop && SizeOf(Victims(g, sorted[..k])) < total
  }

  ghost predicate Passing(g: Guard, sorted: seq<Resident>, i: nat, drop: real, total: nat, evicted: seq<Resident>,
                          freed: nat)
  {
    && i <= |sorted| && evicted == Victims(g, sorted[..i]) && freed == SizeOf(evicted)
    && forall k | 0 <= k < i ::
      (SizeOf(Victims(g, sorted[..k])) as real) < drop && SizeOf(Victims(g, sorted[..k])) < total
  }

  lemma StartPassing(g: Guard, sorted: seq<Resident>, drop: real, total: nat)
    ensures Passing(g, sorted, 0, drop, total, [], 0)
  {
  }

  lemma PassOne(g: Guard, sorted: seq<Resident>, i: nat, drop: real, total: nat, evicted: seq<Resident>, freed: nat)
    requires i < |sorted| && Passing(g, sorted, i, drop, total, evicted, freed)
    requires (freed as real) < drop && freed < total
    ensures Evictable(g, sorted[i]) ==>
      Passing(g, sorted, i + 1, drop, total, evicted + [sorted[i]], freed + sorted[i].size)
    ensures !Evictable(g, sorted[i]) ==> Passing(g, sorted, i + 1, drop, total, evicted, freed)
  {
    hide Victims, SizeOf, Evictable;
    VictimsSnoc(g, sorted, i);
  }

  lemma PassEnds(g: Guard, sorted: seq<Resident>, i: nat, drop: real, total: nat, evicted: seq<Resident>, freed: nat)
    requires Passing(g, sorted, i, drop, total, evicted, freed)
    requires i < |sorted| ==> freed as real >= drop || freed >= total
    ensures StopsThere(g, sorted, i, drop, total) && evicted == Victims(g, sorted[..i]) && freed == SizeOf(evicted)
  {
    hide Victims, SizeOf;
  }

  /** Pinned, younger than the least age, or with a file that cannot be unlinked. */
  ghost predicate Kept(g: Guard, e: Resident) {
    e.tid in g.pinned || g.now < e.atime + g.minAge || e.tid in g.locked
  }

  lemma VictimsMayGo(score: Resident -> real, entries: seq<Resident>, g: Guard, sorted: seq<Resident>, stop: nat)
    requires stop <= |sorted| && Resorted(score, entries, sorted)
    ensures forall e | e in Victims(g, sorted[..stop]) :: e in entries && !Kept(g, e)
    ensures forall e | e in sorted[..stop] && e !in Victims(g, sorted[..stop]) :: Kept(g, e)
  {
    forall e | e in sorted[..stop] ensures e in entries {
      assert e in multiset(sorted);
      assert e in multiset(entries);
    }
    hide Victims, Resorted;
  }

  method TotalSize(entries: seq<Resident>) returns (n: int)
    ensures n == SizeOf(entries)
  {
    n := 0;
    for i := 0 to |entries|
      invariant n == SizeOf(entries[..i])
    {
      assert entries[..i + 1][..i] == entries[..i];
      n := n + entries[i].size;
    }
    assert entries[..|entries|] == entries;
  }

  method EvictPass(entries: seq<Resident>, score: Resident -> real, g: Guard, used: real, high: real, low: real)
    returns (evicted: seq<Resident>, freed: nat, ghost sorted: seq<Resident>, ghost stop: nat)
    ensures used < high ==> evicted == [] && freed == 0
    ensures used >= high ==>
      && Resorted(score, entries, sorted)
      && StopsThere(g, sorted, stop, used - low, SizeOf(entries))
      && evicted == Victims(g, sorted[..stop])
      && freed == SizeOf(evicted)
    ensures forall e | e in evicted :: e in entries && !Kept(g, e)
    ensures used >= high ==> forall e | e in sorted[..stop] && e !in evicted :: Kept(g, e)
  {
    hide Victims, SizeOf, Evictable, Passing, Resorted, StopsThere;
    evicted, freed, sorted, stop := [], 0, [], 0;
    if used < high {
      return;
    }
    var order := SortByScore(score, entries);
    sorted := order;
    var dirUsed := TotalSize(entries);
    ghost var total := SizeOf(entries);
    var drop := used - low;
    var i := 0;
    StartPassing(g, order, drop, total);
    while i < |order| && !(freed as real >= drop || dirUsed <= 0)
      invariant i <= |order| && dirUsed == total - freed && Passing(g, order, i, drop, total, evicted, freed)
    {
      var e := order[i];
      PassOne(g, order, i, drop, total, evicted, freed);
      if Evictable(g, e) {
        evicted, freed, dirUsed := evicted + [e], freed + e.size, dirUsed - e.size;
      }
      i := i + 1;
    }
    stop := i;
    PassEnds(g, order, i, drop, total, evicted, freed);
    VictimsMayGo(score, entries, g, sorted, stop);
  }

  lemma Survivor(entries: seq<Resident>, g: Guard, sorted: seq<Resident>, stop: nat, u: Resident) returns (j: nat)
    requires multiset(sorted) == multiset(entries) && stop <= |sorted|
    requires u in entries && Evictable(g, u) && u !in Victims(g, sorted[..stop])
    ensures stop <= j < |sorted| && sorted[j] == u
  {
    assert u in multiset(sorted);
    assert forall i | 0 <= i < stop :: sorted[..stop][i] == sorted[i] && sorted[i] in sorted[..stop];
    j :| j < |sorted| && sorted[j] == u;
  }

  lemma VictimAt(g: Guard, sorted: seq<Resident>, stop: nat, v: Resident) returns (i: nat)
    requires stop <= |sorted| && v in Victims(g, sorted[..stop])
    ensures i < stop && sorted[i] == v && Evictable(g, v)
  {
    i :| i < stop && sorted[..stop][i] == v;
  }

  lemma {:induction false} VictimsFit(g: Guard, es: seq<Resident>)
    ensures SizeOf(Victims(g, es)) <= SizeOf(es)
  {
    if es != [] {
      var last := |es| - 1;
      VictimsFit(g, es[..last]);
      VictimsSnoc(g, es, last);
      assert es[..last + 1] == es;
    }
  }

  lemma {:induction false} OneFits(es: seq<Resident>, j: nat)
    requires j < |es|
    ensures es[j].size <= SizeOf(es)
  {
    if j < |es| - 1 {
      OneFits(es[..|es| - 1], j);
    }
  }

  /** What a pass means: only entries that may go are evicted, none of them scored higher than
      an evictable entry that stays, the pass freed enough unless nothing evictable of any
      size is left, and it did not free more than it had to. */
  lemma PassMeaning(entries: seq<Resident>, score: Resident -> real, g: Guard, sorted: seq<Resident>, stop: nat,
                    drop: real)
    requires Resorted(score, entries, sorted) && StopsThere(g, sorted, stop, drop, SizeOf(entries))
    ensures forall v | v in Victims(g, sorted[..stop]) :: v in entries && Evictable(g, v)
    ensures forall v, u | v in Victims(g, sorted[..stop]) && u in entries && Evictable(g, u) &&
      u !in Victims(g, sorted[..stop]) ::
      score(v) <= score(u)
    ensures SizeOf(Victims(g, sorted[..stop])) as real >= drop
      || forall u | u in entries && Evictable(g, u) && u !in Victims(g, sorted[..stop]) :: u.size == 0
    ensures stop > 0 ==> (SizeOf(Victims(g, sorted[..stop - 1])) as real) < drop
    ensures stop > 0 ==> SizeOf(Victims(g, sorted[..stop - 1])) < SizeOf(entries)
  {
    hide Victims, SizeOf, Evictable;
    var done := Victims(g, sorted[..stop]);
    forall v | v in done ensures v in entries && Evictable(g, v) {
      var i := VictimAt(g, sorted, stop, v);
      assert v in multiset(sorted);
    }
    forall v, u | v in done && u in entries && Evictable(g, u) && u !in done ensures score(v) <= score(u) {
      var i := VictimAt(g, sorted, stop, v);
      var j := Survivor(entries, g, sorted, stop, u);
    }
    if (SizeOf(done) as real) < drop {
      forall u | u in entries && Evictable(g, u) && u !in done ensures u.size == 0 {
        var j := Survivor(entries, g, sorted, stop, u);
        VictimsFit(g, sorted[..stop]);
        SizeJoin(sorted[..stop], sorted[stop..]);
        assert sorted == sorted[..stop] + sorted[stop..];
        assert sorted[stop..][j - stop] == u;
        OneFits(sorted[stop..], j - stop);
      }
    }
  }
}
