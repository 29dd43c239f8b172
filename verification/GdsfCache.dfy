/** The simulator's GreedyDual-Size-Frequency cache, whose heap holds stale pairs, against
    the policy it implements: evict the resident of least priority until the item fits. */
module GdsfCache {
  import opened Sequences
  import opened LazyHeap

  /** The resident of least priority, the smaller id on ties. */
  ghost predicate IsVictim(pri: map<nat, real>, v: nat) {
    v in pri && forall u | u in pri :: pri[v] < pri[u] || (pri[v] == pri[u] && v <= u)
  }

  lemma VictimUnique(pri: map<nat, real>, v: nat, w: nat)
    requires IsVictim(pri, v) && IsVictim(pri, w)
    ensures v == w
  {
  }

  lemma {:induction false} VictimExists(pri: map<nat, real>)
    requires pri != map[]
    ensures exists v :: IsVictim(pri, v)
    decreases |pri|
  {
    var i :| i in pri;
    SmallerWithout(pri, i);
    if pri - {i} == map[] {
      assert IsVictim(pri, i) by {
        assert forall u | u in pri && u != i :: u in pri - {i};
      }
    } else {
      VictimExists(pri - {i});
      var w :| IsVictim(pri - {i}, w);
      assert forall u | u in pri && u != i :: u in pri - {i};
      assert IsVictim(pri, if Leq((pri[i], i), (pri[w], w)) then i else w);
    }
  }

  ghost function Victim(pri: map<nat, real>): (v: nat)
    requires pri != map[]
    ensures IsVictim(pri, v)
  {
    VictimExists(pri);
    var v :| IsVictim(pri, v);
    v
  }

  /** The eager policy: what is left of the residents once `size` more bytes fit. */
  ghost function Fit(res: map<nat, real>, pri: map<nat, real>, cap: real, size: real): (left: map<nat, real>)
    requires pri.Keys == res.Keys
    decreases |res|
  {
    if res == map[] || Bytes(res) + size <= cap then res
    else
      var i :| i in res;
      assert pri != map[];
      SmallerWithout(res, Victim(pri));
      Fit(res - {Victim(pri)}, pri - {Victim(pri)}, cap, size)
  }

  lemma FitStep(res: map<nat, real>, pri: map<nat, real>, cap: real, size: real)
    requires pri.Keys == res.Keys && res != map[] && Bytes(res) + size > cap
    ensures pri != map[]
    ensures Fit(res, pri, cap, size) == Fit(res - {Victim(pri)}, pri - {Victim(pri)}, cap, size)
  {
    var i :| i in res;
    assert i in pri;
  }

  /** What the eager policy means: it stops as soon as the item fits, and everything it
      evicted has a priority no higher than anything it kept. */
  lemma {:induction false} FitKeepsTheBest(res: map<nat, real>, pri: map<nat, real>, cap: real, size: real)
    requires pri.Keys == res.Keys
    ensures var left := Fit(res, pri, cap, size);
      && left.Keys <= res.Keys
      && (left == map[] || Bytes(left) + size <= cap)
      && (forall u | u in left :: left[u] == res[u])
      && forall v, u | v in res && v !in left && u in left :: Leq((pri[v], v), (pri[u], u))
    decreases |res|
  {
    if res != map[] && Bytes(res) + size > cap {
      FitStep(res, pri, cap, size);
      var first, left := Victim(pri), Fit(res, pri, cap, size);
      hide Fit, Bytes;
      SmallerWithout(res, first);
      FitKeepsTheBest(res - {first}, pri - {first}, cap, size);
      forall v, u | v in res && v !in left && u in left ensures Leq((pri[v], v), (pri[u], u)) {
        assert u in res - {first};
        assert v != first ==> v in res - {first};
      }
    }
  }

  ghost predicate LastToGo(res: map<nat, real>, pri: map<nat, real>, cap: real, size: real, left: map<nat, real>,
                           v: nat)
  {
    && v in res && v !in left && pri.Keys == res.Keys
    && Bytes(left[v := res[v]]) + size > cap
    && forall u | u in res && u !in left :: Leq((pri[u], u), (pri[v], v))
  }

  lemma LaterLastToGo(res: map<nat, real>, pri: map<nat, real>, cap: real, size: real, left: map<nat, real>, first: nat,
                      v: nat)
    requires IsVictim(pri, first) && pri.Keys == res.Keys
    requires LastToGo(res - {first}, pri - {first}, cap, size, left, v)
    ensures LastToGo(res, pri, cap, size, left, v)
  {
    hide Bytes;
    assert forall u | u in res && u != first :: u in res - {first};
  }

  /** The eager policy evicts no more than it must: the last one to go, of the highest priority
      among those gone, was still in the way. */
  lemma {:induction false} FitNoMore(res: map<nat, real>, pri: map<nat, real>, cap: real, size: real)
    requires pri.Keys == res.Keys
    ensures Bytes(res) + size <= cap ==> Fit(res, pri, cap, size) == res
    ensures Fit(res, pri, cap, size) != res ==> exists v :: LastToGo(res, pri, cap, size, Fit(res, pri, cap, size), v)
    decreases |res|
  {
    if res != map[] && Bytes(res) + size > cap {
      FitStep(res, pri, cap, size);
      var first, left := Victim(pri), Fit(res, pri, cap, size);
      SmallerWithout(res, first);
      FitKeepsTheBest(res - {first}, pri - {first}, cap, size);
      FitNoMore(res - {first}, pri - {first}, cap, size);
      hide Fit, Bytes;
      if left == res - {first} {
        assert left[first := res[first]] == res;
        assert LastToGo(res, pri, cap, size, left, first);
      } else {
        var v :| LastToGo(res - {first}, pri - {first}, cap, size, left, v);
        LaterLastToGo(res, pri, cap, size, left, first, v);
      }
    }
  }

  /** Residents keep their priority; the clock stands at the highest priority evicted. */
  ghost predicate Aged(res0: map<nat, real>, pri0: map<nat, real>, clock0: real, res: map<nat, real>,
                       pri: map<nat, real>, clock: real)
  {
    && clock >= clock0
    && (forall u | u in pri :: u in pri0 && pri[u] == pri0[u])
    && (forall v | v in pri0 && v !in res :: pri0[v] <= clock)
    && (clock == clock0 || exists v :: v in pri0 && v !in pri && pri0[v] == clock)
  }

  /** Every priority is in the heap. */
  ghost predicate AllFiled(pri: map<nat, real>, heap: seq<Pair>) {
    forall j | j in pri :: (pri[j], j) in heap
  }

  /** A pair that is not some resident's current one can go. */
  lemma StaleSkipped(pri: map<nat, real>, heap: seq<Pair>, rest: seq<Pair>, e: Pair)
    requires AllFiled(pri, heap) && forall f | f in heap && f != e :: f in rest
    requires e.1 !in pri || pri[e.1] != e.0
    ensures AllFiled(pri, rest)
  {
    forall u | u in pri ensures (pri[u], u) in rest {
      assert (pri[u], u) in heap && (pri[u], u) != e;
    }
  }

  /** The least pair, when current, names the resident of least priority. */
  lemma PoppedIsVictim(pri: map<nat, real>, heap: seq<Pair>, rest: seq<Pair>, e: Pair)
    requires AllFiled(pri, heap) && (forall f | f in heap :: Leq(e, f)) && forall f | f in heap && f != e :: f in rest
    requires e.1 in pri && pri[e.1] == e.0
    ensures e.1 == Victim(pri) && AllFiled(pri - {e.1}, rest)
    ensures forall u | u in pri :: e.0 <= pri[u]
  {
    forall u | u in pri ensures Leq(e, (pri[u], u)) {
      assert (pri[u], u) in heap;
    }
    assert IsVictim(pri, e.1);
    VictimUnique(pri, e.1, Victim(pri));
    forall u | u in pri - {e.1} ensures (pri[u], u) in rest {
      assert (pri[u], u) in heap && (pri[u], u) != e;
    }
  }

  lemma SomeFiled(pri: map<nat, real>, heap: seq<Pair>)
    requires AllFiled(pri, heap) && pri != map[]
    ensures heap != []
  {
    var u :| u in pri;
    assert (pri[u], u) in heap;
  }

  lemma FiledToo(pri: map<nat, real>, heap: seq<Pair>, i: nat, p: real)
    requires AllFiled(pri, heap)
    ensures AllFiled(pri[i := p], heap + [(p, i)])
  {
  }

  lemma RatioNonNegative(n: nat, cost: real, size: real)
    requires size >= 1.0
    ensures cost >= 0.0 ==> n as real * (cost / size) >= 0.0
  {
    if cost >= 0.0 {
      assert cost / size >= 0.0;
    }
  }

  /** Clock plus frequency times cost per byte, sizes below one byte counting as one. */
  function RateOf(clock: real, freq: nat, cost: real, size: real): (p: real)
    ensures cost >= 0.0 ==> p >= clock
  {
    var bytes := if size < 1.0 then 1.0 else size;
    RatioNonNegative(freq, cost, bytes);
    clock + freq as real * (cost / bytes)
  }

  /** A rate lies above the clock by what the last miss cost, per byte and for each access. */
  ghost predicate IsRate(clock: real, freq: nat, cost: real, size: real, rate: real) {
    (rate - clock) * (if size >= 1.0 then size else 1.0) == freq as real * cost
  }

  lemma QuotientBack(n: real, cost: real, bytes: real)
    requires bytes > 0.0
    ensures n * (cost / bytes) * bytes == n * cost
  {
    assert cost / bytes * bytes == cost;
    assert n * (cost / bytes) * bytes == n * (cost / bytes * bytes);
  }

  lemma RateMeans(clock: real, freq: nat, cost: real, size: real)
    ensures IsRate(clock, freq, cost, size, RateOf(clock, freq, cost, size))
  {
    var bytes := if size < 1.0 then 1.0 else size;
    QuotientBack(freq as real, cost, bytes);
  }

  lemma ProductGrows(x: real, y: real, a: real, b: real)
    requires 0.0 < x <= y && 0.0 < a <= b && (x < y || a < b)
    ensures x * a < y * b
  {
    assert y * b - x * a == (y - x) * b + x * (b - a);
    assert (y - x) * b >= 0.0 && x * (b - a) >= 0.0;
    if x < y {
      assert (y - x) * b > 0.0;
    } else {
      assert x * (b - a) > 0.0;
    }
  }

  /** More accesses rate higher, if a miss costs anything; so does a costlier miss. */
  lemma RateGrows(clock: real, freq: nat, freq': nat, cost: real, cost': real, size: real)
    requires freq <= freq' && 0.0 < cost <= cost' && 0 < freq && (freq < freq' || cost < cost')
    ensures RateOf(clock, freq, cost, size) < RateOf(clock, freq', cost', size)
  {
    var bytes := if size < 1.0 then 1.0 else size;
    assert cost' / bytes - cost / bytes == (cost' - cost) / bytes;
    QuotientBack(1.0, cost, bytes);
    QuotientBack(1.0, cost' - cost, bytes);
    ProductGrows(freq as real, freq' as real, cost / bytes, cost' / bytes);
  }

  lemma StartsAged(res: map<nat, real>, pri: map<nat, real>, clock: real)
    requires pri.Keys == res.Keys
    ensures Aged(res, pri, clock, res, pri, clock)
  {
  }

  lemma AgedStep(res0: map<nat, real>, pri0: map<nat, real>, clock0: real, res: map<nat, real>, pri: map<nat, real>,
                 clock: real, v: nat)
    requires Aged(res0, pri0, clock0, res, pri, clock) && IsVictim(pri, v) && clock <= pri[v] && pri.Keys == res.Keys
    ensures Aged(res0, pri0, clock0, res - {v}, pri - {v}, pri[v])
  {
  }

  lemma AgedAdmit(res0: map<nat, real>, pri0: map<nat, real>, clock0: real, res: map<nat, real>, pri: map<nat, real>,
                  clock: real,
                  i: nat, size: real)
    requires Aged(res0, pri0, clock0, res, pri, clock)
    ensures Aged(res0, pri0, clock0, res[i := size], pri, clock)
  {
  }

  lemma FitSubset(res: map<nat, real>, pri: map<nat, real>, cap: real, size: real)
    requires pri.Keys == res.Keys
    ensures forall i | i !in res :: i !in Fit(res, pri, cap, size)
  {
    FitKeepsTheBest(res, pri, cap, size);
  }

  lemma FitDone(res: map<nat, real>, pri: map<nat, real>, used: real, cap: real, size: real)
    requires pri.Keys == res.Keys && used == Bytes(res) && used + size <= cap
    ensures Fit(res, pri, cap, size) == res
  {
  }

  class GDSF {
    const cap: real
    var res: map<nat, real>
    var used: real
    var clockv: real
    var freq: map<nat, nat>
    var pri: map<nat, real>
    var lastCost: map<nat, real>
    var heap: seq<Pair>

    /** The state while the items `unrated` are resident but have no priority yet. */
    ghost predicate ValidBut(unrated: set<nat>)
      reads this
    {
      && Accounted(res, used, cap)
      && pri.Keys == res.Keys - unrated
      && AllFiled(pri, heap)
      && (forall i | i in pri :: clockv <= pri[i])
      && (forall i | i in lastCost :: lastCost[i] >= 0.0)
    }

    /** Every resident has its current priority in the heap, and the clock has not passed it. */
    ghost predicate Valid()
      reads this
    {
      ValidBut({})
    }

    constructor (cap: real)
      ensures Valid() && res == map[] && this.cap == cap
    {
      this.cap := cap;
      res, used, clockv, freq, pri, lastCost, heap := map[], 0.0, 0.0, map[], map[], map[], [];
    }

    method NoteMissCost(i: nat, cost: real)
      requires Valid() && cost >= 0.0
      modifies this
      ensures Valid() && lastCost == old(lastCost)[i := cost]
      ensures res == old(res) && pri == old(pri) && freq == old(freq) && clockv == old(clockv) && used == old(used)
    {
      lastCost := lastCost[i := cost];
    }

    /** The priority `_repri` gives a resident. */
    function Rating(i: nat): (p: real)
      requires i in res
      reads this
      ensures res[i] >= 0.0 && (i in lastCost ==> lastCost[i] >= 0.0) ==> p >= clockv
    {
      RateOf(clockv, Freq(i), if i in lastCost then lastCost[i] else res[i], res[i])
    }

    function Freq(i: nat): nat
      reads this
    {
      if i in freq then freq[i] else 0
    }

    /** `i` is rated by its accesses and its last miss, or its size if it never missed. */
    ghost predicate Rated(i: nat)
      reads this
    {
      && i in res && i in pri
      && IsRate(clockv, if i in freq then freq[i] else 0, if i in lastCost then lastCost[i] else res[i], res[i], pri[i])
    }

    method Repri(i: nat)
      requires ValidBut({i}) || Valid()
      requires i in res
      modifies this
      ensures Valid() && res == old(res) && used == old(used) && freq == old(freq) && clockv == old(clockv)
      ensures pri == old(pri)[i := Rating(i)] && lastCost == old(lastCost)
      ensures Rated(i)
    {
      var p := Rating(i);
      RateMeans(clockv, Freq(i), if i in lastCost then lastCost[i] else res[i], res[i]);
      hide Accounted, RateOf, IsRate;
      FiledToo(pri, heap, i, p);
      pri := pri[i := p];
      heap := heap + [(p, i)];
    }

    method Touch(i: nat)
      requires Valid()
      modifies this
      ensures Valid() && res == old(res) && used == old(used) && clockv == old(clockv) && lastCost == old(lastCost)
      ensures freq == old(freq)[i := old(Freq(i)) + 1]
      ensures i in res ==> pri == old(pri)[i := Rating(i)] && Rated(i)
      ensures i !in res ==> pri == old(pri)
    {
      freq := freq[i := Freq(i) + 1];
      if i in res {
        Repri(i);
      }
    }

    /** Skips stale pairs; the first current one is the least priority of all residents. */
    method EvictOne() returns (ok: bool)
      requires Valid()
      modifies this
      ensures Valid() && ok == (old(res) != map[])
      ensures freq == old(freq) && lastCost == old(lastCost)
      ensures !ok ==> res == old(res) && pri == old(pri) && clockv == old(clockv) && used == old(used)
      ensures ok ==>
        var v := Victim(old(pri));
        && v in old(res)
        && res == old(res) - {v} && pri == old(pri) - {v} && used == old(used) - old(res)[v]
        && clockv == old(pri)[v]
    {
      hide Accounted, AllFiled, IsVictim;
      while heap != []
        invariant Valid()
        invariant res == old(res) && pri == old(pri) && used == old(used) && clockv == old(clockv)
        invariant freq == old(freq) && lastCost == old(lastCost)
        decreases |heap|
      {
        var e, rest;
        ghost var at;
        e, rest, at := PopLeast(heap);
        var (p, v) := e;
        ghost var before := heap;
        heap := rest;
        if v !in res || v !in pri || pri[v] != p {
          StaleSkipped(pri, before, rest, e);
        } else {
          PoppedIsVictim(pri, before, rest, e);
          clockv := if clockv < p then p else clockv;
          pri := pri - {v};
          AccountedWithout(res, used, cap, v);
          used := used - res[v];
          res := res - {v};
          return true;
        }
      }
      if pri != map[] {
        SomeFiled(pri, heap);
      }
      return false;
    }

    /** The loop of `admit`: evicts exactly what the eager policy evicts. */
    method MakeRoom(size: real)
      requires Valid() && 0.0 <= size <= cap
      modifies this
      ensures Valid() && used + size <= cap
      ensures freq == old(freq) && lastCost == old(lastCost)
      ensures res == Fit(old(res), old(pri), cap, size)
      ensures Aged(old(res), old(pri), old(clockv), res, pri, clockv)
    {
      hide Aged, Fit, Bytes;
      StartsAged(res, pri, clockv);
      while used + size > cap
        invariant Valid()
        invariant freq == old(freq) && lastCost == old(lastCost)
        invariant Fit(res, pri, cap, size) == Fit(old(res), old(pri), cap, size)
        invariant Aged(old(res), old(pri), old(clockv), res, pri, clockv)
        decreases |res|
      {
        EmptyUnused(res, used, cap);
        FitStep(res, pri, cap, size);
        SmallerWithout(res, Victim(pri));
        AgedStep(old(res), old(pri), old(clockv), res, pri, clockv, Victim(pri));
        var ok := EvictOne();
        assert ok;
      }
      FitDone(res, pri, used, cap, size);
    }

    /** Admits every item that can fit. */
    method Admit(i: nat, size: real)
      requires Valid() && i !in res && size >= 0.0
      modifies this
      ensures freq == old(freq) && lastCost == old(lastCost)
      ensures size > cap ==> Valid() && res == old(res) && pri == old(pri) && clockv == old(clockv)
      ensures size <= cap ==>
        && ValidBut({i})
        && res == Fit(old(res), old(pri), cap, size)[i := size]
        && Aged(old(res), old(pri), old(clockv), res, pri, clockv)
    {
      hide Aged, Fit, Accounted;
      if size > cap {
        return;
      }
      MakeRoom(size);
      FitSubset(old(res), old(pri), cap, size);
      AccountedWith(res, used, cap, i, size);
      AgedAdmit(old(res), old(pri), old(clockv), res, pri, clockv, i, size);
      res := res[i := size];
      used := used + size;
    }

    method OnServe(i: nat, size: real)
      requires Valid() && i !in res && size >= 0.0
      modifies this
      ensures Valid() && lastCost == old(lastCost) && freq == old(freq)[i := old(Freq(i)) + 1]
      ensures size > cap ==> res == old(res)
      ensures size <= cap ==>
        && i in res && res == Fit(old(res), old(pri), cap, size)[i := size]
        && pri[i] == Rating(i) && Rated(i) && Aged(old(res), old(pri), old(clockv), res, pri - {i}, clockv)
    {
      Admit(i, size);
      freq := freq[i := Freq(i) + 1];
      if i in res {
        Repri(i);
      }
    }
  }
}
