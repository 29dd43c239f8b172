/** The simulator's base-biased cache: valuable bases pinned in half the capacity, the rest
    run least recently used. Served items are only admitted while they are not resident, so
    a pinned base never enters the eviction order. */
module BaseBiasCache {
  import opened Sequences
  import opened LazyHeap

  ghost function Kept(res: map<nat, real>, keep: set<nat>): map<nat, real> {
    map i | i in res && i in keep :: res[i]
  }

  lemma {:induction false} KeptBytes(res: map<nat, real>, keep: set<nat>)
    requires forall i | i in res :: res[i] >= 0.0
    ensures Bytes(Kept(res, keep)) <= Bytes(res)
    decreases |res|
  {
    if i :| i in res && i !in keep {
      BytesWithout(res, i);
      SmallerWithout(res, i);
      KeptBytes(res - {i}, keep);
      assert Kept(res - {i}, keep) == Kept(res, keep);
    } else {
      assert Kept(res, keep) == res;
    }
  }

  /** A candidate was passed over only because it did not fit into what was left of half the
      capacity after the better ranked ones. */
  ghost predicate Picked(ranked: seq<nat>, size: nat -> real, budget: real, k: nat, res: map<nat, real>)
    requires k <= |ranked|
  {
    && (forall b | b in res :: b in ranked[..k] && res[b] == size(b))
    && (forall j | 0 <= j < k && ranked[j] !in res :: Bytes(Kept(res, SetOf(ranked[..j]))) + size(ranked[j]) > budget)
  }

  lemma KeptAfter(ranked: seq<nat>, size: nat -> real, budget: real, k: nat, res: map<nat, real>, j: nat)
    requires j <= k < |ranked| && Distinct(ranked) && Picked(ranked, size, budget, k, res)
    ensures ranked[k] !in res
    ensures Kept(res[ranked[k] := size(ranked[k])], SetOf(ranked[..j])) == Kept(res, SetOf(ranked[..j]))
    ensures j == k ==> Kept(res, SetOf(ranked[..j])) == res
  {
    hide Bytes;
    var b := ranked[k];
    assert b !in ranked[..k] by {
      assert forall i | 0 <= i < k :: ranked[..k][i] == ranked[i] != b;
    }
    assert forall i | i in ranked[..j] :: i in ranked[..k];
  }

  lemma PickIt(ranked: seq<nat>, size: nat -> real, budget: real, k: nat, res: map<nat, real>)
    requires k < |ranked| && Distinct(ranked) && Picked(ranked, size, budget, k, res)
    ensures Picked(ranked, size, budget, k + 1, res[ranked[k] := size(ranked[k])])
  {
    hide Bytes, Kept, SetOf, Distinct;
    var more := res[ranked[k] := size(ranked[k])];
    forall j | 0 <= j < k + 1 && ranked[j] !in more
      ensures Bytes(Kept(more, SetOf(ranked[..j]))) + size(ranked[j]) > budget
    {
      KeptAfter(ranked, size, budget, k, res, j);
    }
    assert ranked[..k + 1] == ranked[..k] + [ranked[k]];
  }

  lemma SkipIt(ranked: seq<nat>, size: nat -> real, budget: real, k: nat, res: map<nat, real>)
    requires k < |ranked| && Distinct(ranked) && Picked(ranked, size, budget, k, res)
    requires Bytes(res) + size(ranked[k]) > budget
    ensures Picked(ranked, size, budget, k + 1, res)
  {
    hide Bytes, Kept, SetOf, Distinct;
    KeptAfter(ranked, size, budget, k, res, k);
    assert ranked[..k + 1] == ranked[..k] + [ranked[k]];
  }

  lemma NothingOrdered()
    ensures Distinct<nat>([]) && SetOf<nat>([]) == {}
  {
  }

  lemma NothingPicked(ranked: seq<nat>, size: nat -> real, budget: real)
    ensures Picked(ranked, size, budget, 0, map[]) && Bytes(map[]) == 0.0
  {
  }

  /** The `evicted` oldest unpinned residents are gone, and the last of them had to go. */
  ghost predicate Shrunk(res0: map<nat, real>, order0: seq<nat>, evicted: nat, res: map<nat, real>, order: seq<nat>,
                         cap: real, size: real)
  {
    && evicted <= |order0| && order == order0[evicted..] && res == res0 - SetOf(order0[..evicted])
    && (evicted > 0 ==> Bytes(res0 - SetOf(order0[..evicted - 1])) + size > cap)
  }

  lemma NothingShrunk(res: map<nat, real>, order: seq<nat>, cap: real, size: real)
    ensures Shrunk(res, order, 0, res, order, cap, size)
  {
    assert SetOf(order[..0]) == {};
  }

  lemma ShrinkOne(res0: map<nat, real>, order0: seq<nat>, evicted: nat, res: map<nat, real>, order: seq<nat>,
                  used: real, cap: real, size: real)
    requires Shrunk(res0, order0, evicted, res, order, cap, size) && Accounted(res, used, cap) && used + size > cap
    ensures order != [] ==> Shrunk(res0, order0, evicted + 1, res - {order[0]}, order[1..], cap, size)
  {
    if order != [] {
      assert order0[..evicted + 1] == order0[..evicted] + [order[0]];
      assert SetOf(order0[..evicted + 1]) == SetOf(order0[..evicted]) + {order[0]};
      assert order0[evicted..][1..] == order0[evicted + 1..];
    }
  }

  lemma PinnedStay(res0: map<nat, real>, order0: seq<nat>, evicted: nat, res: map<nat, real>, order: seq<nat>,
                   pinned: set<nat>, used: real, cap: real, size: real)
    requires Shrunk(res0, order0, evicted, res, order, cap, size)
    requires SetOf(order0) == res0.Keys - pinned && SetOf(order) == res.Keys - pinned && pinned <= res.Keys
    requires Accounted(res, used, cap)
    ensures evicted <= |order0| && order == order0[evicted..] && res == res0 - SetOf(order0[..evicted])
    ensures evicted > 0 ==> Bytes(res0 - SetOf(order0[..evicted - 1])) + size > cap
    ensures Bytes(Kept(res0, pinned)) <= used
    ensures order == [] ==> res == Kept(res0, pinned) && used == Bytes(Kept(res0, pinned))
  {
    hide Bytes;
    assert forall i | i in SetOf(order0[..evicted]) :: i in SetOf(order0);
    assert Kept(res, pinned) == Kept(res0, pinned);
    KeptBytes(res, pinned);
    if order == [] {
      assert SetOf(order) == {};
      forall i | i in res ensures i in pinned {
        assert i in pinned || i in res.Keys - pinned;
      }
      assert res == Kept(res, pinned);
    }
  }

  lemma NewLast(order: seq<nat>, i: nat, res: map<nat, real>)
    requires i !in res && SetOf(order) <= res.Keys && Distinct(order)
    ensures Distinct(order + [i]) && SetOf(order + [i]) == SetOf(order) + {i}
  {
    assert forall x | x in order :: x in SetOf(order);
  }

  /** Expected bytes avoided for each byte a base takes. */
  function PerByte(value: map<nat, real>, size: nat -> real, b: nat): real {
    if b in value && size(b) != 0.0 then value[b] / size(b) else 0.0
  }

  ghost predicate BestFirst(value: map<nat, real>, size: nat -> real, ranked: seq<nat>) {
    forall i, j | 0 <= i < j < |ranked| :: PerByte(value, size, ranked[i]) >= PerByte(value, size, ranked[j])
  }

  /** The candidates, best value per byte first. */
  ghost predicate IsRanking(value: map<nat, real>, size: nat -> real, ranked: seq<nat>) {
    && Distinct(ranked) && SetOf(ranked) == value.Keys
    && BestFirst(value, size, ranked)
  }

  lemma PlaceOrdered(value: map<nat, real>, size: nat -> real, ranked: seq<nat>, k: nat, b: nat)
    requires BestFirst(value, size, ranked) && k <= |ranked|
    requires k > 0 ==> PerByte(value, size, ranked[k - 1]) >= PerByte(value, size, b)
    requires forall i | k <= i < |ranked| :: PerByte(value, size, b) > PerByte(value, size, ranked[i])
    ensures BestFirst(value, size, ranked[..k] + [b] + ranked[k..])
  {
    hide PerByte;
    var r := ranked[..k] + [b] + ranked[k..];
    forall i, j | 0 <= i < j < |r| ensures PerByte(value, size, r[i]) >= PerByte(value, size, r[j]) {
      InsertedAt(ranked, k, b, i);
      InsertedAt(ranked, k, b, j);
    }
  }

  lemma CrossMultiplied(v: real, s: real, w: real, t: real)
    requires s > 0.0 && t > 0.0 && v / s >= w / t
    ensures v * t >= w * s
  {
    assert v / s * s == v && w / t * t == w;
    assert (v / s - w / t) * (s * t) >= 0.0;
    assert (v / s - w / t) * (s * t) == v / s * s * t - w / t * t * s;
  }

  /** Earlier in the ranking means no less value for the same bytes. */
  lemma RankingMeans(value: map<nat, real>, size: nat -> real, ranked: seq<nat>, i: nat, j: nat)
    requires IsRanking(value, size, ranked) && i < j < |ranked| && forall b | b in value :: size(b) > 0.0
    ensures ranked[i] in value && ranked[j] in value
    ensures value[ranked[i]] * size(ranked[j]) >= value[ranked[j]] * size(ranked[i])
  {
    assert ranked[i] in SetOf(ranked) && ranked[j] in SetOf(ranked);
    CrossMultiplied(value[ranked[i]], size(ranked[i]), value[ranked[j]], size(ranked[j]));
  }

  /** Behind the candidates that are worth no less. */
  method Place(value: map<nat, real>, size: nat -> real, ranked: seq<nat>, b: nat) returns (r: seq<nat>)
    requires BestFirst(value, size, ranked) && Distinct(ranked) && b !in ranked
    ensures BestFirst(value, size, r) && Distinct(r) && SetOf(r) == SetOf(ranked) + {b}
  {
    hide PerByte, BestFirst, Distinct;
    var k: nat := |ranked|;
    while k > 0 && PerByte(value, size, ranked[k - 1]) < PerByte(value, size, b)
      invariant k <= |ranked|
      invariant forall i | k <= i < |ranked| :: PerByte(value, size, b) > PerByte(value, size, ranked[i])
    {
      k := k - 1;
    }
    PlaceOrdered(value, size, ranked, k, b);
    InsertedOnce(ranked, k, b);
    r := ranked[..k] + [b] + ranked[k..];
  }

  lemma NoneRanked(value: map<nat, real>, size: nat -> real)
    ensures BestFirst(value, size, []) && Distinct<nat>([]) && SetOf<nat>([]) == {}
  {
  }

  lemma IdsOnce(ids: seq<nat>)
    requires Increasing(ids)
    ensures Distinct(ids)
  {
  }

  lemma NextIsNew(ids: seq<nat>, k: nat)
    requires Distinct(ids) && k < |ids|
    ensures ids[k] !in SetOf(ids[..k])
  {
  }

  /** Sorts the candidates by value per byte. */
  method Rank(value: map<nat, real>, size: nat -> real) returns (ranked: seq<nat>)
    ensures IsRanking(value, size, ranked)
  {
    hide BestFirst, Distinct;
    var ids := Sorted(value.Keys);
    NoneRanked(value, size);
    ranked := [];
    IdsOnce(ids);
    assert ids[..0] == [];
    for k := 0 to |ids|
      invariant BestFirst(value, size, ranked) && Distinct(ranked) && SetOf(ranked) == SetOf(ids[..k])
    {
      NextIsNew(ids, k);
      assert ids[k] !in ranked by {
        assert ids[k] !in SetOf(ranked);
      }
      ranked := Place(value, size, ranked, ids[k]);
      assert ids[..k + 1] == ids[..k] + [ids[k]];
      SetOfSnoc(ids[..k], ids[k]);
    }
    assert ids[..|ids|] == ids;
  }

  class BaseBias {
    const cap: real
    var res: map<nat, real>
    var used: real
    var pinned: set<nat>
    // Unpinned residents, least recently used first.
    var order: seq<nat>

    ghost predicate Valid()
      reads this
    {
      Accounted(res, used, cap) && Distinct(order) && pinned <= res.Keys && SetOf(order) == res.Keys - pinned
    }

    /** `value` is what each candidate base is expected to avoid. */
    constructor (cap: real, value: map<nat, real>, size: nat -> real)
      requires cap >= 0.0 && (forall b :: size(b) >= 0.0) && forall b | b in value :: size(b) > 0.0
      ensures Valid() && this.cap == cap && order == [] && pinned == res.Keys
      ensures used <= cap / 2.0
      ensures exists ranked :: IsRanking(value, size, ranked) && Picked(ranked, size, cap / 2.0, |ranked|, res)
    {
      this.cap := cap;
      res, used, pinned, order := map[], 0.0, {}, [];
      new;
      hide Picked, Bytes, Distinct, BestFirst;
      var ranked := Rank(value, size);
      NothingPicked(ranked, size, cap / 2.0);
      for k := 0 to |ranked|
        invariant Accounted(res, used, cap) && used <= cap / 2.0
        invariant Picked(ranked, size, cap / 2.0, k, res) && pinned == res.Keys && order == []
      {
        var b := ranked[k];
        KeptAfter(ranked, size, cap / 2.0, k, res, k);
        if used + size(b) > cap / 2.0 {
          SkipIt(ranked, size, cap / 2.0, k, res);
        } else {
          PickIt(ranked, size, cap / 2.0, k, res);
          AccountedWith(res, used, cap, b, size(b));
          pinned := pinned + {b};
          res := res[b := size(b)];
          used := used + size(b);
        }
      }
      NothingOrdered();
    }

    method EvictOne() returns (ok: bool)
      requires Valid()
      modifies this`res, this`used, this`order
      ensures Valid() && ok == (old(order) != [])
      ensures !ok ==> res == old(res) && order == old(order) && used == old(used)
      ensures ok ==> order == old(order)[1..] && res == old(res) - {old(order)[0]}
    {
      if order != [] {
        var v := order[0];
        assert v in SetOf(order);
        assert SetOf(order[1..]) == SetOf(order) - {v};
        order := order[1..];
        AccountedWithout(res, used, cap, v);
        used := used - res[v];
        res := res - {v};
        return true;
      }
      return false;
    }

    /** Evicts unpinned residents until `size` more bytes fit or none is left. */
    method MakeRoom(size: real) returns (fits: bool, ghost evicted: nat)
      requires Valid()
      modifies this`res, this`used, this`order
      ensures Valid() && fits == (used + size <= cap) && (!fits ==> order == [])
      ensures Shrunk(old(res), old(order), evicted, res, order, cap, size)
    {
      hide Shrunk, Distinct, SetOf, Accounted, Bytes;
      evicted, fits := 0, true;
      NothingShrunk(res, order, cap, size);
      while used + size > cap
        invariant Valid() && fits
        invariant Shrunk(old(res), old(order), evicted, res, order, cap, size)
        decreases |order|
      {
        ShrinkOne(old(res), old(order), evicted, res, order, used, cap, size);
        var ok := EvictOne();
        if !ok {
          fits := false;
          return;
        }
        evicted := evicted + 1;
      }
    }

    /** An item gets in exactly when it fits beside the pinned bases. One that fits the
        capacity but not beside them is not admitted and still costs every unpinned resident. */
    method OnServe(i: nat, size: real) returns (ghost evicted: nat)
      requires Valid() && i !in res && size >= 0.0
      modifies this`res, this`used, this`order
      ensures Valid()
      ensures i in res <==> size + Bytes(Kept(old(res), pinned)) <= cap && size <= cap
      ensures size > cap ==> res == old(res) && order == old(order)
      ensures size <= cap && i !in res ==> res == Kept(old(res), pinned) && order == []
      ensures i in res ==>
        && evicted <= |old(order)| && order == old(order)[evicted..] + [i]
        && res == (old(res) - SetOf(old(order)[..evicted]))[i := size]
        && (evicted > 0 ==> Bytes(old(res) - SetOf(old(order)[..evicted - 1])) + size > cap)
    {
      evicted := 0;
      if size > cap {
        return;
      }
      hide Bytes, Distinct, Accounted;
      var fits;
      ghost var before, order0 := res, order;
      fits, evicted := MakeRoom(size);
      PinnedStay(before, order0, evicted, res, order, pinned, used, cap, size);
      if fits {
        AccountedWith(res, used, cap, i, size);
        NewLast(order, i, res);
        res := res[i := size];
        used := used + size;
        order := order + [i];
      }
    }
  }

  lemma OneRanked(value: map<nat, real>, size: nat -> real, ranked: seq<nat>)
    requires value.Keys == {0} && IsRanking(value, size, ranked)
    ensures ranked == [0]
  {
    DistinctCount(ranked);
    assert |ranked| == 1 && ranked[0] in SetOf(ranked);
  }

  lemma OnePicked(res: map<nat, real>)
    requires exists ranked :: IsRanking(map[0 := 1.0], i => 5.0, ranked) && Picked(ranked, i => 5.0, 5.0, |ranked|, res)
    ensures res == map[0 := 5.0] && Kept(res, {0}) == res && Bytes(res) == 5.0
  {
    var value: map<nat, real> := map[0 := 1.0];
    var ranked :| IsRanking(value, i => 5.0, ranked) && Picked(ranked, i => 5.0, 5.0, |ranked|, res);
    OneRanked(value, i => 5.0, ranked);
    hide IsRanking;
    assert [0][..1] == [0] && [0][..0] == [];
    assert Kept(res, SetOf([])) == map[];
    BytesWithout(map[0 := 5.0], 0);
  }

  /** Capacity 10, a pinned base of 5: an item of 6 is below the capacity, is turned away, and
      the unpinned item of 4 is gone. */
  method TurnedAway() returns (before: map<nat, real>, after: map<nat, real>, cap: real)
    ensures cap == 10.0 && before == map[0 := 5.0, 1 := 4.0] && after == map[0 := 5.0]
  {
    hide Bytes, Picked;
    var cache := new BaseBias(10.0, map[0 := 1.0], i => 5.0);
    OnePicked(cache.res);
    assert cache.pinned == {0};
    var none := cache.OnServe(1, 4.0);
    assert 1 in cache.res && none == 0 && cache.res == (map[0 := 5.0] - SetOf([]))[1 := 4.0];
    before, cap := cache.res, cache.cap;
    assert Kept(before, {0}) == map[0 := 5.0];
    var _ := cache.OnServe(2, 6.0);
    after := cache.res;
  }
}
