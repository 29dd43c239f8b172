/** The simulator's least-recently-used cache. */
module LruCache {
  import opened Sequences
  import opened LazyHeap

  ghost function Only(res: map<nat, real>, keep: seq<nat>): map<nat, real> {
    map i | i in res && i in keep :: res[i]
  }

  /** `move_to_end`. */
  function Later(order: seq<nat>, i: nat): seq<nat>
    requires i in order
  {
    if order[0] == i then order[1..] + [i] else [order[0]] + Later(order[1..], i)
  }

  lemma SplitTail(h: nat, t: seq<nat>, j: nat)
    requires j < |t|
    ensures ([h] + t)[..j + 1] == [h] + t[..j] && ([h] + t)[j + 2..] == t[j + 1..] && ([h] + t)[j + 1] == t[j]
  {
  }

  /** The id comes last and the others keep their order. */
  lemma {:induction false} LaterIsLast(order: seq<nat>, i: nat) returns (k: nat)
    requires i in order
    ensures k < |order| && order[k] == i && Later(order, i) == order[..k] + order[k + 1..] + [i]
  {
    if order[0] == i {
      k := 0;
    } else {
      var h, t := order[0], order[1..];
      var j := LaterIsLast(t, i);
      k := j + 1;
      assert order == [h] + t;
      SplitTail(h, t, j);
      var a, b := t[..j], t[j + 1..];
      assert [h] + (a + b + [i]) == [h] + a + b + [i];
    }
  }

  lemma {:induction false} LaterKeeps(order: seq<nat>, i: nat)
    requires i in order && Distinct(order)
    ensures Distinct(Later(order, i)) && SetOf(Later(order, i)) == SetOf(order)
    ensures forall x :: x in Later(order, i) <==> x in order
  {
    var tail := order[1..];
    assert order == [order[0]] + tail;
    if order[0] != i {
      LaterKeeps(tail, i);
      assert order[0] !in tail;
    }
    assert forall x :: x in Later(order, i) <==> x in order;
  }

  lemma NothingUsed(res: map<nat, real>, order: seq<nat>, used: real, cap: real)
    requires SetOf(order) == res.Keys && Accounted(res, used, cap)
    ensures order == [] ==> used == 0.0
  {
    if order == [] {
      assert res.Keys == {};
    }
  }

  lemma NotInOrder(order: seq<nat>, i: nat, res: map<nat, real>)
    requires SetOf(order) == res.Keys && i !in res
    ensures i !in order
  {
    assert forall x | x in order :: x in SetOf(order);
  }

  /** The `evicted` oldest residents are gone, and one fewer would not have been enough. */
  ghost predicate Trimmed(res0: map<nat, real>, order0: seq<nat>, evicted: nat,
                          res: map<nat, real>, order: seq<nat>, cap: real, size: real)
  {
    && evicted <= |order0| && order == order0[evicted..] && res == Only(res0, order)
    && (evicted > 0 ==> Bytes(Only(res0, order0[evicted - 1..])) + size > cap)
  }

  lemma OnlyAll(res: map<nat, real>, order: seq<nat>)
    requires SetOf(order) == res.Keys
    ensures Only(res, order) == res
  {
    assert forall i | i in res :: i in SetOf(order);
  }

  lemma StartTrimmed(res: map<nat, real>, order: seq<nat>, cap: real, size: real)
    requires SetOf(order) == res.Keys
    ensures Trimmed(res, order, 0, res, order, cap, size)
  {
    OnlyAll(res, order);
  }

  lemma OnlyTail(res: map<nat, real>, order: seq<nat>)
    requires Distinct(order) && order != []
    ensures Only(res, order) - {order[0]} == Only(res, order[1..])
    ensures Only(res, order).Keys <= res.Keys
  {
    assert order == [order[0]] + order[1..];
  }

  lemma TrimOne(res0: map<nat, real>, order0: seq<nat>, evicted: nat,
                res: map<nat, real>, order: seq<nat>, used: real, cap: real, size: real)
    requires Trimmed(res0, order0, evicted, res, order, cap, size)
    requires Distinct(order) && Accounted(res, used, cap) && used + size > cap
    ensures order != [] ==> Trimmed(res0, order0, evicted + 1, res - {order[0]}, order[1..], cap, size)
  {
    if order != [] {
      OnlyTail(res0, order);
      assert order0[evicted..][1..] == order0[evicted + 1..];
    }
  }

  lemma TrimmedMeans(res0: map<nat, real>, order0: seq<nat>, evicted: nat,
                     res: map<nat, real>, order: seq<nat>, cap: real, size: real)
    requires Trimmed(res0, order0, evicted, res, order, cap, size)
    ensures evicted <= |order0| && order == order0[evicted..] && res == Only(res0, order)
    ensures evicted > 0 ==> Bytes(Only(res0, order0[evicted - 1..])) + size > cap
    ensures forall i | i !in res0 :: i !in res
  {
  }

  class LRU {
    const cap: real
    var res: map<nat, real>
    var used: real
    // Residents, least recently used first.
    var order: seq<nat>

    ghost predicate Valid()
      reads this
    {
      Accounted(res, used, cap) && Distinct(order) && SetOf(order) == res.Keys
    }

    constructor (cap: real)
      ensures Valid() && res == map[] && this.cap == cap
    {
      this.cap := cap;
      res, used, order := map[], 0.0, [];
    }

    method Touch(i: nat)
      requires Valid()
      modifies this
      ensures Valid() && res == old(res) && used == old(used)
      ensures order == if i in old(order) then Later(old(order), i) else old(order)
    {
      if i in order {
        LaterKeeps(order, i);
        order := Later(order, i);
      }
    }

    /** Evicts the least recently used resident. */
    method EvictOne() returns (ok: bool)
      requires Valid()
      modifies this
      ensures Valid() && ok == (old(order) != [])
      ensures !ok ==> res == old(res) && order == old(order) && used == old(used)
      ensures ok ==> order == old(order)[1..] && res == old(res) - {old(order)[0]}
    {
      if order != [] {
        var v := order[0];
        assert v in SetOf(order);
        assert SetOf(order[1..]) == SetOf(order) - {v};
        order := order[1..];
        AccountedWithout(res, used, cap, v);
        used := used - res[v];
        res := res - {v};
        return true;
      }
      return false;
    }

    /** Admits every item that can fit and evicts, oldest first, no more than it must. */
    method Admit(i: nat, size: real) returns (ghost evicted: nat)
      requires Valid() && i !in res && size >= 0.0
      modifies this
      ensures size > cap ==> Valid() && res == old(res) && order == old(order)
      ensures size <= cap ==>
        && evicted <= |old(order)| && order == old(order)[evicted..]
        && i !in order && res == Only(old(res), order)[i := size]
        && Accounted(res, used, cap)
        && (evicted > 0 ==> Bytes(Only(old(res), old(order)[evicted - 1..])) + size > cap)
    {
      evicted := 0;
      if size > cap {
        return;
      }
      StartTrimmed(res, order, cap, size);
      hide Trimmed, Bytes, Distinct, SetOf, Accounted;
      while used + size > cap
        invariant Valid()
        invariant Trimmed(old(res), old(order), evicted, res, order, cap, size)
        decreases |order|
      {
        NothingUsed(res, order, used, cap);
        TrimOne(old(res), old(order), evicted, res, order, used, cap, size);
        var ok := EvictOne();
        evicted := evicted + 1;
      }
      TrimmedMeans(old(res), old(order), evicted, res, order, cap, size);
      NotInOrder(order, i, res);
      AccountedWith(res, used, cap, i, size);
      res := res[i := size];
      used := used + size;
    }

    method OnServe(i: nat, size: real) returns (ghost evicted: nat)
      requires Valid() && i !in res && size >= 0.0
      modifies this
      ensures Valid()
      ensures size > cap ==> res == old(res) && order == old(order)
      ensures size <= cap ==>
        && evicted <= |old(order)| && order == old(order)[evicted..] + [i]
        && res == Only(old(res), old(order)[evicted..])[i := size]
        && (evicted > 0 ==> Bytes(Only(old(res), old(order)[evicted - 1..])) + size > cap)
    {
      evicted := Admit(i, size);
      if i in res {
        SetOfSnoc(order, i);
        order := order + [i];
      }
    }
  }
}
