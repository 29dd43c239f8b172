/** The simulator's reconstruction-aware cache. Densities are recomputed when a pair is
    popped; a pair whose density has grown by more than 5% is filed again. */
module ReconCache {
  import opened Sequences
  import opened LazyHeap
  import opened Reals

  /** Per id: the base it is a delta against (-1 for raw tensors), delta size, logical size. */
  datatype Profile = Profile(base: nat -> int, d: nat -> real, l: nat -> real)

  const DECAY: real := 0.999

  function Count(freq: map<nat, real>, i: nat): real {
    if i in freq then freq[i] else 0.0
  }

  /** The value per byte of an id: its own accesses and, for a raw tensor, those of its family. */
  function Density(p: Profile, freq: map<nat, real>, bfreq: map<nat, real>, i: nat): real {
    if p.base(i) == -1 then Count(bfreq, i) + Count(freq, i)
    else Count(freq, i) * AtLeastOne(p.d(i)) / AtLeastOne(p.l(i))
  }

  /** Decayed counts never exceed the fixed point of x * 0.999 + 1. */
  ghost predicate Decayed(freq: map<nat, real>) {
    forall i | i in freq :: 0.0 <= freq[i] <= 1000.0
  }

  function Bumped(freq: map<nat, real>, i: nat): map<nat, real> {
    freq[i := Count(freq, i) * DECAY + 1.0]
  }

  lemma BumpGrows(freq: map<nat, real>, i: nat)
    requires Decayed(freq)
    ensures Decayed(Bumped(freq, i))
    ensures forall j :: Count(freq, j) <= Count(Bumped(freq, i), j)
  {
  }

  lemma ProductGrows(x: real, y: real, a: real)
    requires 0.0 <= x <= y && a >= 1.0
    ensures 0.0 <= x * a <= y * a
  {
  }

  lemma ScaleGrows(x: real, y: real, a: real, b: real)
    requires 0.0 <= x <= y && a >= 1.0 && b >= 1.0
    ensures 0.0 <= x * a / b <= y * a / b
  {
    ProductGrows(x, y, a);
    QuotientGrows(x * a, y * a, b);
  }

  lemma CountsNotNegative(f: map<nat, real>, bf: map<nat, real>, i: nat)
    requires Decayed(f) && Decayed(bf)
    ensures Count(f, i) >= 0.0 && Count(bf, i) >= 0.0
  {
  }

  /** Densities never fall when accesses are counted. */
  lemma DensityGrows(p: Profile, f: map<nat, real>, bf: map<nat, real>, f': map<nat, real>, bf': map<nat, real>, i: nat)
    requires Decayed(f) && Decayed(bf)
    requires Count(f, i) <= Count(f', i) && Count(bf, i) <= Count(bf', i)
    ensures 0.0 <= Density(p, f, bf, i) <= Density(p, f', bf', i)
  {
    hide AtLeastOne, Count;
    AtLeastOneIs(p.d(i));
    AtLeastOneIs(p.l(i));
    CountsNotNegative(f, bf, i);
    if p.base(i) != -1 {
      ScaleGrows(Count(f, i), Count(f', i), AtLeastOne(p.d(i)), AtLeastOne(p.l(i)));
    }
  }

  /** An access adds one to a count after letting a thousandth of it go, and leaves the others. */
  lemma BumpMeans(freq: map<nat, real>, i: nat, j: nat)
    ensures Count(Bumped(freq, i), i) == (if i in freq then freq[i] else 0.0) * 0.999 + 1.0
    ensures j != i ==> Count(Bumped(freq, i), j) == if j in freq then freq[j] else 0.0
  {
  }

  /** A raw tensor is worth its own accesses and those of its family, whatever its size; a delta
      the bytes its accesses save for each byte it takes. */
  lemma DensityMeans(p: Profile, freq: map<nat, real>, bfreq: map<nat, real>, i: nat)
    ensures p.base(i) == -1 ==> Density(p, freq, bfreq, i) == Count(freq, i) + Count(bfreq, i)
    ensures p.base(i) != -1 ==>
      Density(p, freq, bfreq, i) * (if p.l(i) >= 1.0 then p.l(i) else 1.0)
        == Count(freq, i) * (if p.d(i) >= 1.0 then p.d(i) else 1.0)
  {
    hide Count;
    if p.base(i) != -1 {
      var x, d := Count(freq, i) * AtLeastOne(p.d(i)), AtLeastOne(p.l(i));
      assert x / d * d == x;
    }
  }

  /** The pair is more than 5% behind the density of its id. */
  predicate Behind(e: Pair, cur: real) {
    cur > e.0 * 1.05 + 0.000000000001
  }

  /** A pair is taken as it is while the density has grown by a twentieth at most. */
  lemma BehindMeans(e: Pair, cur: real)
    ensures cur * 20.0 <= e.0 * 21.0 ==> !Behind(e, cur)
    ensures cur * 20.0 > e.0 * 21.0 + 0.001 ==> Behind(e, cur)
  {
  }

  /** How many pairs are behind; re-filing a pair lowers it. */
  ghost function Stale(p: Profile, freq: map<nat, real>, bfreq: map<nat, real>, heap: seq<Pair>): nat {
    if heap == [] then 0
    else
      var e := heap[|heap| - 1];
      Stale(p, freq, bfreq, heap[..|heap| - 1]) + if Behind(e, Density(p, freq, bfreq, e.1)) then 1 else 0
  }

  lemma {:induction false} StaleConcat(p: Profile, freq: map<nat, real>, bfreq: map<nat, real>, a: seq<Pair>,
                                       b: seq<Pair>)
    ensures Stale(p, freq, bfreq, a + b) == Stale(p, freq, bfreq, a) + Stale(p, freq, bfreq, b)
  {
    if b == [] {
      assert a + b == a;
    } else {
      StaleConcat(p, freq, bfreq, a, b[..|b| - 1]);
      assert (a + b)[..|a + b| - 1] == a + b[..|b| - 1];
    }
  }

  lemma StaleWithout(p: Profile, freq: map<nat, real>, bfreq: map<nat, real>, heap: seq<Pair>, at: nat)
    requires at < |heap|
    ensures Stale(p, freq, bfreq, heap) ==
      Stale(p, freq, bfreq, heap[..at] + heap[at + 1..])
      + if Behind(heap[at], Density(p, freq, bfreq, heap[at].1)) then 1 else 0
  {
    assert heap == heap[..at] + [heap[at]] + heap[at + 1..];
    StaleConcat(p, freq, bfreq, heap[..at] + [heap[at]], heap[at + 1..]);
    StaleConcat(p, freq, bfreq, heap[..at], heap[at + 1..]);
    assert (heap[..at] + [heap[at]])[..at] == heap[..at];
  }

  lemma StaleRefiled(p: Profile, freq: map<nat, real>, bfreq: map<nat, real>, heap: seq<Pair>, v: nat)
    requires Density(p, freq, bfreq, v) >= 0.0
    ensures Stale(p, freq, bfreq, heap + [(Density(p, freq, bfreq, v), v)]) == Stale(p, freq, bfreq, heap)
  {
    var e := (Density(p, freq, bfreq, v), v);
    assert (heap + [e])[..|heap|] == heap;
  }

  /** Every pair is at most the density of its id, and every id of `res` has a pair. */
  ghost predicate Filed(p: Profile, freq: map<nat, real>, bfreq: map<nat, real>, res: set<nat>, heap: seq<Pair>) {
    && (forall e | e in heap :: e.0 <= Density(p, freq, bfreq, e.1))
    && (forall i | i in res :: exists e | e in heap :: e.1 == i)
  }

  lemma NothingFiled(p: Profile, freq: map<nat, real>, bfreq: map<nat, real>, res: map<nat, real>, heap: seq<Pair>)
    requires Filed(p, freq, bfreq, res.Keys, heap) && heap == []
    ensures res == map[]
  {
    forall i ensures i !in res {
      assert i in res ==> exists e | e in heap :: e.1 == i;
    }
  }

  /** `v` has, up to 5%, the least density of all of `res`. */
  ghost predicate NearlyLeast(p: Profile, freq: map<nat, real>, bfreq: map<nat, real>, res: set<nat>, v: nat) {
    forall u | u in res :: Density(p, freq, bfreq, v) <= Density(p, freq, bfreq, u) * 1.05 + 0.000000000001
  }

  lemma FiledWithout(p: Profile, freq: map<nat, real>, bfreq: map<nat, real>, res: set<nat>, heap: seq<Pair>,
                     least: Pair, rest: seq<Pair>)
    requires Filed(p, freq, bfreq, res, heap)
    requires forall e | e in heap && e != least :: e in rest
    requires forall e | e in rest :: e in heap
    ensures Filed(p, freq, bfreq, res - {least.1}, rest)
    ensures least.1 in res ==>
      Filed(p, freq, bfreq, res, rest + [(Density(p, freq, bfreq, least.1), least.1)])
  {
    var again := rest + [(Density(p, freq, bfreq, least.1), least.1)];
    forall i | i in res && i != least.1 ensures exists e | e in rest :: e.1 == i {
      var e :| e in heap && e.1 == i;
      assert e in rest;
    }
    forall i | i in res ensures exists e | e in again :: e.1 == i {
      if i == least.1 {
        assert again[|rest|].1 == i;
      } else {
        var e :| e in rest && e.1 == i;
        assert e in again;
      }
    }
  }

  lemma FiledBut(p: Profile, freq: map<nat, real>, bfreq: map<nat, real>, res: map<nat, real>, heap: seq<Pair>, i: nat,
                 size: real)
    requires Filed(p, freq, bfreq, res.Keys - {}, heap) && i !in res
    ensures Filed(p, freq, bfreq, res[i := size].Keys - {i}, heap)
  {
    assert res[i := size].Keys - {i} == res.Keys == res.Keys - {};
  }

  /** A popped pair that is not behind names a resident of nearly least density. */
  lemma PoppedIsNearlyLeast(p: Profile, freq: map<nat, real>, bfreq: map<nat, real>, res: set<nat>, heap: seq<Pair>,
                            least: Pair)
    requires Filed(p, freq, bfreq, res, heap)
    requires forall e | e in heap :: Leq(least, e)
    requires !Behind(least, Density(p, freq, bfreq, least.1))
    ensures NearlyLeast(p, freq, bfreq, res, least.1)
  {
    forall u | u in res
      ensures Density(p, freq, bfreq, least.1) <= Density(p, freq, bfreq, u) * 1.05 + 0.000000000001
    {
      var e :| e in heap && e.1 == u;
    }
  }

  /** The residents that are left when `victims` are gone. */
  ghost function Left(res: map<nat, real>, victims: seq<nat>): map<nat, real> {
    res - SetOf(victims)
  }

  /** The last victim was still needed: without it the item would not have fitted. */
  ghost predicate NoneTooMany(res: map<nat, real>, victims: seq<nat>, cap: real, size: real) {
    victims != [] ==> Bytes(Left(res, victims[..|victims| - 1])) + size > cap
  }

  lemma StillTooFull(res: map<nat, real>, victims: seq<nat>, v: nat, was: map<nat, real>, used: real, cap: real,
                     size: real)
    requires was == Left(res, victims) && Accounted(was, used, cap) && used + size > cap
    ensures NoneTooMany(res, victims + [v], cap, size)
  {
    assert (victims + [v])[..|victims|] == victims;
  }

  /** Each victim was nearly the least of the residents not evicted before it. */
  ghost predicate EvictedInTurn(p: Profile, freq: map<nat, real>, bfreq: map<nat, real>, res: set<nat>,
                                victims: seq<nat>)
  {
    forall k | 0 <= k < |victims| ::
      victims[k] in res - SetOf(victims[..k]) && NearlyLeast(p, freq, bfreq, res - SetOf(victims[..k]), victims[k])
  }

  lemma NoVictims(p: Profile, freq: map<nat, real>, bfreq: map<nat, real>, res: map<nat, real>)
    ensures Left(res, []) == res && EvictedInTurn(p, freq, bfreq, res.Keys, [])
  {
  }

  lemma InTurnSnoc(p: Profile, freq: map<nat, real>, bfreq: map<nat, real>, res: set<nat>, victims: seq<nat>, v: nat)
    requires EvictedInTurn(p, freq, bfreq, res, victims)
    requires v in res - SetOf(victims) && NearlyLeast(p, freq, bfreq, res - SetOf(victims), v)
    ensures EvictedInTurn(p, freq, bfreq, res, victims + [v])
  {
    var all := victims + [v];
    assert all[..|victims|] == victims;
    forall k | 0 <= k < |all|
      ensures all[k] in res - SetOf(all[..k]) && NearlyLeast(p, freq, bfreq, res - SetOf(all[..k]), all[k])
    {
      assert k < |victims| ==> all[..k] == victims[..k];
    }
  }

  lemma OneVictim(p: Profile, freq: map<nat, real>, bfreq: map<nat, real>, res: map<nat, real>, victims: seq<nat>,
                  v: nat)
    requires EvictedInTurn(p, freq, bfreq, res.Keys, victims)
    requires v in Left(res, victims) && NearlyLeast(p, freq, bfreq, Left(res, victims).Keys, v)
    ensures EvictedInTurn(p, freq, bfreq, res.Keys, victims + [v])
    ensures Left(res, victims) - {v} == Left(res, victims + [v])
  {
    SetOfSnoc(victims, v);
    assert Left(res, victims).Keys == res.Keys - SetOf(victims);
    InTurnSnoc(p, freq, bfreq, res.Keys, victims, v);
  }

  class Recon {
    const cap: real
    const prof: Profile
    var res: map<nat, real>
    var used: real
    var freq: map<nat, real>
    var bfreq: map<nat, real>
    var heap: seq<Pair>

    ghost predicate ValidBut(unfiled: set<nat>)
      reads this
    {
      && Accounted(res, used, cap)
      && Decayed(freq) && Decayed(bfreq)
      && Filed(prof, freq, bfreq, res.Keys - unfiled, heap)
    }

    ghost predicate Valid()
      reads this
    {
      ValidBut({})
    }

    constructor (cap: real, prof: Profile)
      ensures Valid() && res == map[] && this.cap == cap && this.prof == prof
    {
      this.cap, this.prof := cap, prof;
      res, used, freq, bfreq, heap := map[], 0.0, map[], map[], [];
    }

    /** Counts an access to `i` and to its base family. */
    method Bump(i: nat)
      requires Valid()
      modifies this`freq, this`bfreq
      ensures Valid()
      ensures freq == Bumped(old(freq), i)
      ensures bfreq == if prof.base(i) >= 0 then Bumped(old(bfreq), prof.base(i)) else old(bfreq)
    {
      ghost var f, bf := freq, bfreq;
      BumpGrows(freq, i);
      freq := Bumped(freq, i);
      if prof.base(i) >= 0 {
        BumpGrows(bfreq, prof.base(i));
        bfreq := Bumped(bfreq, prof.base(i));
      }
      forall j ensures Density(prof, f, bf, j) <= Density(prof, freq, bfreq, j) {
        DensityGrows(prof, f, bf, freq, bfreq, j);
      }
    }

    method Touch(i: nat)
      requires Valid()
      modifies this`freq, this`bfreq
      ensures Valid()
      ensures freq == Bumped(old(freq), i)
      ensures bfreq == if prof.base(i) >= 0 then Bumped(old(bfreq), prof.base(i)) else old(bfreq)
    {
      Bump(i);
    }

    /** Terminates, and evicts a resident whose density is within 5% of the least. */
    method EvictOne() returns (ok: bool, ghost v: nat)
      requires Valid()
      modifies this`res, this`used, this`heap
      ensures Valid() && ok == (old(res) != map[])
      ensures !ok ==> res == old(res) && used == old(used)
      ensures ok ==>
        && v in old(res) && res == old(res) - {v}
        && NearlyLeast(prof, freq, bfreq, old(res).Keys, v)
    {
      hide Density, Stale, Filed, Accounted, Decayed, Behind, NearlyLeast, Leq;
      while heap != []
        invariant Valid() && res == old(res) && used == old(used)
        decreases Stale(prof, freq, bfreq, heap) + |heap|
      {
        var least, rest;
        ghost var at;
        least, rest, at := PopLeast(heap);
        assert res.Keys - {} == res.Keys;
        StaleWithout(prof, freq, bfreq, heap, at);
        FiledWithout(prof, freq, bfreq, res.Keys, heap, least, rest);
        var cur := Density(prof, freq, bfreq, least.1);
        DensityGrows(prof, freq, bfreq, freq, bfreq, least.1);
        if least.1 !in res {
          assert res.Keys - {least.1} == res.Keys;
          heap := rest;
        } else if Behind(least, cur) {
          StaleRefiled(prof, freq, bfreq, rest, least.1);
          heap := rest + [(cur, least.1)];
        } else {
          PoppedIsNearlyLeast(prof, freq, bfreq, res.Keys, heap, least);
          AccountedWithout(res, used, cap, least.1);
          heap, used, v := rest, used - res[least.1], least.1;
          res := res - {least.1};
          assert res.Keys == res.Keys - {} == old(res).Keys - {v};
          return true, v;
        }
      }
      assert res.Keys - {} == res.Keys;
      NothingFiled(prof, freq, bfreq, res, heap);
      return false, 0;
    }

    /** Admits every item that can fit. Each victim, in turn, had nearly the least density of
        the residents left at that moment. */
    method Admit(i: nat, size: real) returns (ghost victims: seq<nat>)
      requires Valid() && i !in res && size >= 0.0
      modifies this`res, this`used, this`heap
      ensures size > cap ==> Valid() && res == old(res)
      ensures size <= cap ==>
        && ValidBut({i})
        && res == Left(old(res), victims)[i := size]
        && EvictedInTurn(prof, freq, bfreq, old(res).Keys, victims)
        && NoneTooMany(old(res), victims, cap, size)
    {
      victims := [];
      if size > cap {
        return;
      }
      victims := MakeRoom(size);
      FiledBut(prof, freq, bfreq, res, heap, i, size);
      AccountedWith(res, used, cap, i, size);
      res := res[i := size];
      used := used + size;
    }

    /** The loop of `admit`: evicts until `size` more bytes fit. */
    method MakeRoom(size: real) returns (ghost victims: seq<nat>)
      requires Valid() && 0.0 <= size <= cap
      modifies this`res, this`used, this`heap
      ensures Valid() && used + size <= cap
      ensures res == Left(old(res), victims)
      ensures EvictedInTurn(prof, freq, bfreq, old(res).Keys, victims)
      ensures NoneTooMany(old(res), victims, cap, size)
    {
      hide Filed, EvictedInTurn, Accounted, NearlyLeast, Decayed, Left, Density, Bytes;
      victims := [];
      NoVictims(prof, freq, bfreq, res);
      while used + size > cap
        invariant Valid()
        invariant res == Left(old(res), victims)
        invariant EvictedInTurn(prof, freq, bfreq, old(res).Keys, victims)
        invariant NoneTooMany(old(res), victims, cap, size)
        decreases |res|
      {
        ghost var was, used0 := res, used;
        EmptyUnused(res, used, cap);
        var ok;
        ghost var v;
        ok, v := EvictOne();
        assert ok;
        SmallerWithout(was, v);
        OneVictim(prof, freq, bfreq, old(res), victims, v);
        StillTooFull(old(res), victims, v, was, used0, cap, size);
        victims := victims + [v];
      }
    }

    /** Files the current density of a resident. */
    method File(i: nat)
      requires ValidBut({i}) && i in res
      modifies this`heap
      ensures Valid()
    {
      var e := (Density(prof, freq, bfreq, i), i);
      ghost var was := heap;
      heap := heap + [e];
      assert heap[|was|].1 == i;
      forall j | j in res ensures exists f | f in heap :: f.1 == j {
        if j != i {
          assert j in res.Keys - {i};
          var f :| f in was && f.1 == j;
          assert f in heap;
        }
      }
    }

    method OnServe(i: nat, size: real) returns (ghost victims: seq<nat>)
      requires Valid() && i !in res && size >= 0.0
      modifies this
      ensures Valid()
      ensures freq == Bumped(old(freq), i)
      ensures bfreq == if prof.base(i) >= 0 then Bumped(old(bfreq), prof.base(i)) else old(bfreq)
      ensures size > cap ==> res == old(res)
      ensures size <= cap ==>
        && res == Left(old(res), victims)[i := size]
        && EvictedInTurn(prof, freq, bfreq, old(res).Keys, victims)
        && NoneTooMany(old(res), victims, cap, size)
    {
      Bump(i);
      victims := Admit(i, size);
      if i in res {
        File(i);
      }
    }

    method OnBaseFetch(b: nat, size: real) returns (ghost victims: seq<nat>)
      requires Valid() && b !in res && size >= 0.0
      modifies this`res, this`used, this`heap
      ensures Valid()
      ensures size > cap ==> res == old(res)
      ensures size <= cap ==>
        && res == Left(old(res), victims)[b := size]
        && EvictedInTurn(prof, freq, bfreq, old(res).Keys, victims)
        && NoneTooMany(old(res), victims, cap, size)
    {
      victims := Admit(b, size);
      if b in res {
        File(b);
      }
    }
  }
}
