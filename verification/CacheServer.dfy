/** The evaluation's cache server: the same miss path as the materializer, written as one loop
    that decodes the chain root first from the nearest cached ancestor. */
module CacheServer {
  import opened Forest
  import opened Sequences
  import opened Traversal
  import opened BaseStores
  import opened Reconstruction
  import opened ClosureRun
  import opened Shortcut
  import opened Materializer
  import M = Manifest

  /** Decode one entry: None stands for any of the errors the loop raises. */
  function DecodeOver(env: Env, e: Entry, base: Option<Bytes>): (out: Option<Bytes>) {
    if e.key !in env.s3 then None
    else
      var blob := env.s3[e.key];
      var data :=
        if e.baseId.None? then Some(blob.payload)
        else if base.None? then None else env.decompress(blob.payload, base.value, ItemSize(blob));
      if data.Some? && env.hash(data.value) == e.tid then data else None
  }

  /** The bytes the last entry of a stretch is a delta against. */
  ghost predicate IsFloor(env: Env, es: seq<Entry>, floor: Option<Bytes>) {
    es != [] && es[|es| - 1].baseId.Some? ==> floor == env.lookup(es[|es| - 1].baseId.value)
  }

  /** One turn of the loop computes one step of the reconstruction. */
  lemma TurnIsStep(env: Env, es: seq<Entry>, i: nat, floor: Option<Bytes>)
    requires IsStretch(es) && i < |es| && IsFloor(env, es, floor)
    ensures Wanted(env, ByTid(es))(es[i].tid)
      == DecodeOver(env, es[i], if i + 1 < |es| then Wanted(env, ByTid(es))(es[i + 1].tid) else floor)
  {
    hide ByTid, Rebuild, IsStretch;
    StretchStep(env, es, i);
  }

  /** `x` is what the blob of `e` stands for by its header, over `base` when `e` is a delta, and
      has the hash `e` asks for. */
  ghost predicate StandsOver(env: Env, e: Entry, base: Option<Bytes>, x: Bytes) {
    && e.key in env.s3 && env.hash(x) == e.tid
    && if e.baseId.None? then Decodes(env, env.s3[e.key], None, x)
       else base.Some? && Decodes(env, env.s3[e.key], base, x)
  }

  lemma DecodeByHeader(env: Env, e: Entry, base: Option<Bytes>)
    ensures forall x :: DecodeOver(env, e, base) == Some(x) <==> StandsOver(env, e, base, x)
  {
    if e.key in env.s3 {
      assert forall n: nat :: HeaderSize(env.s3[e.key], n) <==> n == ItemSize(env.s3[e.key]);
    }
  }

  ghost function Found(files: map<Tid, Bytes>, t: Tid): Option<Bytes> {
    if t in files then Some(files[t]) else None
  }

  /** Entry `i` of a stretch is rebuilt as its header calls for over the tensor below it. */
  ghost predicate HeaderStep(env: Env, es: seq<Entry>, i: nat, floor: Option<Bytes>, rebuilt: map<Tid, Bytes>)
    requires i < |es|
  {
    var below := if i == |es| - 1 then floor else Found(rebuilt, es[i + 1].tid);
    forall x :: Found(rebuilt, es[i].tid) == Some(x) <==> StandsOver(env, es[i], below, x)
  }

  lemma FoundIsWanted(env: Env, es: seq<Entry>, i: nat)
    requires IsStretch(es) && Acyclic(LinksOf(ByTid(es))) && i < |es|
    ensures Found(Rebuilt(env, ByTid(es)), es[i].tid) == Wanted(env, ByTid(es))(es[i].tid)
  {
    hide ByTid, Rebuild, IsChain;
    StretchChain(es, i);
    assert es[i] in es;
  }

  lemma StepByHeader(env: Env, es: seq<Entry>, i: nat, floor: Option<Bytes>)
    requires IsStretch(es) && Acyclic(LinksOf(ByTid(es))) && i < |es| && IsFloor(env, es, floor)
    ensures HeaderStep(env, es, i, floor, Rebuilt(env, ByTid(es)))
  {
    hide ByTid, IsStretch, StandsOver, DecodeOver, IsFloor;
    TurnIsStep(env, es, i, floor);
    FoundIsWanted(env, es, i);
    if i == |es| - 1 {
      DecodeByHeader(env, es[i], floor);
    } else {
      FoundIsWanted(env, es, i + 1);
      DecodeByHeader(env, es[i], Wanted(env, ByTid(es))(es[i + 1].tid));
    }
  }

  /** The tids from position `i` on have been decoded into the cache, and the last of them, or
      the cached ancestor, is the base in hand. */
  ghost predicate Climbing(bytes: Tid -> Option<Bytes>, tids: seq<Tid>, i: nat, floor: Option<Bytes>,
                           base: Option<Bytes>,
                           before: map<Tid, Bytes>, now: map<Tid, Bytes>)
  {
    && i <= |tids|
    && base == (if i < |tids| then bytes(tids[i]) else floor)
    && forall t ::
      && (t in now <==> t in before || t in tids[i..])
      && (t in now ==> if t in tids[i..] then bytes(t) == Some(now[t]) else now[t] == before[t])
  }

  lemma StartClimbing(bytes: Tid -> Option<Bytes>, tids: seq<Tid>, floor: Option<Bytes>, before: map<Tid, Bytes>)
    ensures Climbing(bytes, tids, |tids|, floor, floor, before, before)
  {
  }

  lemma ClimbStep(bytes: Tid -> Option<Bytes>, tids: seq<Tid>, i: nat, floor: Option<Bytes>, base: Option<Bytes>,
                  before: map<Tid, Bytes>, now: map<Tid, Bytes>, out: Bytes)
    requires Climbing(bytes, tids, i, floor, base, before, now) && i > 0 && bytes(tids[i - 1]) == Some(out)
    ensures Climbing(bytes, tids, i - 1, floor, Some(out), before, now[tids[i - 1] := out])
  {
    assert tids[i - 1..] == [tids[i - 1]] + tids[i..];
  }

  lemma ListedAreRows(es: seq<Entry>, i: nat)
    requires i <= |es|
    ensures forall t | t in Tids(es)[i..] :: t in ByTid(es)
  {
    hide ByTid;
    forall t | t in Tids(es)[i..] ensures t in ByTid(es) {
      var k :| 0 <= k < |es| - i && Tids(es)[i..][k] == t;
      assert es[i + k].tid == t;
    }
  }

  lemma MapsMeet(bytes: Tid -> Option<Bytes>, tids: seq<Tid>, i: nat, floor: Option<Bytes>, base: Option<Bytes>,
                 before: map<Tid, Bytes>, now: map<Tid, Bytes>, rebuilt: map<Tid, Bytes>)
    requires Climbing(bytes, tids, i, floor, base, before, now)
    requires forall t :: t in rebuilt <==> t in tids[i..]
    requires forall t | t in rebuilt :: bytes(t) == Some(rebuilt[t])
    ensures now == before + rebuilt
  {
  }

  lemma InRest(es: seq<Entry>, i: nat, j: nat)
    requires IsStretch(es) && i <= |es| && j < |es|
    ensures es[j].tid in Tids(es)[i..] <==> i <= j
  {
    if i <= j {
      assert Tids(es)[i..][j - i] == es[j].tid;
    } else {
      assert forall k | i <= k < |es| :: Tids(es)[k] != Tids(es)[j];
    }
  }

  lemma RestIsDecoded(bytes: Tid -> Option<Bytes>, tids: seq<Tid>, i: nat, floor: Option<Bytes>, base: Option<Bytes>,
                      before: map<Tid, Bytes>, now: map<Tid, Bytes>, t: Tid)
    requires Climbing(bytes, tids, i, floor, base, before, now) && i <= |tids| && t in tids[i..]
    ensures bytes(t).Some?
  {
  }

  lemma ClimbedOne(env: Env, es: seq<Entry>, i: nat, floor: Option<Bytes>, base: Option<Bytes>,
                   before: map<Tid, Bytes>, now: map<Tid, Bytes>, t: Tid)
    requires IsStretch(es) && t in ByTid(es) && i <= |es|
    requires Climbing(Wanted(env, ByTid(es)), Tids(es), i, floor, base, before, now)
    requires i > 0 ==> Wanted(env, ByTid(es))(es[i - 1].tid).None?
    ensures HasChain(LinksOf(ByTid(es)), t) && Wanted(env, ByTid(es))(t) == Tensor(env, ByTid(es), t)
    ensures Tensor(env, ByTid(es), t).Some? <==> t in Tids(es)[i..]
    ensures i == 0 ==> t in Tids(es)[i..]
  {
    hide ByTid, Rebuild, IsChain, IsStretch, Climbing, Tids;
    var j := RowsOf(es, t);
    StretchChain(es, j);
    InRest(es, i, j);
    if j < i {
      StretchChain(es, i - 1);
      FailureSpreads(env, es, j, i - 1);
    } else {
      RestIsDecoded(Wanted(env, ByTid(es)), Tids(es), i, floor, base, before, now, t);
    }
  }

  lemma Climbed(env: Env, es: seq<Entry>, i: nat, floor: Option<Bytes>, base: Option<Bytes>, before: map<Tid, Bytes>,
                now: map<Tid, Bytes>)
    requires IsStretch(es) && Acyclic(LinksOf(ByTid(es))) && i <= |es|
    requires Climbing(Wanted(env, ByTid(es)), Tids(es), i, floor, base, before, now)
    requires i > 0 ==> Wanted(env, ByTid(es))(es[i - 1].tid).None?
    ensures now == before + Rebuilt(env, ByTid(es))
    ensures i == 0 <==> Intact(env, ByTid(es))
  {
    hide ByTid, Rebuild, Acyclic, IsStretch, Climbing, Wanted, DecodeOver;
    var m := ByTid(es);
    forall t | t in m
      ensures HasChain(LinksOf(m), t) && Wanted(env, m)(t) == Tensor(env, m, t)
      ensures Tensor(env, m, t).Some? <==> t in Tids(es)[i..]
      ensures i == 0 ==> Tensor(env, m, t).Some?
    {
      ClimbedOne(env, es, i, floor, base, before, now, t);
    }
    ListedAreRows(es, i);
    MapsMeet(Wanted(env, m), Tids(es), i, floor, base, before, now, Rebuilt(env, m));
    if i > 0 {
      assert es[i - 1].tid in m;
    }
  }

  lemma TakenUnlessMissing(env: Env, e: Entry, base: Option<Bytes>)
    ensures DecodeOver(env, e, base).Some? ==> e.key in env.s3
  {
  }

  lemma BaseInHand(bytes: Tid -> Option<Bytes>, tids: seq<Tid>, i: nat, floor: Option<Bytes>, base: Option<Bytes>,
                   before: map<Tid, Bytes>, now: map<Tid, Bytes>)
    requires Climbing(bytes, tids, i, floor, base, before, now)
    ensures base == if i < |tids| then bytes(tids[i]) else floor
  {
  }

  /** The loop over one stretch, from its last entry to the tensor. */
  method Climb(env: Env, es: seq<Entry>, floor: Option<Bytes>, cache: TensorCache)
    returns (done: bool, taken: seq<Entry>)
    requires IsStretch(es) && Acyclic(LinksOf(ByTid(es))) && IsFloor(env, es, floor)
    requires cache.Valid() && cache.hash == env.hash
    modifies cache
    ensures cache.Valid()
    ensures cache.files == old(cache.files) + Rebuilt(env, ByTid(es))
    ensures done <==> Intact(env, ByTid(es))
    ensures taken <= Reversed(es) && (done ==> taken == Reversed(es))
    ensures forall i | 0 <= i < |es| :: HeaderStep(env, es, i, floor, Rebuilt(env, ByTid(es)))
  {
    hide Climbing, Acyclic, ByTid, Intact, IsStretch, IsFloor, Wanted, Rebuilt, HeaderStep;
    forall i | 0 <= i < |es| ensures HeaderStep(env, es, i, floor, Rebuilt(env, ByTid(es))) {
      StepByHeader(env, es, i, floor);
    }
    ghost var before := cache.files;
    ghost var bytes := Wanted(env, ByTid(es));
    var base, i: nat := floor, |es|;
    taken := [];
    StartClimbing(bytes, Tids(es), floor, before);
    while i > 0
      invariant i <= |es| && cache.Valid()
      invariant Climbing(bytes, Tids(es), i, floor, base, before, cache.files)
      invariant taken == Reversed(es)[..|es| - i]
    {
      TurnIsStep(env, es, i - 1, floor);
      BaseInHand(bytes, Tids(es), i, floor, base, before, cache.files);
      var out := DecodeOver(env, es[i - 1], base);
      if es[i - 1].key in env.s3 {
        taken := taken + [es[i - 1]];
      }
      TakenUnlessMissing(env, es[i - 1], base);
      if out.None? {
        Climbed(env, es, i, floor, base, before, cache.files);
        return false, taken;
      }
      ClimbStep(bytes, Tids(es), i, floor, base, before, cache.files, out.value);
      var stored := cache.Put(es[i - 1].tid, out.value);
      base, i := out, i - 1;
    }
    Climbed(env, es, 0, floor, base, before, cache.files);
    done := true;
  }

  lemma BaseAtCut(env: Env, rows: seq<Entry>, files: map<Tid, Bytes>, cut: nat, base: Option<Bytes>)
    requires IsStretch(rows) && rows != [] && rows[|rows| - 1].baseId.None? && 0 < cut <= |rows|
    requires cut < |rows| ==> rows[cut].tid in files && base == Some(files[rows[cut].tid])
    ensures IsFloor(From(env, files), rows[..cut], base)
  {
  }

  /** The miss path of the cache server. It cuts the chain where the materializer cuts it and
      leaves the cache as the materializer does, whether decoding succeeds or not. */
  method Materialize(c: M.Catalog, env: Env, tid: Tid, cache: TensorCache)
    returns (served: bool, why: M.Outcome<seq<Entry>>, taken: seq<Entry>, ghost chain: seq<Entry>, ghost cut: nat)
    requires cache.Valid() && cache.hash == env.hash
    modifies cache
    ensures cache.Valid()
    ensures tid in old(cache.files) ==> served && cache.files == old(cache.files)
    ensures tid !in old(cache.files) ==> M.WalkAnswer(c, tid, why)
    ensures tid !in old(cache.files) && !why.Ok? ==> !served && cache.files == old(cache.files)
    ensures tid !in old(cache.files) && why.Ok? ==>
      && why == M.Ok(chain) && IsAnswer(c, tid, chain) && CutAt(chain, old(cache.files).Keys, cut)
      && Acyclic(LinksOf(ByTid(chain[..cut])))
      && cache.files == old(cache.files) + Rebuilt(From(env, old(cache.files)), ByTid(chain[..cut]))
      && (served <==> Intact(From(env, old(cache.files)), ByTid(chain[..cut])))
      && taken <= Reversed(chain[..cut]) && (served ==> taken == Reversed(chain[..cut]))
    ensures tid in old(cache.files) || !why.Ok? ==> taken == []
  {
    hide M.WalkAnswer, IsStretch, ByTid, Acyclic, Intact, Rebuilt;
    taken, chain, cut := [], [], 0;
    if tid in cache.files {
      return true, M.UnknownModel, [], [], 0;
    }
    ghost var before := cache.files;
    why := M.ChainWalk(c, tid);
    if !why.Ok? {
      return false, why, [], [], 0;
    }
    var rows := why.value;
    AnswerIsStretch(c, tid, rows);
    var start, base := |rows|, None;
    var i := 1;
    while i < |rows| && start == |rows|
      invariant 1 <= i <= |rows| && start == |rows| && base == None
      invariant forall j | 0 <= j < i :: rows[j].tid !in before.Keys
    {
      if rows[i].tid in cache.files {
        start, base := i, Some(cache.files[rows[i].tid]);
        break;
      }
      i := i + 1;
    }
    chain, cut := rows, start;
    CutIsStretch(rows, before.Keys, start);
    StretchIsAcyclic(rows[..start]);
    BaseAtCut(env, rows, before, start, base);
    served, taken := Climb(From(env, cache.files), rows[..start], base, cache);
  }

  /** Both materializers decode the same entries of the same chain: what their contracts say
      of the cache is said of one and the same set of entries. */
  lemma SameCut(c: M.Catalog, tid: Tid, have: set<Tid>, chain: seq<Entry>, cut: nat, chain': seq<Entry>, cut': nat)
    requires IsAnswer(c, tid, chain) && CutAt(chain, have, cut)
    requires IsAnswer(c, tid, chain') && CutAt(chain', have, cut')
    ensures chain == chain' && cut == cut'
  {
    var q := Chain(M.AllLinks(c), tid);
    forall i | 0 <= i < |q| ensures chain[i] == chain'[i] {
      assert chain[i] == M.EntryOf(c, q[i]);
      assert chain'[i] == M.EntryOf(c, q[i]);
    }
  }
}
