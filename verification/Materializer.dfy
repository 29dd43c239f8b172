/** The materializer of the serving tier: a miss decodes the part of a delta chain that lies
    above the nearest cached ancestor; a warm job decodes what a transfer plan says is missing.
    Both write into the cache, which refuses bytes that do not hash to their tid. */
module Materializer {
  import opened Forest
  import opened Sequences
  import opened Traversal
  import opened BaseStores
  import opened Reconstruction
  import opened ClosureRun
  import opened Shortcut
  import opened TransferPlan
  import M = Manifest

  class TensorCache {
    var files: map<Tid, Bytes>
    const hash: Bytes -> Tid

    ghost predicate Valid()
      reads this
    {
      Correct(hash, files)
    }

    constructor (hash: Bytes -> Tid)
      ensures Valid() && files == map[] && this.hash == hash
    {
      this.hash := hash;
      files := map[];
    }

    /** Written only when the content hash is the tid. */
    method Put(tid: Tid, data: Bytes) returns (stored: bool)
      requires Valid()
      modifies this
      ensures Valid()
      ensures stored <==> hash(data) == tid
      ensures files == if stored then old(files)[tid := data] else old(files)
    {
      stored := hash(data) == tid;
      if stored {
        files := files[tid := data];
      }
    }

    method Evict(tid: Tid)
      requires Valid()
      modifies this
      ensures Valid() && files == old(files) - {tid}
    {
      files := files - {tid};
    }
  }

  // ---- a run whose tensors go into the cache

  /** The first `done` tensors of `order` have been written over `before`, each with its
      reconstruction; nothing else has changed. */
  ghost predicate Filled(env: Env, m: map<Tid, Entry>, order: seq<Entry>, done: nat, before: map<Tid, Bytes>,
                         after: map<Tid, Bytes>)
    requires done <= |order|
  {
    forall t ::
      && (t in after <==> t in before || Visited(order, t, done))
      && (t in after ==>
            if Visited(order, t, done) then BaseBytes(env, m, t) == Some(after[t]) else after[t] == before[t])
  }

  ghost predicate Grown(order: seq<Entry>, done: nat, before: map<Tid, Bytes>, after: map<Tid, Bytes>)
    requires done <= |order|
  {
    forall t ::
      && (t in after <==> t in before || Visited(order, t, done))
      && (t in after && !Visited(order, t, done) ==> after[t] == before[t])
  }

  lemma NothingGrown(env: Env, m: map<Tid, Entry>, order: seq<Entry>, files: map<Tid, Bytes>)
    ensures Grown(order, 0, files, files) && Filled(env, m, order, 0, files, files)
  {
  }

  lemma GrownStep(order: seq<Entry>, done: nat, before: map<Tid, Bytes>, after: map<Tid, Bytes>, data: Bytes)
    requires done < |order| && Grown(order, done, before, after)
    ensures Grown(order, done + 1, before, after[order[done].tid := data])
  {
    hide Visited;
    forall t ensures Visited(order, t, done + 1) <==> Visited(order, t, done) || order[done].tid == t {
      VisitedStep(order, t, done);
    }
  }

  lemma FilledStep(env: Env, m: map<Tid, Entry>, order: seq<Entry>, done: nat, before: map<Tid, Bytes>,
                   after: map<Tid, Bytes>, data: Bytes)
    requires done < |order| && Filled(env, m, order, done, before, after)
    requires BaseBytes(env, m, order[done].tid) == Some(data)
    ensures Filled(env, m, order, done + 1, before, after[order[done].tid := data])
  {
    hide Visited, BaseBytes;
    forall t ensures Visited(order, t, done + 1) <==> Visited(order, t, done) || order[done].tid == t {
      VisitedStep(order, t, done);
    }
  }

  /** What a run into the cache promises. */
  ghost predicate RanInto(env: Env, entries: seq<Entry>, r: Outcome, order: seq<Entry>, before: map<Tid, Bytes>,
                          after: map<Tid, Bytes>)
  {
    var m := ByTid(entries);
    && Lined(m, order)
    && |r.surfaced| <= |order|
    && (r.failure.None? <==> |r.surfaced| == |order|)
    && Grown(order, |r.surfaced|, before, after)
    && (Agrees(env, m) ==>
      && Filled(From(env, before), m, order, |r.surfaced|, before, after)
      && (forall b | b in r.lookups :: b !in m)
      && (r.failure.Some? ==> BaseBytes(From(env, before), m, order[|r.surfaced|].tid).None?))
  }

  lemma FaithfulBytes(env: Env, m: map<Tid, Entry>, order: seq<Entry>, r: Outcome, views: seq<map<Tid, Bytes>>)
    requires |r.surfaced| <= |order| && Faithful(env, m, order, r, views)
    ensures forall i | 0 <= i < |r.surfaced| :: BaseBytes(env, m, order[i].tid) == Some(r.surfaced[i].1)
    ensures r.failure.Some? ==> |r.surfaced| < |order| && BaseBytes(env, m, order[|r.surfaced|].tid).None?
    ensures forall b | b in r.lookups :: b !in m
  {
    hide BaseBytes, StoreExact;
  }

  lemma AgreesFrom(env: Env, files: map<Tid, Bytes>, m: map<Tid, Entry>)
    ensures Agrees(From(env, files), m) <==> Agrees(env, m)
  {
  }

  /** `run` with the cache's own entries as outside bases and its `put` as the consumer. The
      bases looked up are never among the entries written, so the cache at the start answers
      as the cache at the time of the call would. */
  method RunInto(env: Env, entries: seq<Entry>, ramBudget: int, cache: TensorCache)
    returns (r: Outcome, taken: seq<Entry>, ghost order: seq<Entry>)
    requires cache.Valid() && cache.hash == env.hash && Acyclic(LinksOf(ByTid(entries)))
    modifies cache
    ensures cache.Valid()
    ensures RanInto(env, entries, r, order, old(cache.files), cache.files) && Took(order, r, taken)
  {
    hide Lined, Faithful, Intact, ByTid, BaseBytes, Filled, Grown, Acyclic;
    ghost var before := cache.files;
    ghost var m := ByTid(entries);
    ghost var views;
    var from := From(env, cache.files);
    r, taken, order, views := Run(from, entries, ramBudget);
    AgreesFrom(env, before, m);
    if Agrees(env, m) {
      FaithfulBytes(from, m, order, r, views);
    }
    NothingGrown(from, m, order, before);
    for i := 0 to |r.surfaced|
      invariant cache.Valid()
      invariant Grown(order, i, before, cache.files)
      invariant Agrees(env, m) ==> Filled(from, m, order, i, before, cache.files)
    {
      var e, data := r.surfaced[i].0, r.surfaced[i].1;
      GrownStep(order, i, before, cache.files, data);
      if Agrees(env, m) {
        FilledStep(from, m, order, i, before, cache.files, data);
      }
      var stored := cache.Put(e.tid, data);
    }
  }

  // ---- the miss path

  datatype Served = Hit | Built | NoChain(why: M.Outcome<seq<Entry>>) | Broken(failure: Failure)

  /** The chain is cut at the first tensor the cache holds. */
  ghost predicate CutAt(chain: seq<Entry>, have: set<Tid>, n: nat) {
    && n <= |chain|
    && (forall i | 0 <= i < n :: chain[i].tid !in have)
    && (n < |chain| ==> chain[n].tid in have)
  }

  /** A chain as the metadata server answers it. */
  ghost predicate IsAnswer(c: M.Catalog, tid: Tid, chain: seq<Entry>) {
    M.WalkAnswer(c, tid, M.Ok(chain))
  }

  lemma AnswerIsStretch(c: M.Catalog, tid: Tid, chain: seq<Entry>)
    requires IsAnswer(c, tid, chain)
    ensures chain != [] && chain[0].tid == tid && IsStretch(chain) && chain[|chain| - 1].baseId.None?
  {
    var g := M.AllLinks(c);
    var q := Chain(g, tid);
    forall i | 0 <= i < |chain|
      ensures chain[i].tid == q[i] && chain[i].baseId == g[q[i]]
      ensures i + 1 < |q| ==> g[q[i]] == Some(q[i + 1])
    {
      ChainMembers(g, q, i);
    }
    assert Tids(chain) == q;
    forall i, j | 0 <= i < j < |q| ensures q[i] != q[j] {
      ChainDistinct(g, q, i, j);
    }
  }

  lemma CutIsStretch(chain: seq<Entry>, have: set<Tid>, n: nat)
    requires IsStretch(chain) && CutAt(chain, have, n) && chain != [] && chain[|chain| - 1].baseId.None?
    ensures IsStretch(chain[..n])
  {
    var es := chain[..n];
    assert Tids(es) == Tids(chain)[..n];
    if 0 < n < |chain| {
      assert es[n - 1].baseId == Some(chain[n].tid);
      forall k | 0 <= k < n ensures Tids(es)[k] != chain[n].tid {
        assert Tids(chain)[k] != Tids(chain)[n];
      }
    }
  }

  lemma TensorBytes(env: Env, m: map<Tid, Entry>, t: Tid)
    requires HasChain(LinksOf(m), t)
    ensures BaseBytes(env, m, t) == Tensor(env, m, t)
  {
    hide Rebuild;
  }

  lemma OnlyEntriesVisited(m: map<Tid, Entry>, order: seq<Entry>, done: nat)
    requires Lined(m, order) && done <= |order|
    ensures forall t | Visited(order, t, done) :: t in m
  {
    hide Lined;
    forall t | Visited(order, t, done) ensures t in m {
      var i :| 0 <= i < done && order[i].tid == t;
      LinedEntry(m, order, i);
    }
  }

  lemma EveryoneVisited(m: map<Tid, Entry>, order: seq<Entry>, t: Tid)
    requires Lined(m, order) && t in m
    ensures Visited(order, t, |order|)
  {
    hide Lined;
    var i := LinedPosition(m, order, t);
  }

  lemma FilledIsRebuilt(env: Env, m: map<Tid, Entry>, order: seq<Entry>, done: nat, before: map<Tid, Bytes>,
                        after: map<Tid, Bytes>)
    requires done <= |order| && Filled(env, m, order, done, before, after) && Acyclic(LinksOf(m))
    requires forall t | Visited(order, t, done) :: t in m
    requires forall t | t in m :: HasChain(LinksOf(m), t) && (Tensor(env, m, t).Some? <==> Visited(order, t, done))
    ensures after == before + Rebuilt(env, m)
  {
    hide Rebuild, Acyclic, Visited, IsChain;
  }

  lemma EveryoneHasChain(g: Links, t: Tid)
    requires Acyclic(g) && t in g
    ensures HasChain(g, t)
  {
  }

  lemma BelowIsAncestor(es: seq<Entry>, p: nat, q: nat)
    requires IsStretch(es) && p < q < |es|
    ensures ProperAncestor(LinksOf(ByTid(es)), es[q].tid, es[p].tid)
  {
    hide ByTid, IsStretch, IsChain;
    StretchChain(es, p);
    assert Tids(es)[p..][1..][q - p - 1] == es[q].tid;
  }

  lemma BelowComesFirst(es: seq<Entry>, order: seq<Entry>, k: nat, p: nat, q: nat) returns (i: nat)
    requires IsStretch(es) && Lined(ByTid(es), order) && k < |order| && p < q < |es| && es[p].tid == order[k].tid
    ensures i < k && Tids(order)[i] == es[q].tid
  {
    hide ByTid, IsStretch, Lined;
    BelowIsAncestor(es, p, q);
    i := AncestorComesFirst(ByTid(es), order, k, es[q].tid);
  }

  /** The entries of one chain are decoded root first. */
  lemma StretchOrder(es: seq<Entry>, order: seq<Entry>, k: nat, j: nat)
    requires IsStretch(es) && Lined(ByTid(es), order) && k <= j < |order|
    ensures HasChain(LinksOf(ByTid(es)), order[k].tid) && HasChain(LinksOf(ByTid(es)), order[j].tid)
    ensures forall env: Env :: Tensor(env, ByTid(es), order[k].tid).None? ==> Tensor(env, ByTid(es), order[j].tid).None?
  {
    hide ByTid, Rebuild, IsStretch;
    var m := ByTid(es);
    LinedEntry(m, order, k);
    LinedEntry(m, order, j);
    var p := RowsOf(es, order[k].tid);
    var q := RowsOf(es, order[j].tid);
    if p < q {
      var _ := BelowComesFirst(es, order, k, p, q);
    }
    forall env: Env | Tensor(env, m, order[k].tid).None? ensures Tensor(env, m, order[j].tid).None? {
      FailureSpreads(env, es, q, p);
    }
  }

  lemma StretchVisited(env: Env, es: seq<Entry>, order: seq<Entry>, done: nat, t: Tid, before: map<Tid, Bytes>,
                       after: map<Tid, Bytes>)
    requires IsStretch(es) && Lined(ByTid(es), order) && done <= |order| && t in ByTid(es) &&
      HasChain(LinksOf(ByTid(es)), t)
    requires Filled(env, ByTid(es), order, done, before, after)
    requires done < |order| ==> BaseBytes(env, ByTid(es), order[done].tid).None?
    ensures Tensor(env, ByTid(es), t).Some? <==> Visited(order, t, done)
  {
    hide ByTid, Rebuild, IsStretch;
    var m := ByTid(es);
    if !Visited(order, t, done) {
      var j := LinedPosition(m, order, t);
      LinedEntry(m, order, done);
      StretchOrder(es, order, done, j);
    }
  }

  /** On one chain, a run that fails has still stored everything that can be rebuilt. */
  lemma StretchFilled(env: Env, es: seq<Entry>, r: Outcome, order: seq<Entry>, before: map<Tid, Bytes>,
                      after: map<Tid, Bytes>)
    requires IsStretch(es) && Acyclic(LinksOf(ByTid(es)))
    requires RanInto(env, es, r, order, before, after) && Agrees(env, ByTid(es))
    ensures after == before + Rebuilt(From(env, before), ByTid(es))
    ensures r.failure.None? <==> Intact(From(env, before), ByTid(es))
  {
    hide ByTid, Lined, Acyclic, Grown, Agrees, Rebuild, Filled, Visited, IsStretch, Tensor, BaseBytes;
    var m, from, done := ByTid(es), From(env, before), |r.surfaced|;
    forall t | t in m
      ensures HasChain(LinksOf(m), t) && (Tensor(from, m, t).Some? <==> Visited(order, t, done))
    {
      EveryoneHasChain(LinksOf(m), t);
      StretchVisited(from, es, order, done, t, before, after);
    }
    OnlyEntriesVisited(m, order, done);
    FilledIsRebuilt(from, m, order, done, before, after);
    if r.failure.None? {
      forall t | t in m ensures Tensor(from, m, t).Some? {
        EveryoneVisited(m, order, t);
      }
    } else {
      LinedEntry(m, order, done);
      TensorBytes(from, m, order[done].tid);
    }
  }

  lemma RowsAreTids(es: seq<Entry>)
    ensures SetOf(Tids(es)) == ByTid(es).Keys
  {
    hide ByTid;
    forall t | t in Tids(es) ensures t in ByTid(es) {
      var i :| 0 <= i < |es| && Tids(es)[i] == t;
      assert es[i] in es;
    }
    forall t | t in ByTid(es) ensures t in Tids(es) {
      var _ := RowsOf(es, t);
    }
  }

  lemma LinedCount(es: seq<Entry>, order: seq<Entry>)
    requires IsStretch(es) && Lined(ByTid(es), order)
    ensures |order| == |es|
  {
    hide ByTid, IsChain, AboveIn, Contiguous, SiblingsAscend;
    DistinctCount(Tids(order));
    DistinctCount(Tids(es));
    RowsAreTids(es);
  }

  lemma NotAgain(m: map<Tid, Entry>, order: seq<Entry>, k: nat)
    requires Lined(m, order) && k < |order|
    ensures forall j | 0 <= j < k :: order[j].tid != order[k].tid
  {
    LinedOnce(m, order);
    assert forall j | 0 <= j < |order| :: Tids(order)[j] == order[j].tid;
  }

  lemma DistinctPlaces(es: seq<Entry>, i: nat, j: nat)
    requires IsStretch(es) && i < |es| && j < |es| && es[i].tid == es[j].tid
    ensures i == j
  {
    assert Tids(es)[i] == Tids(es)[j];
  }

  lemma StretchRow(es: seq<Entry>, i: nat)
    requires IsStretch(es) && i < |es|
    ensures es[i].tid in ByTid(es) && ByTid(es)[es[i].tid] == es[i]
    ensures i + 1 < |es| ==> es[i].baseId == Some(es[i + 1].tid) && es[i + 1].tid in ByTid(es)
  {
    hide ByTid;
    DistinctRows(es, i);
    if i + 1 < |es| {
      DistinctRows(es, i + 1);
    }
  }

  lemma NextIsBelow(es: seq<Entry>, order: seq<Entry>, k: nat)
    requires IsStretch(es) && Lined(ByTid(es), order) && |order| == |es| && k < |es|
    requires forall j | 0 <= j < k :: order[j] == es[|es| - 1 - j]
    ensures order[k] == es[|es| - 1 - k]
  {
    hide ByTid, IsStretch, Lined;
    LinedEntry(ByTid(es), order, k);
    var p := RowsOf(es, order[k].tid);
    StretchRow(es, p);
    var last := |es| - 1 - k;
    NotAgain(ByTid(es), order, k);
    forall q | last < q < |es| ensures es[q].tid != order[k].tid {
      assert order[|es| - 1 - q] == es[q];
    }
    if p < last {
      var i := BelowComesFirst(es, order, k, p, last);
      assert order[i] == es[|es| - 1 - i];
      DistinctPlaces(es, |es| - 1 - i, last);
    }
  }

  /** The entries of one chain are decoded in the reverse of the order of the chain. */
  lemma StretchBackwards(es: seq<Entry>, order: seq<Entry>)
    requires IsStretch(es) && Lined(ByTid(es), order)
    ensures order == Reversed(es)
  {
    hide ByTid, IsStretch, Lined, IsPreorder;
    LinedCount(es, order);
    for k := 0 to |es|
      invariant forall j | 0 <= j < k :: order[j] == es[|es| - 1 - j]
    {
      NextIsBelow(es, order, k);
    }
  }

  /** What has arrived is part of the entries, each once, and all of them after a complete run. */
  lemma TakenOnce(m: map<Tid, Entry>, order: seq<Entry>, taken: seq<Entry>)
    requires Lined(m, order) && taken <= order
    ensures Distinct(Tids(taken)) && forall e | e in taken :: e.tid in m && m[e.tid] == e
    ensures taken == order ==> SetOf(Tids(taken)) == m.Keys
  {
    assert forall i | 0 <= i < |taken| :: Tids(taken)[i] == Tids(order)[i] && taken[i] == order[i];
    hide Contiguous, SiblingsAscend, AboveIn;
  }

  lemma RanIntoLined(env: Env, es: seq<Entry>, r: Outcome, order: seq<Entry>, before: map<Tid, Bytes>,
                     after: map<Tid, Bytes>)
    requires RanInto(env, es, r, order, before, after)
    ensures Lined(ByTid(es), order) && |r.surfaced| <= |order| && (r.failure.None? <==> |r.surfaced| == |order|)
  {
    hide ByTid, Lined, Grown, Filled;
  }

  lemma StretchTaken(env: Env, es: seq<Entry>, r: Outcome, order: seq<Entry>, before: map<Tid, Bytes>,
                     after: map<Tid, Bytes>, taken: seq<Entry>)
    requires IsStretch(es) && RanInto(env, es, r, order, before, after) && Took(order, r, taken)
    ensures taken <= Reversed(es) && (r.failure.None? ==> taken == Reversed(es))
  {
    hide RanInto, ByTid, IsStretch, Lined, Reversed;
    RanIntoLined(env, es, r, order, before, after);
    StretchBackwards(es, order);
  }

  lemma TakenByRun(env: Env, es: seq<Entry>, r: Outcome, order: seq<Entry>, before: map<Tid, Bytes>,
                   after: map<Tid, Bytes>, taken: seq<Entry>)
    requires RanInto(env, es, r, order, before, after) && Took(order, r, taken)
    ensures Distinct(Tids(taken)) && forall e | e in taken :: e.tid in ByTid(es) && ByTid(es)[e.tid] == e
    ensures r.failure.None? ==> SetOf(Tids(taken)) == ByTid(es).Keys
  {
    hide RanInto, ByTid;
    RanIntoLined(env, es, r, order, before, after);
    TakenOnce(ByTid(es), order, taken);
  }

  lemma AllFilled(env: Env, es: seq<Entry>, r: Outcome, order: seq<Entry>, before: map<Tid, Bytes>,
                  after: map<Tid, Bytes>, i: nat)
    requires RanInto(env, es, r, order, before, after) && r.failure.None? && i < |es|
    ensures es[i].tid in after
  {
    hide ByTid, Lined;
    var j := LinedPosition(ByTid(es), order, es[i].tid);
    assert Visited(order, es[i].tid, |order|);
  }

  /** `/v1/tensor/{tid}`: afterwards the cache holds the tensor, or nothing it cannot rebuild. */
  method Materialize(c: M.Catalog, env: Env, tid: Tid, ramBudget: int, cache: TensorCache)
    returns (served: Served, taken: seq<Entry>, ghost chain: seq<Entry>, ghost cut: nat)
    requires cache.Valid() && cache.hash == env.hash
    modifies cache
    ensures cache.Valid()
    ensures served.Hit? <==> tid in old(cache.files)
    ensures served.Hit? || served.NoChain? ==> cache.files == old(cache.files)
    ensures served.NoChain? ==> !served.why.Ok? && M.WalkAnswer(c, tid, served.why)
    ensures served.Built? || served.Broken? ==>
      IsAnswer(c, tid, chain) && CutAt(chain, old(cache.files).Keys, cut) && Acyclic(LinksOf(ByTid(chain[..cut])))
    ensures (served.Built? || served.Broken?) && Agrees(env, ByTid(chain[..cut])) ==>
      && cache.files == old(cache.files) + Rebuilt(From(env, old(cache.files)), ByTid(chain[..cut]))
      && (served.Built? <==> Intact(From(env, old(cache.files)), ByTid(chain[..cut])))
    ensures served.Built? ==> tid in cache.files
    ensures served.Hit? || served.NoChain? ==> taken == []
    ensures served.Broken? ==> taken <= Reversed(chain[..cut])
    ensures served.Built? ==> taken == Reversed(chain[..cut])
  {
    hide M.WalkAnswer, ByTid, Acyclic, RanInto, IsStretch, Agrees, Took, Intact, Rebuilt, Reversed;
    taken, chain, cut := [], [], 0;
    if tid in cache.files {
      return Hit, [], [], 0;
    }
    ghost var before := cache.files;
    var walk := M.ChainWalk(c, tid);
    if !walk.Ok? {
      return NoChain(walk), [], [], 0;
    }
    var rows := walk.value;
    var n := 0;
    while n < |rows| && rows[n].tid !in cache.files
      invariant n <= |rows| && forall i | 0 <= i < n :: rows[i].tid !in cache.files.Keys
    {
      n := n + 1;
    }
    chain, cut := rows, n;
    AnswerIsStretch(c, tid, rows);
    CutIsStretch(rows, before.Keys, n);
    StretchIsAcyclic(rows[..n]);
    var r;
    ghost var order;
    r, taken, order := RunInto(env, rows[..n], ramBudget, cache);
    StretchTaken(env, rows[..n], r, order, before, cache.files, taken);
    if Agrees(env, ByTid(rows[..n])) {
      StretchFilled(env, rows[..n], r, order, before, cache.files);
    }
    if r.failure.None? {
      AllFilled(env, rows[..n], r, order, before, cache.files, 0);
      served := Built;
    } else {
      served := Broken(r.failure.value);
    }
  }

  lemma CutIndex(chain: seq<Entry>, have: set<Tid>, cut: nat, i: nat)
    requires CutAt(chain, have, cut) && i < cut && IsStretch(chain) && chain[|chain| - 1].baseId.None?
    ensures chain[..cut][i] == chain[i] && chain[i].tid !in have
    ensures chain[i].baseId.Some? ==> i + 1 < |chain| && (i + 1 < cut || chain[i].baseId.value in have)
  {
    hide Distinct;
  }

  lemma CutRow(chain: seq<Entry>, have: set<Tid>, cut: nat, t: Tid)
    requires IsStretch(chain) && chain != [] && chain[|chain| - 1].baseId.None?
    requires CutAt(chain, have, cut) && cut <= |chain| && t in ByTid(chain[..cut])
    ensures t in ByTid(chain) && ByTid(chain[..cut])[t] == ByTid(chain)[t] && t !in have
    ensures var e := ByTid(chain)[t];
      e.baseId.Some? ==> e.baseId.value in ByTid(chain[..cut]) || e.baseId.value in have
  {
    hide ByTid, IsStretch, CutAt;
    var es := chain[..cut];
    CutIsStretch(chain, have, cut);
    var i := RowsOf(es, t);
    CutIndex(chain, have, cut, i);
    StretchRow(es, i);
    StretchRow(chain, i);
  }

  lemma CutIsPart(chain: seq<Entry>, have: set<Tid>, cut: nat)
    requires IsStretch(chain) && chain != [] && chain[|chain| - 1].baseId.None?
    requires CutAt(chain, have, cut) && cut <= |chain|
    ensures IsPart(ByTid(chain[..cut]), ByTid(chain)) && M.ClosedLinks(LinksOf(ByTid(chain)))
    ensures NoGaps(LinksOf(ByTid(chain)), have, ByTid(chain[..cut]).Keys)
  {
    hide ByTid, IsStretch, CutAt;
    var m, full := ByTid(chain[..cut]), ByTid(chain);
    forall t | t in full ensures full[t].baseId.Some? ==> full[t].baseId.value in full {
      var i := RowsOf(chain, t);
      StretchRow(chain, i);
    }
    forall t | t in m
      ensures t in full && m[t] == full[t] && t !in have
      ensures m[t].baseId.Some? ==> m[t].baseId.value in m || m[t].baseId.value in have
    {
      CutRow(chain, have, cut, t);
    }
  }

  lemma CutChains(chain: seq<Entry>, have: set<Tid>, cut: nat, t: Tid)
    requires IsStretch(chain) && chain != [] && chain[|chain| - 1].baseId.None? && CutAt(chain, have, cut)
    requires t in ByTid(chain[..cut])
    ensures t in ByTid(chain)
  {
    hide ByTid, IsStretch;
    CutRow(chain, have, cut, t);
  }

  lemma FirstInCut(chain: seq<Entry>, have: set<Tid>, cut: nat)
    requires chain != [] && chain[0].tid !in have && CutAt(chain, have, cut)
    ensures chain[0].tid in ByTid(chain[..cut])
  {
    assert chain[..cut][0] == chain[0];
  }

  /** Cutting the chain never changes the answer: a tensor the whole chain rebuilds from S3 is
      rebuilt from the cached ancestor too, with the same bytes. */
  lemma CutKeepsMeaning(c: M.Catalog, env: Env, tid: Tid, chain: seq<Entry>, files: map<Tid, Bytes>, cut: nat)
    requires Separates(env.hash) && Correct(env.hash, files) && tid !in files
    requires IsAnswer(c, tid, chain) && CutAt(chain, files.Keys, cut)
    requires HasChain(LinksOf(ByTid(chain)), tid) && Tensor(env, ByTid(chain), tid).Some?
    ensures Acyclic(LinksOf(ByTid(chain[..cut]))) && Intact(From(env, files), ByTid(chain[..cut]))
    ensures tid in Rebuilt(From(env, files), ByTid(chain[..cut]))
    ensures Rebuilt(From(env, files), ByTid(chain[..cut]))[tid] == Tensor(env, ByTid(chain), tid).value
  {
    hide ByTid, Rebuild, IsAnswer, Acyclic, IsStretch, IsPart, Separates;
    var es := chain[..cut];
    var m, full := ByTid(es), ByTid(chain);
    AnswerIsStretch(c, tid, chain);
    CutIsPart(chain, files.Keys, cut);
    StretchIsAcyclic(chain);
    PartIsAcyclic(m, full);
    forall t | t in m
      ensures HasChain(LinksOf(m), t) && HasChain(LinksOf(full), t) && Tensor(env, full, t).Some?
      ensures Tensor(From(env, files), m, t) == Tensor(env, full, t)
    {
      var i := RowsOf(es, t);
      StretchChain(chain, i);
      if Tensor(env, full, t).None? {
        FailureSpreads(env, chain, 0, i);
      }
      CutChains(chain, files.Keys, cut, t);
      ShortcutIsExact(env, m, full, files, t);
    }
    FirstInCut(chain, files.Keys, cut);
  }

  // ---- the warm job

  lemma PartsOfClosure(full: map<Tid, Entry>, needed: set<Tid>)
    ensures IsPart(Part(full, needed), full)
  {
  }

  lemma AgreesPart(env: Env, full: map<Tid, Entry>, m: map<Tid, Entry>)
    requires IsPart(m, full) && Agrees(env, full)
    ensures Agrees(env, m)
  {
  }

  lemma Untouched(env: Env, es: seq<Entry>, r: Outcome, order: seq<Entry>, before: map<Tid, Bytes>,
                  after: map<Tid, Bytes>)
    requires RanInto(env, es, r, order, before, after)
    ensures forall t | t in before && t !in ByTid(es) :: t in after && after[t] == before[t]
  {
    hide ByTid, Lined;
    forall t | t in before && t !in ByTid(es) ensures t in after && after[t] == before[t] {
      if Visited(order, t, |r.surfaced|) {
        var i :| 0 <= i < |r.surfaced| && order[i].tid == t;
        LinedEntry(ByTid(es), order, i);
      }
    }
  }

  lemma NeededSuffices(man: M.Manifest, have: set<Tid>, needed: set<Tid>)
    requires Sound(man) && Sufficient(LinksOf(ByTid(man.closure)), man.params, have, needed)
    ensures forall k | 0 <= k < |man.params| :: man.params[k].1 in have || man.params[k].1 in needed
  {
    hide ByTid, Acyclic;
    var g := LinksOf(ByTid(man.closure));
    forall k | 0 <= k < |man.params| ensures man.params[k].1 in have || man.params[k].1 in needed {
      EveryoneHasChain(g, man.params[k].1);
      assert Decodable(have, needed, Chain(g, man.params[k].1));
    }
  }

  lemma WarmHolds(env: Env, es: seq<Entry>, r: Outcome, order: seq<Entry>, before: map<Tid, Bytes>,
                  after: map<Tid, Bytes>)
    requires RanInto(env, es, r, order, before, after) && r.failure.None?
    ensures forall t | t in before || t in ByTid(es) :: t in after
  {
    hide ByTid, Lined;
    forall t | t in ByTid(es) ensures t in after {
      var j := LinedPosition(ByTid(es), order, t);
      assert Visited(order, t, |order|);
    }
  }

  /** A warm job over a closure that S3 can rebuild does not fail, and what it leaves in the
      cache for every parameter are the bytes the whole chain stands for. */
  lemma WarmIsExact(man: M.Manifest, env: Env, es: seq<Entry>, needed: set<Tid>, r: Outcome, order: seq<Entry>,
                    before: map<Tid, Bytes>, after: map<Tid, Bytes>)
    requires Sound(man) && Separates(env.hash) && Correct(env.hash, before) && Correct(env.hash, after)
    requires Intact(env, ByTid(man.closure)) && Agrees(env, ByTid(es))
    requires ByTid(es) == Part(ByTid(man.closure), needed) && ByTid(es).Keys == needed
    requires NoGaps(LinksOf(ByTid(man.closure)), before.Keys, needed)
    requires Sufficient(LinksOf(ByTid(man.closure)), man.params, before.Keys, needed)
    requires RanInto(env, es, r, order, before, after)
    ensures r.failure.None?
    ensures forall k | 0 <= k < |man.params| ::
      && HasChain(LinksOf(ByTid(man.closure)), man.params[k].1)
      && man.params[k].1 in after
      && Tensor(env, ByTid(man.closure), man.params[k].1) == Some(after[man.params[k].1])
  {
    hide ByTid, Rebuild, Acyclic, Lined, NoGaps, Sufficient, Part, Agrees;
    var m, full := ByTid(es), ByTid(man.closure);
    PartsOfClosure(full, needed);
    if r.failure.Some? {
      var t := order[|r.surfaced|].tid;
      LinedEntry(m, order, |r.surfaced|);
      EveryoneHasChain(LinksOf(full), t);
      ShortcutIsExact(env, m, full, before, t);
    }
    WarmHolds(env, es, r, order, before, after);
    NeededSuffices(man, before.Keys, needed);
    forall k | 0 <= k < |man.params|
      ensures HasChain(LinksOf(full), man.params[k].1) && man.params[k].1 in after
      ensures Tensor(env, full, man.params[k].1) == Some(after[man.params[k].1])
    {
      var t := man.params[k].1;
      EveryoneHasChain(LinksOf(full), t);
      TensorStep(env, full, t);
      assert env.hash(Tensor(env, full, t).value) == t == env.hash(after[t]);
    }
  }

  /** `/v1/warm`: fetch what the plan says is missing and decode it into the cache. */
  method WarmJob(man: M.Manifest, env: Env, ramBudget: int, cache: TensorCache)
    returns (r: Outcome, taken: seq<Entry>, ghost fetched: map<Tid, Entry>)
    requires Sound(man) && cache.Valid() && cache.hash == env.hash
    modifies cache
    ensures cache.Valid()
    ensures forall t | t in old(cache.files) && t !in fetched ::
      t in cache.files && cache.files[t] == old(cache.files)[t]
    ensures forall s: set<Tid> ::
      Sufficient(LinksOf(ByTid(man.closure)), man.params, old(cache.files).Keys, s) <==> fetched.Keys <= s
    ensures Distinct(Tids(taken)) && (forall e | e in taken :: e.tid in fetched && fetched[e.tid] == e)
    ensures r.failure.None? ==> SetOf(Tids(taken)) == fetched.Keys
    ensures r.failure.None? ==> forall k | 0 <= k < |man.params| :: man.params[k].1 in cache.files
    ensures Separates(env.hash) && Agrees(env, ByTid(man.closure)) && Intact(env, ByTid(man.closure)) ==>
      && r.failure.None?
      && forall k | 0 <= k < |man.params| ::
        && HasChain(LinksOf(ByTid(man.closure)), man.params[k].1)
        && man.params[k].1 in cache.files
        && Tensor(env, ByTid(man.closure), man.params[k].1) == Some(cache.files[man.params[k].1])
  {
    hide Acyclic, RanInto, Sufficient, NoGaps, Agrees, Intact, Part, Correct, Separates, ByTid, Took, Tids, Distinct;
    ghost var before := cache.files;
    ghost var full := ByTid(man.closure);
    var fetch, needed := Plan(man, cache.files.Keys);
    fetched := ByTid(fetch);
    PartsOfClosure(full, needed);
    PartIsAcyclic(fetched, full);
    ghost var order;
    r, taken, order := RunInto(env, fetch, ramBudget, cache);
    Untouched(env, fetch, r, order, before, cache.files);
    TakenByRun(env, fetch, r, order, before, cache.files, taken);
    NeededSuffices(man, before.Keys, needed);
    if r.failure.None? {
      WarmHolds(env, fetch, r, order, before, cache.files);
    }
    if Separates(env.hash) && Agrees(env, full) && Intact(env, full) {
      AgreesPart(env, full, fetched);
      WarmIsExact(man, env, fetch, needed, r, order, before, cache.files);
    }
  }
}
