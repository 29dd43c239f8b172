/** Decoding from a cached ancestor instead of from the root. A cache entry is only ever
    written when its bytes hash to its tid; with a hash that separates contents this is
    enough for a cut chain to rebuild the very bytes the whole chain rebuilds. */
module Shortcut {
  import opened Forest
  import opened Sequences
  import opened Traversal
  import opened BaseStores
  import opened Reconstruction
  import opened Manifest
  import opened TransferPlan

  /** Different contents have different hashes. */
  ghost predicate Separates(hash: Bytes -> Tid) {
    forall x: Bytes, y: Bytes :: hash(x) == hash(y) ==> x == y
  }

  /** Every cached entry has the content its name promises. */
  ghost predicate Correct(hash: Bytes -> Tid, files: map<Tid, Bytes>) {
    forall t | t in files :: hash(files[t]) == t
  }

  /** The environment of a run whose outside bases come from the cache. */
  function From(env: Env, files: map<Tid, Bytes>): Env {
    env.(lookup := (t: Tid) => if t in files then Some(files[t]) else None)
  }

  /** From outside come exactly the bytes the cache holds; all else is as it was. */
  lemma FromCache(env: Env, files: map<Tid, Bytes>)
    ensures forall t, x :: From(env, files).lookup(t) == Some(x) <==> t in files && files[t] == x
    ensures From(env, files).s3 == env.s3 && From(env, files).hash == env.hash &&
      From(env, files).decompress == env.decompress
  {
  }

  ghost predicate IsPart(m: map<Tid, Entry>, full: map<Tid, Entry>) {
    forall t | t in m :: t in full && m[t] == full[t]
  }

  /** Leaving entries out only shortens chains. */
  lemma {:induction false} ShorterChain(m: map<Tid, Entry>, full: map<Tid, Entry>, t: Tid)
    requires IsPart(m, full) && t in m && HasChain(LinksOf(full), t)
    ensures HasChain(LinksOf(m), t)
    decreases |Chain(LinksOf(full), t)|
  {
    var g, h := LinksOf(full), LinksOf(m);
    if IsRoot(h, t) {
      RootChain(h, t);
    } else {
      BaseChain(g, t);
      ShorterChain(m, full, g[t].value);
      ChildChain(h, t, g[t].value);
    }
  }

  lemma PartIsAcyclic(m: map<Tid, Entry>, full: map<Tid, Entry>)
    requires IsPart(m, full) && Acyclic(LinksOf(full))
    ensures Acyclic(LinksOf(m))
  {
    forall t | t in LinksOf(m) ensures HasChain(LinksOf(m), t) {
      ShorterChain(m, full, t);
    }
  }

  lemma InClosed(g: Links, t: Tid, b: Tid)
    requires Acyclic(g) && ClosedLinks(g) && t in g && g[t] == Some(b)
    ensures b in g && HasChain(g, b) && !IsRoot(g, t)
  {
  }

  /** The shortcut changes nothing: what the whole forest rebuilds for `t`, the part above the
      cache rebuilds too, byte for byte. */
  lemma {:induction false} ShortcutIsExact(env: Env, m: map<Tid, Entry>, full: map<Tid, Entry>, files: map<Tid, Bytes>,
                                           t: Tid)
    requires IsPart(m, full) && Acyclic(LinksOf(full)) && ClosedLinks(LinksOf(full))
    requires Separates(env.hash) && Correct(env.hash, files)
    requires NoGaps(LinksOf(full), files.Keys, m.Keys)
    requires t in m && HasChain(LinksOf(full), t) && Tensor(env, full, t).Some?
    ensures HasChain(LinksOf(m), t) && Tensor(From(env, files), m, t) == Tensor(env, full, t)
    decreases |Chain(LinksOf(full), t)|
  {
    hide Rebuild, Acyclic, ClosedLinks;
    var g := LinksOf(full);
    ShorterChain(m, full, t);
    TensorStep(env, full, t);
    TensorStep(From(env, files), m, t);
    if full[t].baseId.Some? {
      var b := full[t].baseId.value;
      InClosed(g, t, b);
      BaseChain(g, t);
      TensorStep(env, full, b);
      if b in m {
        ShortcutIsExact(env, m, full, files, b);
      }
    }
  }

  // ---- one delta chain, cut at the first cached tensor

  /** Consecutive entries of one chain, the tensor first. */
  ghost predicate IsStretch(es: seq<Entry>) {
    && Distinct(Tids(es))
    && (forall i | 0 <= i < |es| - 1 :: es[i].baseId == Some(es[i + 1].tid))
    && (es != [] && es[|es| - 1].baseId.Some? ==> es[|es| - 1].baseId.value !in Tids(es))
  }

  lemma {:induction false} DistinctRows(es: seq<Entry>, i: nat)
    requires Distinct(Tids(es)) && i < |es|
    ensures es[i].tid in ByTid(es) && ByTid(es)[es[i].tid] == es[i]
  {
    hide ByTid;
    var last := |es| - 1;
    var front := es[..last];
    assert front + [es[last]] == es;
    ByTidSnoc(front, es[last]);
    if i < last {
      assert Tids(front) == Tids(es)[..last];
      DistinctRows(front, i);
      assert Tids(es)[i] != Tids(es)[last];
    }
  }

  lemma RowsOf(es: seq<Entry>, t: Tid) returns (i: nat)
    requires t in ByTid(es)
    ensures i < |es| && es[i].tid == t && t in Tids(es)
  {
    var e := ByTid(es)[t];
    i :| 0 <= i < |es| && es[i] == e;
    assert Tids(es)[i] == t;
  }

  lemma StretchLink(es: seq<Entry>, i: nat)
    requires IsStretch(es) && i + 1 < |es|
    ensures es[i].tid in ByTid(es) && ByTid(es)[es[i].tid] == es[i]
    ensures LinksOf(ByTid(es))[es[i].tid] == Some(es[i + 1].tid)
  {
    hide ByTid, Distinct;
    DistinctRows(es, i);
  }

  lemma StretchRoot(es: seq<Entry>)
    requires IsStretch(es) && es != []
    ensures var t := es[|es| - 1].tid;
      t in ByTid(es) && ByTid(es)[t] == es[|es| - 1] && IsRoot(LinksOf(ByTid(es)), t)
  {
    hide ByTid;
    var last := es[|es| - 1];
    DistinctRows(es, |es| - 1);
    if last.baseId.Some? && last.baseId.value in ByTid(es) {
      var _ := RowsOf(es, last.baseId.value);
    }
  }

  lemma {:induction false} StretchChain(es: seq<Entry>, i: nat)
    requires IsStretch(es) && i < |es|
    ensures es[i].tid in ByTid(es) && ByTid(es)[es[i].tid] == es[i]
    ensures HasChain(LinksOf(ByTid(es)), es[i].tid)
    ensures Chain(LinksOf(ByTid(es)), es[i].tid) == Tids(es)[i..]
    decreases |es| - i
  {
    hide ByTid, IsChain, IsStretch, HasChain, Chain, IsRoot;
    var g := LinksOf(ByTid(es));
    if i == |es| - 1 {
      StretchRoot(es);
      RootChain(g, es[i].tid);
      assert Tids(es)[i..] == [es[i].tid];
    } else {
      StretchChain(es, i + 1);
      StretchLink(es, i);
      ChildChain(g, es[i].tid, es[i + 1].tid);
      assert Tids(es)[i..] == [es[i].tid] + Tids(es)[i + 1..];
    }
  }

  lemma StretchIsAcyclic(es: seq<Entry>)
    requires IsStretch(es)
    ensures Acyclic(LinksOf(ByTid(es)))
  {
    hide ByTid;
    forall t | t in LinksOf(ByTid(es)) ensures HasChain(LinksOf(ByTid(es)), t) {
      var i := RowsOf(es, t);
      StretchChain(es, i);
    }
  }

  /** The entries of `m` that can be rebuilt, with their bytes. */
  ghost function Rebuilt(env: Env, m: map<Tid, Entry>): map<Tid, Bytes>
    requires Acyclic(LinksOf(m))
  {
    map t | t in m && Tensor(env, m, t).Some? :: Tensor(env, m, t).value
  }

  /** One tensor of a stretch: decoded from the next one, or from the cache at its end. */
  lemma StretchStep(env: Env, es: seq<Entry>, i: nat)
    requires IsStretch(es) && i < |es|
    ensures HasChain(LinksOf(ByTid(es)), es[i].tid)
    ensures i + 1 < |es| ==> HasChain(LinksOf(ByTid(es)), es[i + 1].tid)
    ensures
      Tensor(env, ByTid(es), es[i].tid) ==
      if es[i].key !in env.s3 then None
      else
        var blob := env.s3[es[i].key];
        var out :=
          if es[i].baseId.None? then Some(blob.payload)
          else
            var base := if i + 1 < |es| then Tensor(env, ByTid(es), es[i + 1].tid) else env.lookup(es[i].baseId.value);
            if base.None? then None else env.decompress(blob.payload, base.value, ItemSize(blob));
        if out.Some? && env.hash(out.value) == es[i].tid then out else None
  {
    hide ByTid, Rebuild, IsChain, Chain;
    var m := ByTid(es);
    StretchChain(es, i);
    TensorStep(env, m, es[i].tid);
    if i + 1 < |es| {
      StretchChain(es, i + 1);
    } else if es[i].baseId.Some? {
      var b := es[i].baseId.value;
      if HasChain(LinksOf(m), b) {
        ChainNeedsEntry(LinksOf(m), b);
        var _ := RowsOf(es, b);
      }
    }
  }

  /** What lies above a tensor that cannot be rebuilt cannot be rebuilt either. */
  lemma {:induction false} FailureSpreads(env: Env, es: seq<Entry>, i: nat, j: nat)
    requires IsStretch(es) && i <= j < |es|
    requires HasChain(LinksOf(ByTid(es)), es[j].tid) && Tensor(env, ByTid(es), es[j].tid).None?
    ensures HasChain(LinksOf(ByTid(es)), es[i].tid) && Tensor(env, ByTid(es), es[i].tid).None?
    decreases j - i
  {
    hide ByTid, Rebuild;
    if i < j {
      FailureSpreads(env, es, i + 1, j);
      StretchStep(env, es, i);
    }
  }
}
