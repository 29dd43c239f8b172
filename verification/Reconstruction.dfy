/** What a stored tensor means, and how long a run has to keep each decoded base. */
module Reconstruction {
  import opened Forest
  import opened Sequences
  import opened Traversal
  import opened BaseStores

  /** A stored blob after its header is parsed. */
  datatype Blob = Blob(baseTensorId: Option<Tid>, itemSize: Option<nat>, payload: Bytes)

  /** The outside world of a run: the object store, the codec, the content hash and the
      supplier of bases that are not among the entries. */
  datatype Env = Env(
    s3: map<string, Blob>,
    decompress: (Bytes, Bytes, nat) -> Option<Bytes>,
    hash: Bytes -> Tid,
    lookup: Tid -> Option<Bytes>)

  function ItemSize(blob: Blob): nat {
    if blob.itemSize.Some? then blob.itemSize.value else 2
  }

  /** The bytes of the first tid of chain `c`, rebuilt from the root down: None when a blob
      or an outside base is missing, a delta does not decode, or some hash is wrong. */
  ghost function Rebuild(env: Env, m: map<Tid, Entry>, c: seq<Tid>): Option<Bytes>
    requires IsChain(LinksOf(m), c)
  {
    var e := m[c[0]];
    if e.key !in env.s3 then None
    else
      var blob := env.s3[e.key];
      var out :=
        if e.baseId.None? then Some(blob.payload)
        else
          var base := if |c| == 1 then env.lookup(e.baseId.value) else Rebuild(env, m, c[1..]);
          if base.None? then None else env.decompress(blob.payload, base.value, ItemSize(blob));
      if out.Some? && env.hash(out.value) == c[0] then out else None
  }

  ghost function Tensor(env: Env, m: map<Tid, Entry>, t: Tid): Option<Bytes>
    requires HasChain(LinksOf(m), t)
  {
    Rebuild(env, m, Chain(LinksOf(m), t))
  }

  /** The decoded bytes deltas against `b` need, from the entries or from outside. */
  ghost function BaseBytes(env: Env, m: map<Tid, Entry>, b: Tid): Option<Bytes> {
    if HasChain(LinksOf(m), b) then Tensor(env, m, b) else env.lookup(b)
  }

  lemma ChainNeedsEntry(g: Links, t: Tid)
    requires HasChain(g, t)
    ensures t in g
  {
  }

  /** One step of `Tensor`: decode against the bytes of the base, then check the hash. */
  lemma TensorStep(env: Env, m: map<Tid, Entry>, t: Tid)
    requires HasChain(LinksOf(m), t)
    ensures t in m
    ensures
      Tensor(env, m, t) ==
      if m[t].key !in env.s3 then None
      else
        var blob := env.s3[m[t].key];
        var out :=
          if m[t].baseId.None? then Some(blob.payload)
          else
            var base := BaseBytes(env, m, m[t].baseId.value);
            if base.None? then None else env.decompress(blob.payload, base.value, ItemSize(blob));
        if out.Some? && env.hash(out.value) == t then out else None
  {
    var g := LinksOf(m);
    var c := Chain(g, t);
    if IsRoot(g, t) {
      RootChain(g, t);
      if m[t].baseId.Some? {
        assert !HasChain(g, m[t].baseId.value);
      }
    } else {
      BaseChain(g, t);
      assert c[1..] == Chain(g, m[t].baseId.value);
    }
  }

  // ---- the same, read off the headers

  /** The size of an item is the one in the header, or two bytes when the header has none. */
  ghost predicate HeaderSize(blob: Blob, n: nat) {
    blob.itemSize == Some(n) || (blob.itemSize == None && n == 2)
  }

  /** `x` is what `blob` stands for: its payload, or its delta applied to `over`. */
  ghost predicate Decodes(env: Env, blob: Blob, over: Option<Bytes>, x: Bytes) {
    if over.None? then x == blob.payload
    else exists n :: HeaderSize(blob, n) && env.decompress(blob.payload, over.value, n) == Some(x)
  }

  /** `x` has the right hash and is what the blob of `t` stands for, over the bytes of its base
      if it has one. */
  ghost predicate Means(env: Env, m: map<Tid, Entry>, t: Tid, x: Bytes) {
    && t in m && m[t].key in env.s3 && env.hash(x) == t
    && match m[t].baseId
       case None => Decodes(env, env.s3[m[t].key], None, x)
       case Some(b) => BaseBytes(env, m, b).Some? && Decodes(env, env.s3[m[t].key], BaseBytes(env, m, b), x)
  }

  /** A tensor is rebuilt to exactly the bytes its header, its base and its hash call for, and
      to none if there are no such bytes. */
  lemma TensorByHeader(env: Env, m: map<Tid, Entry>, t: Tid)
    requires HasChain(LinksOf(m), t)
    ensures forall x :: Tensor(env, m, t) == Some(x) <==> Means(env, m, t, x)
  {
    TensorStep(env, m, t);
    hide Tensor, BaseBytes;
    if m[t].key in env.s3 {
      assert forall n: nat :: HeaderSize(env.s3[m[t].key], n) <==> n == ItemSize(env.s3[m[t].key]);
    }
  }

  // ---- how many entries from position `pos` on are deltas against `b`

  ghost function Pending(order: seq<Entry>, b: Tid, pos: nat): (n: nat)
    requires pos <= |order|
    decreases |order| - pos
  {
    if pos == |order| then 0
    else (if order[pos].baseId == Some(b) then 1 else 0) + Pending(order, b, pos + 1)
  }

  lemma {:induction false} PendingFalls(order: seq<Entry>, b: Tid, i: nat, j: nat)
    requires i <= j <= |order|
    ensures Pending(order, b, j) <= Pending(order, b, i)
    decreases j - i
  {
    if i < j {
      PendingFalls(order, b, i + 1, j);
    }
  }

  lemma {:induction false} PendingHasUser(order: seq<Entry>, b: Tid, pos: nat) returns (j: nat)
    requires pos <= |order| && Pending(order, b, pos) > 0
    ensures pos <= j < |order| && order[j].baseId == Some(b)
    decreases |order| - pos
  {
    if order[pos].baseId == Some(b) {
      j := pos;
    } else {
      j := PendingHasUser(order, b, pos + 1);
    }
  }

  lemma {:induction false} UserIsPending(order: seq<Entry>, b: Tid, pos: nat, j: nat)
    requires pos <= j < |order| && order[j].baseId == Some(b)
    ensures Pending(order, b, pos) > 0
    decreases j - pos
  {
    if pos < j {
      UserIsPending(order, b, pos + 1, j);
    }
  }

  /** Over all positions, what is pending on `b` is the number of its children. */
  lemma {:induction false} PendingIsChildren(order: seq<Entry>, b: Tid, pos: nat)
    requires pos <= |order| && Distinct(Tids(order))
    ensures Pending(order, b, pos) == |set j | pos <= j < |order| && order[j].baseId == Some(b) :: order[j].tid|
    decreases |order| - pos
  {
    var s := set j | pos <= j < |order| && order[j].baseId == Some(b) :: order[j].tid;
    if pos == |order| {
      assert s == {};
    } else {
      var rest := set j | pos + 1 <= j < |order| && order[j].baseId == Some(b) :: order[j].tid;
      PendingIsChildren(order, b, pos + 1);
      var t := order[pos].tid;
      assert t == Tids(order)[pos];
      assert forall j | pos < j < |order| :: Tids(order)[j] == order[j].tid;
      assert t !in rest;
      if order[pos].baseId == Some(b) {
        assert s == rest + {t};
      } else {
        assert s == rest;
      }
    }
  }

  /** The entries in decode order. */
  ghost predicate Lined(m: map<Tid, Entry>, order: seq<Entry>) {
    IsPreorder(LinksOf(m), Tids(order)) && forall e | e in order :: e.tid in m && m[e.tid] == e
  }

  lemma LinedEntry(m: map<Tid, Entry>, order: seq<Entry>, i: nat)
    requires Lined(m, order) && i < |order|
    ensures order[i].tid in m && m[order[i].tid] == order[i] && Tids(order)[i] == order[i].tid
    ensures HasChain(LinksOf(m), order[i].tid)
  {
    assert order[i] in order;
    assert AboveIn(LinksOf(m), Tids(order)[i], Tids(order)[..i]);
  }

  lemma LinedPosition(m: map<Tid, Entry>, order: seq<Entry>, t: Tid) returns (i: nat)
    requires Lined(m, order) && t in m
    ensures i < |order| && order[i].tid == t
  {
    assert t in SetOf(Tids(order));
    i :| 0 <= i < |order| && Tids(order)[i] == t;
  }

  lemma LinedOnce(m: map<Tid, Entry>, order: seq<Entry>)
    requires Lined(m, order)
    ensures Distinct(Tids(order))
  {
  }

  /** The counts `dfs_order` returns are what is pending before the first decode. */
  lemma ChildrenArePending(m: map<Tid, Entry>, order: seq<Entry>, b: Tid)
    requires Lined(m, order)
    ensures |Children(LinksOf(m), b)| == Pending(order, b, 0)
  {
    hide Lined, IsChain;
    PendingIsChildren(order, b, 0) by { LinedOnce(m, order); }
    var s := set j | 0 <= j < |order| && order[j].baseId == Some(b) :: order[j].tid;
    forall t | t in Children(LinksOf(m), b) ensures t in s {
      var i := LinedPosition(m, order, t);
      LinedEntry(m, order, i);
    }
    forall t | t in s ensures t in Children(LinksOf(m), b) {
      var j :| 0 <= j < |order| && order[j].baseId == Some(b) && order[j].tid == t;
      LinedEntry(m, order, j);
    }
    assert s == Children(LinksOf(m), b);
  }

  /** Every tensor above an entry comes earlier. */
  lemma AncestorComesFirst(m: map<Tid, Entry>, order: seq<Entry>, j: nat, b: Tid) returns (i: nat)
    requires Lined(m, order) && j < |order| && ProperAncestor(LinksOf(m), b, order[j].tid)
    ensures i < j && Tids(order)[i] == order[i].tid == b
  {
    hide IsChain, Contiguous, SiblingsAscend, Chain, LinksOf;
    var a := Tids(order);
    assert AboveIn(LinksOf(m), a[j], a[..j]);
    i :| 0 <= i < j && a[..j][i] == b;
  }

  lemma BaseIsAbove(g: Links, t: Tid, b: Tid)
    requires HasChain(g, t) && t in g && g[t] == Some(b) && b in g
    ensures ProperAncestor(g, b, t)
  {
    BaseChain(g, t);
    assert Chain(g, t)[1..] == Chain(g, b);
    assert b in Chain(g, b);
  }

  /** An entry's base, when it is an entry itself, comes earlier. */
  lemma BaseComesFirst(m: map<Tid, Entry>, order: seq<Entry>, j: nat) returns (i: nat)
    requires Lined(m, order) && j < |order| && order[j].baseId.Some? && order[j].baseId.value in m
    ensures i < j && order[i].tid == order[j].baseId.value
  {
    hide IsPreorder;
    LinedEntry(m, order, j);
    BaseIsAbove(LinksOf(m), order[j].tid, order[j].baseId.value);
    i := AncestorComesFirst(m, order, j, order[j].baseId.value);
  }

  ghost predicate Visited(order: seq<Entry>, t: Tid, pos: nat)
    requires pos <= |order|
  {
    exists i | 0 <= i < pos :: order[i].tid == t
  }

  /** The live set is a path: a decoded entry that a later entry still needs lies above the
      entry about to be decoded. */
  lemma LiveOnPath(m: map<Tid, Entry>, order: seq<Entry>, b: Tid, pos: nat)
    requires Lined(m, order) && pos < |order|
    requires Visited(order, b, pos) && Pending(order, b, pos) > 0
    ensures ProperAncestor(LinksOf(m), b, order[pos].tid)
  {
    var g, a := LinksOf(m), Tids(order);
    var k :| 0 <= k < pos && order[k].tid == b;
    var j := PendingHasUser(order, b, pos);
    LinedEntry(m, order, k);
    LinedEntry(m, order, j);
    AncestorsOfChild(g, a[j], a[k], a[k]);
    assert ProperAncestor(g, a[k], a[j]);
    assert ProperAncestor(g, a[k], a[pos]);
  }
}
