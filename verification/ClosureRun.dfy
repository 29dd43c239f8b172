/** `ClosurePipeline.run`, seen from the decoding side: entries are consumed in pre-order,
    decoded bases are kept by reference count, bases outside the entries are looked up once.
    When the bytes of an entry arrive is the subject of module FetchProtocol. */
module ClosureRun {
  import opened Forest
  import opened Sequences
  import opened Traversal
  import opened BaseStores
  import opened Reconstruction

  datatype Failure =
    | Incomplete
    | FetchFailed(tid: Tid)
    | BaseUnavailable(base: Tid, tid: Tid)
    | DecodeFailed(tid: Tid)
    | HashMismatch(tid: Tid)

  /** `surfaced` is the sequence of `on_tensor` calls, `lookups` that of `base_lookup` calls. */
  datatype Outcome = Outcome(failure: Option<Failure>, surfaced: seq<(Entry, Bytes)>, lookups: seq<Tid>)

  /** Every blob that names its base names the one in the catalog. */
  ghost predicate Agrees(env: Env, m: map<Tid, Entry>) {
    forall t | t in m && m[t].key in env.s3 ::
      env.s3[m[t].key].baseTensorId in {None, m[t].baseId}
  }

  ghost predicate IsOutside(m: map<Tid, Entry>, b: Tid) {
    b !in m && exists t :: t in m && m[t].baseId == Some(b)
  }

  /** Some entry before `pos` needs `b`. */
  ghost predicate Used(order: seq<Entry>, b: Tid, pos: nat)
    requires pos <= |order|
  {
    Pending(order, b, pos) < Pending(order, b, 0)
  }

  /** `extra` is the base of entry `pos` once it has been resolved. */
  ghost predicate InUse(order: seq<Entry>, b: Tid, pos: nat, extra: Option<Tid>)
    requires pos <= |order|
  {
    Used(order, b, pos) || extra == Some(b)
  }

  /** `b` should be in the store: already decoded or looked up, and needed again. An outside
      base needed once is never stored. */
  ghost predicate Live(m: map<Tid, Entry>, order: seq<Entry>, pos: nat, extra: Option<Tid>, b: Tid)
    requires pos <= |order|
  {
    && Pending(order, b, pos) > 0
    && if b in m then Visited(order, b, pos) else InUse(order, b, pos, extra) && Pending(order, b, 0) > 1
  }

  ghost predicate Counted(m: map<Tid, Entry>, order: seq<Entry>, pos: nat, extra: Option<Tid>, b: Tid)
    requires pos <= |order|
  {
    b in m || (InUse(order, b, pos, extra) && Pending(order, b, 0) > 1)
  }

  ghost predicate StoreExact(bytes: Tid -> Option<Bytes>, m: map<Tid, Entry>, order: seq<Entry>, pos: nat,
                             extra: Option<Tid>,
                             view: map<Tid, Bytes>)
    requires pos <= |order|
  {
    forall b :: (b in view <==> Live(m, order, pos, extra, b)) && (b in view ==> bytes(b) == Some(view[b]))
  }

  ghost predicate CountsExact(m: map<Tid, Entry>, order: seq<Entry>, pos: nat, extra: Option<Tid>,
                              refcount: map<Tid, int>)
    requires pos <= |order|
  {
    forall b :: (b in refcount <==> Counted(m, order, pos, extra, b)) &&
      (b in refcount ==> refcount[b] == Pending(order, b, pos))
  }

  ghost predicate LookupsExact(m: map<Tid, Entry>, order: seq<Entry>, pos: nat, extra: Option<Tid>, lookups: seq<Tid>)
    requires pos <= |order|
  {
    Distinct(lookups) && forall b :: b in lookups <==> b !in m && InUse(order, b, pos, extra)
  }

  /** The state of a run before entry `pos`, or once the base of entry `pos` is at hand. */
  ghost predicate Exact(bytes: Tid -> Option<Bytes>, m: map<Tid, Entry>, order: seq<Entry>, pos: nat,
                        extra: Option<Tid>,
                        view: map<Tid, Bytes>, refcount: map<Tid, int>, lookups: seq<Tid>)
    requires pos <= |order|
  {
    && StoreExact(bytes, m, order, pos, extra, view)
    && CountsExact(m, order, pos, extra, refcount)
    && LookupsExact(m, order, pos, extra, lookups)
  }

  /** Only visited entries and outside bases are ever stored, whatever the blobs say. */
  ghost predicate StoredOnlyVisited(m: map<Tid, Entry>, order: seq<Entry>, pos: nat, view: map<Tid, Bytes>)
    requires pos <= |order|
  {
    forall b | b in view && b in m :: Visited(order, b, pos)
  }

  lemma PendingStep(order: seq<Entry>, b: Tid, pos: nat)
    requires pos < |order|
    ensures Pending(order, b, pos) == (if order[pos].baseId == Some(b) then 1 else 0) + Pending(order, b, pos + 1)
    ensures Used(order, b, pos + 1) <==> Used(order, b, pos) || order[pos].baseId == Some(b)
  {
    PendingFalls(order, b, 0, pos);
  }

  lemma VisitedStep(order: seq<Entry>, b: Tid, pos: nat)
    requires pos < |order|
    ensures Visited(order, b, pos + 1) <==> Visited(order, b, pos) || order[pos].tid == b
  {
    if Visited(order, b, pos) {
      var i :| 0 <= i < pos && order[i].tid == b;
      assert 0 <= i < pos + 1;
    }
    if order[pos].tid == b {
      assert 0 <= pos < pos + 1;
    }
  }

  lemma NotYetVisited(m: map<Tid, Entry>, order: seq<Entry>, pos: nat)
    requires Lined(m, order) && pos < |order|
    ensures !Visited(order, order[pos].tid, pos)
  {
    forall i | 0 <= i < pos ensures order[i].tid != order[pos].tid {
      assert Tids(order)[i] != Tids(order)[pos];
    }
  }

  /** How the need for `b` changes when entry `pos` is decoded. */
  ghost predicate NeedStep(m: map<Tid, Entry>, order: seq<Entry>, pos: nat, b: Tid)
    requires pos < |order|
  {
    && Pending(order, b, pos) == (if order[pos].baseId == Some(b) then 1 else 0) + Pending(order, b, pos + 1)
    && (Used(order, b, pos + 1) <==> Used(order, b, pos) || order[pos].baseId == Some(b))
    && (Visited(order, b, pos + 1) <==> Visited(order, b, pos) || order[pos].tid == b)
    && (order[pos].baseId == Some(b) ==> order[pos].tid != b && (b in m ==> Visited(order, b, pos)))
    && (b == order[pos].tid ==> b in m && !Visited(order, b, pos))
  }

  /** The store answers for every base that is an entry; any other base it lacks is new. */
  lemma StoreAnswers(bytes: Tid -> Option<Bytes>, m: map<Tid, Entry>, order: seq<Entry>, pos: nat,
                     view: map<Tid, Bytes>)
    requires pos < |order| && order[pos].baseId.Some? && NeedStep(m, order, pos, order[pos].baseId.value)
    requires StoreExact(bytes, m, order, pos, None, view)
    ensures var b := order[pos].baseId.value;
      b !in view ==> b !in m && !Used(order, b, pos) && Pending(order, b, pos) == Pending(order, b, 0) > 0
  {
    var b := order[pos].baseId.value;
    PendingFalls(order, b, 0, pos);
    assert b in view <==> Live(m, order, pos, None, b);
  }

  /** A base found in the store, or no base: nothing new comes into use. */
  lemma ResolvedFromStore(bytes: Tid -> Option<Bytes>, m: map<Tid, Entry>, order: seq<Entry>, pos: nat,
                          view: map<Tid, Bytes>, refcount: map<Tid, int>, lookups: seq<Tid>)
    requires pos < |order|
    requires Exact(bytes, m, order, pos, None, view, refcount, lookups)
    requires order[pos].baseId.Some? ==> order[pos].baseId.value in view
    ensures Exact(bytes, m, order, pos, order[pos].baseId, view, refcount, lookups)
  {
    var extra := order[pos].baseId;
    assert extra.Some? ==> Live(m, order, pos, None, extra.value);
    forall b
      ensures b !in m ==> (InUse(order, b, pos, extra) <==> InUse(order, b, pos, None))
      ensures Live(m, order, pos, extra, b) <==> Live(m, order, pos, None, b)
      ensures Counted(m, order, pos, extra, b) <==> Counted(m, order, pos, None, b)
    {
    }
  }

  lemma OutsideStore(bytes: Tid -> Option<Bytes>, m: map<Tid, Entry>, order: seq<Entry>, pos: nat,
                     view: map<Tid, Bytes>, b: Tid, data: Bytes)
    requires pos <= |order| && b !in m && Pending(order, b, pos) == Pending(order, b, 0) > 0
    requires StoreExact(bytes, m, order, pos, None, view) && bytes(b) == Some(data)
    ensures StoreExact(bytes, m, order, pos, Some(b), if Pending(order, b, 0) > 1 then view[b := data] else view)
  {
    forall x | x != b
      ensures Live(m, order, pos, Some(b), x) <==> Live(m, order, pos, None, x)
    {
    }
    assert !Live(m, order, pos, None, b);
    assert Live(m, order, pos, Some(b), b) <==> Pending(order, b, 0) > 1;
  }

  lemma OutsideCount(m: map<Tid, Entry>, order: seq<Entry>, pos: nat, refcount: map<Tid, int>, b: Tid)
    requires pos <= |order| && b !in m && Pending(order, b, pos) == Pending(order, b, 0) > 0
    requires CountsExact(m, order, pos, None, refcount)
    ensures var n := Pending(order, b, 0);
      CountsExact(m, order, pos, Some(b), if n > 1 then refcount[b := n] else refcount)
  {
    forall x | x != b
      ensures Counted(m, order, pos, Some(b), x) <==> Counted(m, order, pos, None, x)
    {
    }
    assert !Counted(m, order, pos, None, b);
    assert Counted(m, order, pos, Some(b), b) <==> Pending(order, b, 0) > 1;
  }

  lemma OutsideLookup(m: map<Tid, Entry>, order: seq<Entry>, pos: nat, b: Tid, lookups: seq<Tid>)
    requires pos <= |order| && b !in m && !Used(order, b, pos)
    requires LookupsExact(m, order, pos, None, lookups)
    ensures LookupsExact(m, order, pos, Some(b), lookups + [b])
  {
    assert !InUse(order, b, pos, None);
    assert b !in lookups;
    forall x ensures x in lookups + [b] <==> x !in m && InUse(order, x, pos, Some(b)) {
      assert x in lookups + [b] <==> x in lookups || x == b;
      assert x != b ==> (InUse(order, x, pos, Some(b)) <==> InUse(order, x, pos, None));
    }
  }

  /** A base supplied from outside comes into use, and is stored if it is needed twice. */
  lemma ResolvedFromOutside(bytes: Tid -> Option<Bytes>, m: map<Tid, Entry>, order: seq<Entry>, pos: nat,
                            view: map<Tid, Bytes>, refcount: map<Tid, int>, lookups: seq<Tid>, b: Tid, data: Bytes)
    requires pos < |order| && order[pos].baseId == Some(b) && NeedStep(m, order, pos, b)
    requires Exact(bytes, m, order, pos, None, view, refcount, lookups)
    requires b !in view && bytes(b) == Some(data)
    ensures var n := Pending(order, b, 0);
      Exact(bytes, m, order, pos, Some(b),
            if n > 1 then view[b := data] else view,
            if n > 1 then refcount[b := n] else refcount,
            lookups + [b])
  {
    var n := Pending(order, b, 0);
    StoreAnswers(bytes, m, order, pos, view);
    OutsideLookup(m, order, pos, b, lookups);
    OutsideStore(bytes, m, order, pos, view, b, data);
    OutsideCount(m, order, pos, refcount, b);
  }

  lemma OwnBase(m: map<Tid, Entry>, order: seq<Entry>, pos: nat)
    requires Lined(m, order) && pos < |order|
    ensures order[pos].baseId != Some(order[pos].tid)
  {
    if order[pos].baseId == Some(order[pos].tid) {
      LinedEntry(m, order, pos);
      var i := BaseComesFirst(m, order, pos);
      NotYetVisited(m, order, pos);
      assert false;
    }
  }

  lemma NeedSteps(m: map<Tid, Entry>, order: seq<Entry>, pos: nat, b: Tid)
    requires Lined(m, order) && pos < |order|
    ensures NeedStep(m, order, pos, b)
  {
    PendingStep(order, b, pos);
    VisitedStep(order, b, pos);
    OwnBase(m, order, pos);
    LinedEntry(m, order, pos);
    NotYetVisited(m, order, pos);
    if order[pos].baseId == Some(b) && b in m {
      var i := BaseComesFirst(m, order, pos);
    }
  }

  /** The counts after a tensor with base `base` is decoded. */
  ghost function CountsAfter(base: Option<Tid>, refcount: map<Tid, int>): map<Tid, int> {
    if base.Some? && base.value in refcount then refcount[base.value := refcount[base.value] - 1] else refcount
  }

  lemma AdvanceCounts(m: map<Tid, Entry>, order: seq<Entry>, pos: nat, refcount: map<Tid, int>)
    requires pos < |order| && forall b :: NeedStep(m, order, pos, b)
    requires CountsExact(m, order, pos, order[pos].baseId, refcount)
    ensures CountsExact(m, order, pos + 1, None, CountsAfter(order[pos].baseId, refcount))
  {
    var c := CountsAfter(order[pos].baseId, refcount);
    forall b
      ensures b in c <==> Counted(m, order, pos + 1, None, b)
      ensures b in c ==> c[b] == Pending(order, b, pos + 1)
    {
      assert NeedStep(m, order, pos, b);
      assert b in refcount <==> Counted(m, order, pos, order[pos].baseId, b);
    }
  }

  /** The store after `tid` is decoded. */
  ghost function ViewAfter(tid: Tid, base: Option<Tid>, view: map<Tid, Bytes>, refcount: map<Tid, int>, out: Bytes)
    : map<Tid, Bytes>
  {
    var kept := if tid in refcount && refcount[tid] > 0 then view[tid := out] else view;
    if base.Some? && base.value in refcount && refcount[base.value] == 1 then kept - {base.value} else kept
  }

  lemma AdvanceStore(bytes: Tid -> Option<Bytes>, m: map<Tid, Entry>, order: seq<Entry>, pos: nat,
                     view: map<Tid, Bytes>, refcount: map<Tid, int>, out: Bytes)
    requires pos < |order| && forall b :: NeedStep(m, order, pos, b)
    requires StoreExact(bytes, m, order, pos, order[pos].baseId, view)
    requires CountsExact(m, order, pos, order[pos].baseId, refcount)
    requires bytes(order[pos].tid) == Some(out)
    ensures StoreExact(bytes, m, order, pos + 1, None,
      ViewAfter(order[pos].tid, order[pos].baseId, view, refcount, out))
  {
    var v := ViewAfter(order[pos].tid, order[pos].baseId, view, refcount, out);
    forall b
      ensures b in v <==> Live(m, order, pos + 1, None, b)
      ensures b in v ==> bytes(b) == Some(v[b])
    {
      assert NeedStep(m, order, pos, b);
      PendingFalls(order, b, 0, pos + 1);
      assert b in refcount <==> Counted(m, order, pos, order[pos].baseId, b);
      assert b in view <==> Live(m, order, pos, order[pos].baseId, b);
      if b == order[pos].tid {
        assert b in refcount && refcount[b] == Pending(order, b, pos) == Pending(order, b, pos + 1);
      } else if order[pos].baseId == Some(b) {
        assert b in refcount ==> refcount[b] == Pending(order, b, pos);
      } else {
        assert b in v <==> b in view;
      }
    }
  }

  /** Decoding entry `pos`: keep it if a later entry needs it, let its base go if none does. */
  lemma Advance(bytes: Tid -> Option<Bytes>, m: map<Tid, Entry>, order: seq<Entry>, pos: nat,
                view: map<Tid, Bytes>, refcount: map<Tid, int>, lookups: seq<Tid>, out: Bytes)
    requires pos < |order| && forall b :: NeedStep(m, order, pos, b)
    requires Exact(bytes, m, order, pos, order[pos].baseId, view, refcount, lookups)
    requires bytes(order[pos].tid) == Some(out)
    ensures Exact(bytes, m, order, pos + 1, None,
                  ViewAfter(order[pos].tid, order[pos].baseId, view, refcount, out),
                    CountsAfter(order[pos].baseId, refcount), lookups)
  {
    AdvanceStore(bytes, m, order, pos, view, refcount, out);
    AdvanceCounts(m, order, pos, refcount);
    forall b ensures b in lookups <==> b !in m && InUse(order, b, pos + 1, None) {
      assert NeedStep(m, order, pos, b);
      assert b in lookups <==> b !in m && InUse(order, b, pos, order[pos].baseId);
    }
  }

  /** The bytes a run should hold for a base, as a function of its tid. */
  ghost function Wanted(env: Env, m: map<Tid, Entry>): Tid -> Option<Bytes> {
    (b: Tid) => BaseBytes(env, m, b)
  }

  function Refs(refs: map<Tid, int>, b: Tid): int {
    if b in refs then refs[b] else 0
  }

  /** How many entries need each base that is not an entry. */
  method CountExternal(order: seq<Entry>, byTid: map<Tid, Entry>) returns (extRefs: map<Tid, int>)
    ensures forall b | b !in byTid :: Refs(extRefs, b) == Pending(order, b, 0)
    ensures forall b | b in byTid :: b !in extRefs
  {
    extRefs := map[];
    for i := 0 to |order|
      invariant forall b | b in byTid :: b !in extRefs
      invariant forall b | b !in byTid :: Refs(extRefs, b) + Pending(order, b, i) == Pending(order, b, 0)
    {
      var b := order[i].baseId;
      if b.Some? && b.value !in byTid {
        extRefs := extRefs[b.value := Refs(extRefs, b.value) + 1];
      }
    }
  }

  /** The base from the store, else from outside; an outside base needed again is stored. */
  method ResolveBase(env: Env, base: Tid, extRefs: map<Tid, int>, counts: map<Tid, int>, store: BaseStore)
    returns (data: Option<Bytes>, asked: bool, refcount: map<Tid, int>)
    requires store.Valid()
    modifies store
    ensures store.Valid()
    ensures asked <==> base !in old(store.View())
    ensures data == if asked then env.lookup(base) else Some(old(store.View())[base])
    ensures
      if asked && data.Some? && Refs(extRefs, base) > 1
      then store.View() == old(store.View())[base := data.value] && refcount == counts[base := extRefs[base]]
      else store.View() == old(store.View()) && refcount == counts
  {
    refcount, asked := counts, false;
    data := store.Get(base);
    if data.None? {
      data, asked := env.lookup(base), true;
      if data.Some? && Refs(extRefs, base) > 1 {
        store.Put(base, data.value);
        refcount := refcount[base := extRefs[base]];
      }
    }
  }

  /** Keep what later entries need, let go of a base nobody needs any more. */
  method KeepOrRelease(tid: Tid, base: Option<Tid>, out: Bytes, counts: map<Tid, int>, store: BaseStore)
    returns (refcount: map<Tid, int>)
    requires store.Valid() && tid !in store.View()
    modifies store
    ensures store.Valid()
    ensures refcount == CountsAfter(base, counts)
    ensures store.View() == ViewAfter(tid, base, old(store.View()), counts, out)
  {
    refcount := counts;
    if Refs(refcount, tid) > 0 {
      store.Put(tid, out);
    }
    if base.Some? && base.value in refcount {
      refcount := refcount[base.value := refcount[base.value] - 1];
      if refcount[base.value] == 0 {
        store.Drop(base.value);
      }
    }
  }

  function NamedBase(blob: Blob, e: Entry): Option<Tid> {
    if blob.baseTensorId.Some? then blob.baseTensorId else e.baseId
  }

  /** What decoding one entry against the store must yield. */
  ghost predicate Verdict(env: Env, e: Entry, base: Option<Tid>, view: map<Tid, Bytes>, failure: Option<Failure>,
                          out: Bytes)
    requires e.key in env.s3
  {
    var blob := env.s3[e.key];
    if base.None? then
      if env.hash(blob.payload) == e.tid then failure.None? && out == blob.payload
      else failure == Some(HashMismatch(e.tid))
    else
      var b := base.value;
      var data := if b in view then Some(view[b]) else env.lookup(b);
      if data.None? then failure == Some(BaseUnavailable(b, e.tid))
      else
        var r := env.decompress(blob.payload, data.value, ItemSize(blob));
        if r.None? then failure == Some(DecodeFailed(e.tid))
        else if env.hash(r.value) != e.tid then failure == Some(HashMismatch(e.tid))
        else failure.None? && out == r.value
  }

  /** The store and counts `DecodeEntry` leaves behind. */
  ghost predicate Resolved(env: Env, e: Entry, extRefs: map<Tid, int>, base: Option<Tid>, asked: seq<Tid>,
                           view: map<Tid, Bytes>, counts: map<Tid, int>,
                           view': map<Tid, Bytes>, counts': map<Tid, int>)
  {
    if e.key !in env.s3 || base.None? then asked == [] && view' == view && counts' == counts
    else
      var b := base.value;
      var data := if b in view then Some(view[b]) else env.lookup(b);
      && asked == (if b in view then [] else [b])
      && (if b !in view && data.Some? && Refs(extRefs, b) > 1
          then view' == view[b := data.value] && counts' == counts[b := extRefs[b]]
          else view' == view && counts' == counts)
  }

  /** Everything `DecodeEntry` promises. */
  ghost predicate Decoded(env: Env, e: Entry, extRefs: map<Tid, int>, base: Option<Tid>, asked: seq<Tid>,
                          view: map<Tid, Bytes>, counts: map<Tid, int>, view': map<Tid, Bytes>, counts': map<Tid, int>,
                          failure: Option<Failure>, out: Bytes)
  {
    && Resolved(env, e, extRefs, base, asked, view, counts, view', counts')
    && (failure.None? ==> env.hash(out) == e.tid)
    && failure != Some(Incomplete)
    && if e.key in env.s3 then base == NamedBase(env.s3[e.key], e) && Verdict(env, e, base, view, failure, out)
       else failure == Some(FetchFailed(e.tid))
  }

  /** Fetch result, base, decode, hash check for one entry. */
  method DecodeEntry(env: Env, e: Entry, extRefs: map<Tid, int>, counts: map<Tid, int>, store: BaseStore)
    returns (failure: Option<Failure>, out: Bytes, base: Option<Tid>, asked: seq<Tid>, refcount: map<Tid, int>)
    requires store.Valid()
    modifies store
    ensures store.Valid()
    ensures Decoded(env, e, extRefs, base, asked, old(store.View()), counts, store.View(), refcount, failure, out)
  {
    refcount, asked, out, base := counts, [], [], None;
    if e.key !in env.s3 {
      failure := Some(FetchFailed(e.tid));
      return;
    }
    var blob := env.s3[e.key];
    base := NamedBase(blob, e);
    if base.None? {
      out := blob.payload;
    } else {
      var data, outside;
      data, outside, refcount := ResolveBase(env, base.value, extRefs, counts, store);
      asked := if outside then [base.value] else [];
      if data.None? {
        failure := Some(BaseUnavailable(base.value, e.tid));
        return;
      }
      var r := env.decompress(blob.payload, data.value, ItemSize(blob));
      if r.None? {
        failure := Some(DecodeFailed(e.tid));
        return;
      }
      out := r.value;
    }
    failure := if env.hash(out) != e.tid then Some(HashMismatch(e.tid)) else None;
  }

  lemma ViewIsWanted(bytes: Tid -> Option<Bytes>, m: map<Tid, Entry>, order: seq<Entry>, pos: nat,
                     view: map<Tid, Bytes>, b: Tid)
    requires pos <= |order| && StoreExact(bytes, m, order, pos, None, view)
    ensures b in view ==> bytes(b) == Some(view[b])
  {
    hide Live;
  }

  lemma AnswerIsWanted(env: Env, m: map<Tid, Entry>, b: Tid, view: map<Tid, Bytes>)
    requires b in view ==> Wanted(env, m)(b) == Some(view[b])
    requires b !in view ==> b !in m
    ensures BaseBytes(env, m, b) == if b in view then Some(view[b]) else env.lookup(b)
  {
    assert Wanted(env, m)(b) == BaseBytes(env, m, b);
    if b !in m {
      assert !HasChain(LinksOf(m), b);
    }
  }

  /** Decoding an entry against an exact store gives the tensor the entry means. */
  lemma VerdictIsTensor(env: Env, m: map<Tid, Entry>, order: seq<Entry>, pos: nat, view: map<Tid, Bytes>,
                        failure: Option<Failure>, out: Bytes)
    requires Agrees(env, m) && Lined(m, order) && pos < |order|
    requires StoreExact(Wanted(env, m), m, order, pos, None, view)
    requires order[pos].key in env.s3 ==>
      Verdict(env, order[pos], NamedBase(env.s3[order[pos].key], order[pos]), view, failure, out)
    requires order[pos].key !in env.s3 ==> failure == Some(FetchFailed(order[pos].tid))
    ensures order[pos].key in env.s3 ==> NamedBase(env.s3[order[pos].key], order[pos]) == order[pos].baseId
    ensures BaseBytes(env, m, order[pos].tid) == if failure.None? then Some(out) else None
    ensures failure.Some? && failure.value.BaseUnavailable? ==>
      failure.value.base !in m && env.lookup(failure.value.base) == None
  {
    hide Lined, StoreExact, IsChain, Rebuild, Live;
    var e := order[pos];
    LinedEntry(m, order, pos);
    TensorStep(env, m, e.tid);
    if e.key in env.s3 && e.baseId.Some? {
      NeedSteps(m, order, pos, e.baseId.value);
      StoreAnswers(Wanted(env, m), m, order, pos, view);
      ViewIsWanted(Wanted(env, m), m, order, pos, view, e.baseId.value);
      AnswerIsWanted(env, m, e.baseId.value, view);
    }
  }

  ghost predicate RefsFit(m: map<Tid, Entry>, order: seq<Entry>, extRefs: map<Tid, int>) {
    && (forall b | b in m :: b !in extRefs)
    && (forall b | b !in m :: Refs(extRefs, b) == Pending(order, b, 0))
  }

  lemma ResolvedKeepsVisited(env: Env, m: map<Tid, Entry>, order: seq<Entry>, pos: nat, extRefs: map<Tid, int>,
                             base: Option<Tid>, asked: seq<Tid>, view: map<Tid, Bytes>, counts: map<Tid, int>,
                             view': map<Tid, Bytes>, counts': map<Tid, int>)
    requires Lined(m, order) && pos < |order| && RefsFit(m, order, extRefs)
    requires StoredOnlyVisited(m, order, pos, view)
    requires Resolved(env, order[pos], extRefs, base, asked, view, counts, view', counts')
    ensures StoredOnlyVisited(m, order, pos, view') && order[pos].tid !in view'
  {
    NotYetVisited(m, order, pos);
    LinedEntry(m, order, pos);
  }

  lemma RefsOfOutside(m: map<Tid, Entry>, order: seq<Entry>, extRefs: map<Tid, int>, b: Tid)
    requires RefsFit(m, order, extRefs) && b !in m
    ensures Refs(extRefs, b) == Pending(order, b, 0)
    ensures Refs(extRefs, b) > 1 ==> extRefs[b] == Pending(order, b, 0)
  {
  }

  lemma ResolvedKeepsExact(env: Env, bytes: Tid -> Option<Bytes>, m: map<Tid, Entry>, order: seq<Entry>, pos: nat,
                           extRefs: map<Tid, int>, asked: seq<Tid>, view: map<Tid, Bytes>, counts: map<Tid, int>,
                           view': map<Tid, Bytes>, counts': map<Tid, int>, lookups: seq<Tid>)
    requires pos < |order| && RefsFit(m, order, extRefs) && order[pos].key in env.s3
    requires Exact(bytes, m, order, pos, None, view, counts, lookups)
    requires Resolved(env, order[pos], extRefs, order[pos].baseId, asked, view, counts, view', counts')
    requires order[pos].baseId.Some? && order[pos].baseId.value !in view ==>
      var b := order[pos].baseId.value;
      NeedStep(m, order, pos, b) && env.lookup(b).Some? && bytes(b) == env.lookup(b)
    ensures Exact(bytes, m, order, pos, order[pos].baseId, view', counts', lookups + asked)
  {
    if order[pos].baseId.Some? && order[pos].baseId.value !in view {
      var b := order[pos].baseId.value;
      StoreAnswers(bytes, m, order, pos, view);
      ResolvedFromOutside(bytes, m, order, pos, view, counts, lookups, b, env.lookup(b).value);
      RefsOfOutside(m, order, extRefs, b);
    } else {
      ResolvedFromStore(bytes, m, order, pos, view, counts, lookups);
      assert lookups + asked == lookups;
    }
  }

  ghost predicate OnPath(g: Links, t: Tid, held: set<Tid>) {
    forall b | b in held && b in g :: ProperAncestor(g, b, t)
  }

  lemma HeldOnPath(bytes: Tid -> Option<Bytes>, m: map<Tid, Entry>, order: seq<Entry>, pos: nat, view: map<Tid, Bytes>)
    requires Lined(m, order) && pos < |order| && StoreExact(bytes, m, order, pos, None, view)
    ensures OnPath(LinksOf(m), order[pos].tid, view.Keys)
  {
    forall b | b in view && b in LinksOf(m) ensures ProperAncestor(LinksOf(m), b, order[pos].tid) {
      assert Live(m, order, pos, None, b);
      LiveOnPath(m, order, b, pos);
    }
  }

  /** When blobs and catalog agree: what surfaces is the reconstruction, a failure is one of
      the reconstruction, before each entry the store holds exactly what is still needed, and
      no outside base is looked up twice. */
  ghost predicate Faithful(env: Env, m: map<Tid, Entry>, order: seq<Entry>, r: Outcome, views: seq<map<Tid, Bytes>>)
    requires |r.surfaced| <= |order|
  {
    && (forall i | 0 <= i < |r.surfaced| :: BaseBytes(env, m, order[i].tid) == Some(r.surfaced[i].1))
    && (r.failure.Some? ==> |r.surfaced| < |order| && BaseBytes(env, m, order[|r.surfaced|].tid) == None)
    && (r.failure.Some? && r.failure.value.BaseUnavailable? ==>
          r.failure.value.base !in m && env.lookup(r.failure.value.base) == None)
    && |views| == |r.surfaced| + (if r.failure.Some? then 1 else 0) <= |order|
    && (forall i | 0 <= i < |views| :: StoreExact(Wanted(env, m), m, order, i, None, views[i]))
    && Distinct(r.lookups)
    && (forall b | b in r.lookups :: b !in m && Pending(order, b, 0) > 0)
    && (r.failure.None? ==> forall b | b !in m && Pending(order, b, 0) > 0 :: b in r.lookups)
  }

  /** Between two entries, the entries still held are bases above the next one. */
  lemma HeldOnPaths(env: Env, m: map<Tid, Entry>, order: seq<Entry>, r: Outcome, views: seq<map<Tid, Bytes>>)
    requires Lined(m, order) && |r.surfaced| <= |order| && Faithful(env, m, order, r, views)
    ensures |views| <= |order| && forall i | 0 <= i < |views| :: OnPath(LinksOf(m), order[i].tid, views[i].Keys)
  {
    hide Lined, BaseBytes, OnPath, StoreExact;
    forall i | 0 <= i < |views| ensures OnPath(LinksOf(m), order[i].tid, views[i].Keys) {
      HeldOnPath(Wanted(env, m), m, order, i, views[i]);
    }
  }

  lemma StartsExact(bytes: Tid -> Option<Bytes>, m: map<Tid, Entry>, order: seq<Entry>, counts: map<Tid, int>)
    requires counts.Keys == m.Keys && forall b | b in m :: counts[b] == Pending(order, b, 0)
    ensures Exact(bytes, m, order, 0, None, map[], counts, [])
  {
  }

  lemma EndsEmpty(bytes: Tid -> Option<Bytes>, m: map<Tid, Entry>, order: seq<Entry>, view: map<Tid, Bytes>)
    requires StoreExact(bytes, m, order, |order|, None, view)
    ensures view == map[]
  {
    forall b ensures b !in view {
      assert !Live(m, order, |order|, None, b);
    }
  }

  lemma KeepsVisited(m: map<Tid, Entry>, order: seq<Entry>, pos: nat, view: map<Tid, Bytes>, counts: map<Tid, int>,
                     base: Option<Tid>, out: Bytes)
    requires pos < |order| && StoredOnlyVisited(m, order, pos, view)
    ensures StoredOnlyVisited(m, order, pos + 1, ViewAfter(order[pos].tid, base, view, counts, out))
  {
    forall b ensures Visited(order, b, pos) || order[pos].tid == b ==> Visited(order, b, pos + 1) {
      VisitedStep(order, b, pos);
    }
  }

  lemma OutsideIsWanted(env: Env, m: map<Tid, Entry>, b: Tid)
    requires b !in m
    ensures Wanted(env, m)(b) == env.lookup(b)
  {
    assert !HasChain(LinksOf(m), b);
  }

  /** Entry `pos` was decoded: everything that holds before an entry holds before the next. */
  lemma DecodedStep(env: Env, m: map<Tid, Entry>, order: seq<Entry>, pos: nat, extRefs: map<Tid, int>,
                    asked: seq<Tid>, view: map<Tid, Bytes>, counts: map<Tid, int>,
                    view': map<Tid, Bytes>, counts': map<Tid, int>, lookups: seq<Tid>, out: Bytes)
    requires Lined(m, order) && pos < |order| && RefsFit(m, order, extRefs) && order[pos].key in env.s3
    requires Exact(Wanted(env, m), m, order, pos, None, view, counts, lookups)
    requires Resolved(env, order[pos], extRefs, order[pos].baseId, asked, view, counts, view', counts')
    requires Verdict(env, order[pos], order[pos].baseId, view, None, out)
    requires BaseBytes(env, m, order[pos].tid) == Some(out)
    ensures Exact(Wanted(env, m), m, order, pos + 1, None,
                  ViewAfter(order[pos].tid, order[pos].baseId, view', counts', out),
                  CountsAfter(order[pos].baseId, counts'), lookups + asked)
  {
    forall b ensures NeedStep(m, order, pos, b) {
      NeedSteps(m, order, pos, b);
    }
    if order[pos].baseId.Some? && order[pos].baseId.value !in view {
      StoreAnswers(Wanted(env, m), m, order, pos, view);
      OutsideIsWanted(env, m, order[pos].baseId.value);
    }
    ResolvedKeepsExact(env, Wanted(env, m), m, order, pos, extRefs, asked, view, counts, view', counts', lookups);
    Advance(Wanted(env, m), m, order, pos, view', counts', lookups + asked, out);
  }

  /** The entries whose blobs have arrived, as the run counts them: those that surfaced, and
      the one that failed unless it could not be fetched. */
  ghost predicate Took(order: seq<Entry>, r: Outcome, taken: seq<Entry>) {
    && |taken| == |r.surfaced| + (if r.failure.Some? && !r.failure.value.FetchFailed? then 1 else 0) <= |order|
    && taken == order[..|taken|]
  }

  ghost predicate SoFar(bytes: Tid -> Option<Bytes>, m: map<Tid, Entry>, order: seq<Entry>,
                        surfaced: seq<(Entry, Bytes)>, views: seq<map<Tid, Bytes>>)
    requires |surfaced| <= |order| && |views| <= |order|
  {
    && (forall i | 0 <= i < |surfaced| :: bytes(order[i].tid) == Some(surfaced[i].1))
    && (forall i | 0 <= i < |views| :: StoreExact(bytes, m, order, i, None, views[i]))
  }

  // ---- what a run does, whatever the blobs say

  /** The base in the header counts; without one, that of the catalog. */
  ghost predicate HeaderBase(blob: Blob, e: Entry, base: Option<Tid>) {
    && (blob.baseTensorId.Some? ==> base == blob.baseTensorId)
    && (blob.baseTensorId.None? ==> base == e.baseId)
  }

  /** The bytes of a base come from outside or have surfaced earlier in the run. */
  ghost predicate Known(env: Env, before: seq<(Entry, Bytes)>, b: Tid, data: Bytes) {
    env.lookup(b) == Some(data) || exists j | 0 <= j < |before| :: before[j].0.tid == b && before[j].1 == data
  }

  /** What entry `e` is decoded over: nothing, or known bytes of the base its header names. */
  ghost predicate Over(env: Env, before: seq<(Entry, Bytes)>, e: Entry, over: Option<Bytes>) {
    && e.key in env.s3
    && match over
       case None => HeaderBase(env.s3[e.key], e, None)
       case Some(data) => exists b :: HeaderBase(env.s3[e.key], e, Some(b)) && Known(env, before, b, data)
  }

  /** `x` is what the blob of `e` stands for and has the hash `e` asks for. */
  ghost predicate Stands(env: Env, before: seq<(Entry, Bytes)>, e: Entry, x: Bytes) {
    && e.key in env.s3 && env.hash(x) == e.tid
    && exists over :: Over(env, before, e, over) && Decodes(env, env.s3[e.key], over, x)
  }

  ghost predicate Undecodable(env: Env, blob: Blob, data: Bytes) {
    exists n :: HeaderSize(blob, n) && env.decompress(blob.payload, data, n) == None
  }

  ghost predicate Mismatched(env: Env, blob: Blob, over: Option<Bytes>, tid: Tid) {
    exists x :: Decodes(env, blob, over, x) && env.hash(x) != tid
  }

  /** Each failure has its own reason. */
  ghost predicate Reasoned(env: Env, before: seq<(Entry, Bytes)>, e: Entry, failure: Failure) {
    match failure
    case Incomplete => false
    case FetchFailed(t) => t == e.tid && e.key !in env.s3
    case BaseUnavailable(b, t) =>
      t == e.tid && e.key in env.s3 && HeaderBase(env.s3[e.key], e, Some(b)) && env.lookup(b) == None
    case DecodeFailed(t) =>
      && t == e.tid && e.key in env.s3
      && exists data :: Over(env, before, e, Some(data)) && Undecodable(env, env.s3[e.key], data)
    case HashMismatch(t) =>
      && t == e.tid && e.key in env.s3
      && exists over :: Over(env, before, e, over) && Mismatched(env, env.s3[e.key], over, t)
  }

  /** Tensors surface in order, each as what its blob stands for with the hash of its tid, and
      a run that stops has a reason in the next entry. */
  ghost predicate Surfaced(env: Env, order: seq<Entry>, r: Outcome) {
    && |r.surfaced| <= |order|
    && (forall i | 0 <= i < |r.surfaced| ::
          r.surfaced[i].0 == order[i] && Stands(env, r.surfaced[..i], order[i], r.surfaced[i].1))
    && (r.failure.Some? ==>
          |r.surfaced| < |order| && Reasoned(env, r.surfaced, order[|r.surfaced|], r.failure.value))
  }

  ghost predicate KnownView(env: Env, before: seq<(Entry, Bytes)>, view: map<Tid, Bytes>) {
    forall b | b in view :: Known(env, before, b, view[b])
  }

  lemma StillKnown(env: Env, before: seq<(Entry, Bytes)>, x: (Entry, Bytes), b: Tid, data: Bytes)
    requires Known(env, before, b, data)
    ensures Known(env, before + [x], b, data)
  {
    if j :| 0 <= j < |before| && before[j].0.tid == b && before[j].1 == data {
      assert (before + [x])[j] == before[j];
    }
  }

  lemma LastKnown(env: Env, before: seq<(Entry, Bytes)>, e: Entry, out: Bytes)
    ensures Known(env, before + [(e, out)], e.tid, out)
  {
    var more := before + [(e, out)];
    assert more[|before|] == (e, out);
  }

  lemma AnswerKnown(env: Env, before: seq<(Entry, Bytes)>, view: map<Tid, Bytes>, b: Tid)
    requires KnownView(env, before, view)
    ensures b in view ==> Known(env, before, b, view[b])
    ensures env.lookup(b).Some? ==> Known(env, before, b, env.lookup(b).value)
  {
  }

  lemma KeepsKnown(env: Env, e: Entry, extRefs: map<Tid, int>, base: Option<Tid>, asked: seq<Tid>,
                   view: map<Tid, Bytes>, counts: map<Tid, int>, view': map<Tid, Bytes>, counts': map<Tid, int>,
                   before: seq<(Entry, Bytes)>, out: Bytes)
    requires KnownView(env, before, view) && Resolved(env, e, extRefs, base, asked, view, counts, view', counts')
    ensures KnownView(env, before + [(e, out)], ViewAfter(e.tid, base, view', counts', out))
  {
    hide Known;
    var more := before + [(e, out)];
    forall b | b in ViewAfter(e.tid, base, view', counts', out)
      ensures Known(env, more, b, ViewAfter(e.tid, base, view', counts', out)[b])
    {
      if b != e.tid || !(e.tid in counts' && counts'[e.tid] > 0) {
        AnswerKnown(env, before, view, b);
        StillKnown(env, before, (e, out), b, view'[b]);
      } else {
        LastKnown(env, before, e, out);
      }
    }
  }

  /** What `DecodeEntry` answers, read off the header. */
  lemma VerdictByHeader(env: Env, before: seq<(Entry, Bytes)>, e: Entry, base: Option<Tid>, view: map<Tid, Bytes>,
                        failure: Option<Failure>, out: Bytes)
    requires KnownView(env, before, view) && e.key in env.s3
    requires base == NamedBase(env.s3[e.key], e) && Verdict(env, e, base, view, failure, out)
    ensures failure.None? ==> Stands(env, before, e, out)
    ensures failure.Some? ==> Reasoned(env, before, e, failure.value)
  {
    hide Known, KnownView;
    var blob := env.s3[e.key];
    assert HeaderBase(blob, e, base);
    if base.None? {
      assert Over(env, before, e, None) && Decodes(env, blob, None, blob.payload);
    } else {
      AnswerKnown(env, before, view, base.value);
      var data := if base.value in view then Some(view[base.value]) else env.lookup(base.value);
      if data.Some? {
        assert HeaderSize(blob, ItemSize(blob));
        assert Over(env, before, e, Some(data.value));
        var x := env.decompress(blob.payload, data.value, ItemSize(blob));
        assert x.Some? ==> Decodes(env, blob, data, x.value);
      }
    }
  }

  lemma DecodedByHeader(env: Env, before: seq<(Entry, Bytes)>, e: Entry, extRefs: map<Tid, int>, base: Option<Tid>,
                        asked: seq<Tid>, view: map<Tid, Bytes>, counts: map<Tid, int>, view': map<Tid, Bytes>,
                        counts': map<Tid, int>, failure: Option<Failure>, out: Bytes)
    requires KnownView(env, before, view)
    requires Decoded(env, e, extRefs, base, asked, view, counts, view', counts', failure, out)
    ensures failure.None? ==> Stands(env, before, e, out)
    ensures failure.Some? ==> Reasoned(env, before, e, failure.value)
  {
    hide Stands, Verdict, KnownView, Resolved;
    if e.key in env.s3 {
      VerdictByHeader(env, before, e, base, view, failure, out);
    }
  }

  lemma SurfacedStep(env: Env, order: seq<Entry>, pos: nat, surfaced: seq<(Entry, Bytes)>, lookups: seq<Tid>,
                     more: seq<Tid>, out: Bytes)
    requires pos < |order| && |surfaced| == pos && Surfaced(env, order, Outcome(None, surfaced, lookups))
    requires Stands(env, surfaced, order[pos], out)
    ensures Surfaced(env, order, Outcome(None, surfaced + [(order[pos], out)], more))
  {
    hide Stands;
    var all := surfaced + [(order[pos], out)];
    forall i | 0 <= i < |all| ensures all[i].0 == order[i] && Stands(env, all[..i], order[i], all[i].1) {
      assert all[..i] == surfaced[..i];
      assert i == pos ==> surfaced[..i] == surfaced;
    }
  }

  lemma KeepsHeaders(env: Env, order: seq<Entry>, pos: nat, extRefs: map<Tid, int>,
                     base: Option<Tid>, asked: seq<Tid>, view: map<Tid, Bytes>, counts: map<Tid, int>,
                     view': map<Tid, Bytes>, counts': map<Tid, int>, out: Bytes,
                     surfaced: seq<(Entry, Bytes)>, lookups: seq<Tid>)
    requires pos < |order| && |surfaced| == pos && KnownView(env, surfaced, view)
    requires Surfaced(env, order, Outcome(None, surfaced, lookups))
    requires Decoded(env, order[pos], extRefs, base, asked, view, counts, view', counts', None, out)
    ensures Surfaced(env, order, Outcome(None, surfaced + [(order[pos], out)], lookups + asked))
    ensures KnownView(env, surfaced + [(order[pos], out)], ViewAfter(order[pos].tid, base, view', counts', out))
  {
    hide Surfaced, KnownView, Resolved, Verdict, Stands, ViewAfter;
    DecodedByHeader(env, surfaced, order[pos], extRefs, base, asked, view, counts, view', counts', None, out);
    SurfacedStep(env, order, pos, surfaced, lookups, lookups + asked, out);
    KeepsKnown(env, order[pos], extRefs, base, asked, view, counts, view', counts', surfaced, out);
  }

  lemma StopsHeaders(env: Env, order: seq<Entry>, pos: nat, extRefs: map<Tid, int>,
                     base: Option<Tid>, asked: seq<Tid>, view: map<Tid, Bytes>, counts: map<Tid, int>,
                     view': map<Tid, Bytes>, counts': map<Tid, int>, failure: Option<Failure>, out: Bytes,
                     surfaced: seq<(Entry, Bytes)>, lookups: seq<Tid>)
    requires pos < |order| && |surfaced| == pos && KnownView(env, surfaced, view) && failure.Some?
    requires Surfaced(env, order, Outcome(None, surfaced, lookups))
    requires Decoded(env, order[pos], extRefs, base, asked, view, counts, view', counts', failure, out)
    ensures Surfaced(env, order, Outcome(failure, surfaced, lookups + asked))
  {
    hide KnownView, Decoded, Stands, Reasoned;
    DecodedByHeader(env, surfaced, order[pos], extRefs, base, asked, view, counts, view', counts', failure, out);
  }

  /** The invariant of the consuming loop. */
  ghost predicate Running(env: Env, m: map<Tid, Entry>, order: seq<Entry>, pos: nat, view: map<Tid, Bytes>,
                          counts: map<Tid, int>, surfaced: seq<(Entry, Bytes)>, lookups: seq<Tid>,
                          views: seq<map<Tid, Bytes>>)
    requires pos <= |order|
  {
    && |surfaced| == |views| == pos
    && StoredOnlyVisited(m, order, pos, view)
    && Surfaced(env, order, Outcome(None, surfaced, lookups)) && KnownView(env, surfaced, view)
    && (Agrees(env, m) ==>
      && Exact(Wanted(env, m), m, order, pos, None, view, counts, lookups)
      && SoFar(Wanted(env, m), m, order, surfaced, views))
  }

  lemma StartsRunning(env: Env, m: map<Tid, Entry>, order: seq<Entry>, counts: map<Tid, int>)
    requires counts.Keys == m.Keys && forall b | b in m :: counts[b] == Pending(order, b, 0)
    ensures Running(env, m, order, 0, map[], counts, [], [], [])
  {
    StartsExact(Wanted(env, m), m, order, counts);
  }

  lemma SoFarStep(bytes: Tid -> Option<Bytes>, m: map<Tid, Entry>, order: seq<Entry>, pos: nat,
                  surfaced: seq<(Entry, Bytes)>, views: seq<map<Tid, Bytes>>, out: Bytes, view: map<Tid, Bytes>)
    requires pos < |order| && |surfaced| == |views| == pos && SoFar(bytes, m, order, surfaced, views)
    requires bytes(order[pos].tid) == Some(out) && StoreExact(bytes, m, order, pos, None, view)
    ensures SoFar(bytes, m, order, surfaced + [(order[pos], out)], views + [view])
  {
    hide StoreExact;
  }

  lemma KeepsRunning(env: Env, m: map<Tid, Entry>, order: seq<Entry>, pos: nat, extRefs: map<Tid, int>,
                     base: Option<Tid>, asked: seq<Tid>, view: map<Tid, Bytes>, counts: map<Tid, int>,
                     view': map<Tid, Bytes>, counts': map<Tid, int>, out: Bytes,
                     surfaced: seq<(Entry, Bytes)>, lookups: seq<Tid>, views: seq<map<Tid, Bytes>>)
    requires Lined(m, order) && pos < |order| && RefsFit(m, order, extRefs)
    requires Running(env, m, order, pos, view, counts, surfaced, lookups, views)
    requires Decoded(env, order[pos], extRefs, base, asked, view, counts, view', counts', None, out)
    ensures order[pos].tid !in view'
    ensures Running(env, m, order, pos + 1, ViewAfter(order[pos].tid, base, view', counts', out),
                    CountsAfter(base, counts'), surfaced + [(order[pos], out)], lookups + asked, views + [view])
  {
    hide Lined, StoreExact, CountsExact, LookupsExact, Resolved, Verdict, BaseBytes, RefsFit, ViewAfter, CountsAfter,
      StoredOnlyVisited, Surfaced, KnownView;
    KeepsHeaders(env, order, pos, extRefs, base, asked, view, counts, view', counts', out, surfaced, lookups);
    ResolvedKeepsVisited(env, m, order, pos, extRefs, base, asked, view, counts, view', counts');
    KeepsVisited(m, order, pos, view', counts', base, out);
    if Agrees(env, m) {
      VerdictIsTensor(env, m, order, pos, view, None, out);
      assert Wanted(env, m)(order[pos].tid) == Some(out);
      DecodedStep(env, m, order, pos, extRefs, asked, view, counts, view', counts', lookups, out);
      SoFarStep(Wanted(env, m), m, order, pos, surfaced, views, out, view);
    }
  }

  lemma StoppedLookups(env: Env, m: map<Tid, Entry>, order: seq<Entry>, pos: nat, extRefs: map<Tid, int>,
                       base: Option<Tid>, asked: seq<Tid>, view: map<Tid, Bytes>, counts: map<Tid, int>,
                       view': map<Tid, Bytes>, counts': map<Tid, int>, lookups: seq<Tid>)
    requires Lined(m, order) && pos < |order|
    requires StoreExact(Wanted(env, m), m, order, pos, None, view) && LookupsExact(m, order, pos, None, lookups)
    requires Resolved(env, order[pos], extRefs, base, asked, view, counts, view', counts')
    requires order[pos].key in env.s3 ==> base == order[pos].baseId
    ensures Distinct(lookups + asked)
    ensures forall b | b in lookups + asked :: b !in m && Pending(order, b, 0) > 0
  {
    hide Lined, BaseBytes;
    if asked != [] {
      var b := asked[0];
      NeedSteps(m, order, pos, b);
      StoreAnswers(Wanted(env, m), m, order, pos, view);
      assert !InUse(order, b, pos, None);
      assert b !in lookups;
    }
    forall b | b in lookups ensures b !in m && Pending(order, b, 0) > 0 {
      assert InUse(order, b, pos, None);
    }
  }

  lemma ReadWanted(env: Env, m: map<Tid, Entry>, order: seq<Entry>, surfaced: seq<(Entry, Bytes)>,
                   views: seq<map<Tid, Bytes>>)
    requires |surfaced| <= |order| && |views| <= |order| && SoFar(Wanted(env, m), m, order, surfaced, views)
    ensures forall i | 0 <= i < |surfaced| :: BaseBytes(env, m, order[i].tid) == Some(surfaced[i].1)
  {
    forall i | 0 <= i < |surfaced| ensures BaseBytes(env, m, order[i].tid) == Some(surfaced[i].1) {
      assert Wanted(env, m)(order[i].tid) == BaseBytes(env, m, order[i].tid);
    }
  }

  lemma StopsRunning(env: Env, m: map<Tid, Entry>, order: seq<Entry>, pos: nat, extRefs: map<Tid, int>,
                     base: Option<Tid>, asked: seq<Tid>, view: map<Tid, Bytes>, counts: map<Tid, int>,
                     view': map<Tid, Bytes>, counts': map<Tid, int>, failure: Option<Failure>, out: Bytes,
                     surfaced: seq<(Entry, Bytes)>, lookups: seq<Tid>, views: seq<map<Tid, Bytes>>)
    requires Lined(m, order) && pos < |order| && RefsFit(m, order, extRefs) && failure.Some?
    requires Running(env, m, order, pos, view, counts, surfaced, lookups, views)
    requires Decoded(env, order[pos], extRefs, base, asked, view, counts, view', counts', failure, out)
    ensures failure != Some(Incomplete)
    ensures |surfaced| == pos && Surfaced(env, order, Outcome(failure, surfaced, lookups + asked))
    ensures Agrees(env, m) ==> Faithful(env, m, order, Outcome(failure, surfaced, lookups + asked), views + [view])
  {
    hide Lined, Resolved, Verdict, BaseBytes, RefsFit, StoredOnlyVisited, StoreExact, CountsExact, LookupsExact,
      KnownView, Surfaced;
    StopsHeaders(env, order, pos, extRefs, base, asked, view, counts, view', counts', failure, out, surfaced, lookups);
    if Agrees(env, m) {
      VerdictIsTensor(env, m, order, pos, view, failure, out);
      StoppedLookups(env, m, order, pos, extRefs, base, asked, view, counts, view', counts', lookups);
      ReadWanted(env, m, order, surfaced, views);
    }
  }

  lemma FinishesRunning(env: Env, m: map<Tid, Entry>, order: seq<Entry>, view: map<Tid, Bytes>, counts: map<Tid, int>,
                        surfaced: seq<(Entry, Bytes)>, lookups: seq<Tid>, views: seq<map<Tid, Bytes>>)
    requires Running(env, m, order, |order|, view, counts, surfaced, lookups, views)
    ensures |surfaced| == |order| && Surfaced(env, order, Outcome(None, surfaced, lookups))
    ensures Agrees(env, m) ==> view == map[] && Faithful(env, m, order, Outcome(None, surfaced, lookups), views)
  {
    if Agrees(env, m) {
      EndsEmpty(Wanted(env, m), m, order, view);
      ReadWanted(env, m, order, surfaced, views);
      forall b ensures b in lookups <==> b !in m && Pending(order, b, 0) > 0 {
        assert b in lookups <==> b !in m && InUse(order, b, |order|, None);
      }
    }
  }

  /** The consuming loop of a run over entries in pre-order. */
  method Consume(env: Env, m: map<Tid, Entry>, order: seq<Entry>, counts: map<Tid, int>,
                 extRefs: map<Tid, int>, store: BaseStore)
    returns (r: Outcome, taken: seq<Entry>, ghost views: seq<map<Tid, Bytes>>)
    requires Lined(m, order) && RefsFit(m, order, extRefs)
    requires counts.Keys == m.Keys && forall b | b in m :: counts[b] == Pending(order, b, 0)
    requires store.Valid() && store.View() == map[]
    modifies store
    ensures store.Valid()
    ensures Surfaced(env, order, r)
    ensures r.failure != Some(Incomplete) && (r.failure.None? <==> |r.surfaced| == |order|)
    ensures Took(order, r, taken)
    ensures Agrees(env, m) ==> Faithful(env, m, order, r, views)
    ensures Agrees(env, m) && r.failure.None? ==> store.View() == map[]
  {
    hide Lined, Running, Decoded, BaseBytes, RefsFit, Faithful, Pending;
    var surfaced: seq<(Entry, Bytes)>, lookups: seq<Tid>, refcount := [], [], counts;
    taken, views := [], [];
    StartsRunning(env, m, order, counts);
    for pos := 0 to |order|
      invariant store.Valid()
      invariant Running(env, m, order, pos, store.View(), refcount, surfaced, lookups, views)
      invariant taken == order[..pos]
    {
      ghost var view, before := store.View(), refcount;
      var failure, out, base, asked;
      failure, out, base, asked, refcount := DecodeEntry(env, order[pos], extRefs, refcount, store);
      if !(failure.Some? && failure.value.FetchFailed?) {
        taken := taken + [order[pos]];
      }
      if failure.Some? {
        StopsRunning(env, m, order, pos, extRefs, base, asked, view, before, store.View(), refcount, failure, out,
                     surfaced, lookups, views);
        r := Outcome(failure, surfaced, lookups + asked);
        views := views + [view];
        return;
      }
      KeepsRunning(env, m, order, pos, extRefs, base, asked, view, before, store.View(), refcount, out,
                   surfaced, lookups, views);
      refcount := KeepOrRelease(order[pos].tid, base, out, refcount, store);
      surfaced, lookups, views := surfaced + [(order[pos], out)], lookups + asked, views + [view];
    }
    FinishesRunning(env, m, order, store.View(), refcount, surfaced, lookups, views);
    r := Outcome(None, surfaced, lookups);
  }

  /** What was taken exists in the object store, and an entry that stops the run was taken if it
      does. */
  ghost predicate TookArrived(env: Env, order: seq<Entry>, r: Outcome, taken: seq<Entry>) {
    && (forall e | e in taken :: e.key in env.s3)
    && (r.failure.Some? && |r.surfaced| < |order| && order[|r.surfaced|].key in env.s3 ==>
          |taken| == |r.surfaced| + 1)
  }

  lemma TakenArrived(env: Env, order: seq<Entry>, r: Outcome, taken: seq<Entry>)
    requires Surfaced(env, order, r) && Took(order, r, taken)
    ensures TookArrived(env, order, r, taken)
  {
    hide Over, Decodes, Known;
    forall i | 0 <= i < |taken| ensures taken[i].key in env.s3 {
      assert i < |r.surfaced| ==> Stands(env, r.surfaced[..i], order[i], r.surfaced[i].1);
    }
  }

  lemma OutsideIsPending(m: map<Tid, Entry>, order: seq<Entry>, b: Tid)
    requires Lined(m, order) && b !in m
    ensures Pending(order, b, 0) > 0 <==> IsOutside(m, b)
  {
    if Pending(order, b, 0) > 0 {
      var j := PendingHasUser(order, b, 0);
      LinedEntry(m, order, j);
      assert m[order[j].tid].baseId == Some(b);
    }
    if IsOutside(m, b) {
      var t :| t in m && m[t].baseId == Some(b);
      var i := LinedPosition(m, order, t);
      LinedEntry(m, order, i);
      UserIsPending(order, b, 0, i);
    }
  }

  ghost predicate Intact(env: Env, m: map<Tid, Entry>)
    requires Acyclic(LinksOf(m))
  {
    forall t | t in m :: Tensor(env, m, t).Some?
  }

  lemma CompleteIffIntact(env: Env, m: map<Tid, Entry>, order: seq<Entry>, r: Outcome, views: seq<map<Tid, Bytes>>)
    requires Acyclic(LinksOf(m)) && Lined(m, order)
    requires |r.surfaced| <= |order| && (r.failure.None? <==> |r.surfaced| == |order|)
    requires Faithful(env, m, order, r, views)
    ensures r.failure.None? <==> Intact(env, m)
  {
    hide Rebuild;
    if r.failure.None? {
      forall t | t in m ensures Tensor(env, m, t).Some? {
        var i := LinedPosition(m, order, t);
        assert BaseBytes(env, m, order[i].tid) == Some(r.surfaced[i].1);
        LinedEntry(m, order, i);
      }
    } else {
      LinedEntry(m, order, |r.surfaced|);
    }
  }

  lemma AsksForOutside(env: Env, m: map<Tid, Entry>, order: seq<Entry>, r: Outcome, views: seq<map<Tid, Bytes>>)
    requires Lined(m, order) && |r.surfaced| <= |order| && Faithful(env, m, order, r, views) && r.failure.None?
    ensures forall b :: b in r.lookups <==> IsOutside(m, b)
  {
    hide Lined, BaseBytes, OnPath;
    forall b ensures b in r.lookups <==> IsOutside(m, b) {
      if b !in m {
        OutsideIsPending(m, order, b);
      }
    }
  }

  lemma NothingToDo(env: Env)
    ensures ByTid([]) == map[] && Acyclic(LinksOf(map[])) && Lined(map[], [])
    ensures Surfaced(env, [], Outcome(None, [], []))
    ensures Faithful(env, map[], [], Outcome(None, [], []), [])
    ensures Intact(env, map[])
    ensures forall b :: !IsOutside(map[], b)
  {
    assert Tids([]) == [];
  }

  /** A whole run. It refuses exactly the cyclic entry sets. Otherwise tensors surface in a
      pre-order of the forest. When blobs and catalog agree, the run completes if and only if
      every entry can be reconstructed, it then has surfaced every tensor once with exactly
      those bytes, and has asked for each outside base once. */
  method Run(env: Env, entries: seq<Entry>, ramBudget: int)
    returns (r: Outcome, taken: seq<Entry>, ghost order: seq<Entry>, ghost views: seq<map<Tid, Bytes>>)
    ensures r.failure == Some(Incomplete) <==> !Acyclic(LinksOf(ByTid(entries)))
    ensures !Acyclic(LinksOf(ByTid(entries))) ==> r.surfaced == [] && r.lookups == [] && taken == []
    ensures Acyclic(LinksOf(ByTid(entries))) ==>
      && Lined(ByTid(entries), order)
      && Surfaced(env, order, r)
      && (r.failure.None? <==> |r.surfaced| == |order|)
      && Took(order, r, taken) && TookArrived(env, order, r, taken)
    ensures Acyclic(LinksOf(ByTid(entries))) && Agrees(env, ByTid(entries)) ==>
      && Faithful(env, ByTid(entries), order, r, views)
      && (r.failure.None? <==> Intact(env, ByTid(entries)))
      && (r.failure.None? ==> forall b :: b in r.lookups <==> IsOutside(ByTid(entries), b))
      && forall i | 0 <= i < |views| :: OnPath(LinksOf(ByTid(entries)), order[i].tid, views[i].Keys)
  {
    hide Rebuild, Pending, Faithful, Acyclic, OnPath, Contiguous, SiblingsAscend;
    taken, order, views := [], [], [];
    ghost var m := ByTid(entries);
    if entries == [] {
      NothingToDo(env);
      assert TookArrived(env, [], Outcome(None, [], []), []);
      return Outcome(None, [], []), [], [], [];
    }
    var o := DfsOrder(entries);
    if o.TraversalIncomplete? {
      return Outcome(Some(Incomplete), [], []), [], [], [];
    }
    order := o.order;
    assert Lined(m, order);
    forall b | b in m ensures o.refcount[b] == Pending(order, b, 0) {
      ChildrenArePending(m, order, b);
    }
    var extRefs := CountExternal(o.order, o.byTid);
    var store := new BaseStore(ramBudget);
    r, taken, views := Consume(env, o.byTid, o.order, o.refcount, extRefs, store);
    TakenArrived(env, order, r, taken);
    store.Clear();
    if Agrees(env, m) {
      CompleteIffIntact(env, m, order, r, views);
      HeldOnPaths(env, m, order, r, views);
      if r.failure.None? {
        AsksForOutside(env, m, order, r, views);
      }
    }
  }
}
