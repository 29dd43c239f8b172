/** The bookkeeping the simulated caches share: sizes of residents and a heap of
    (priority, id) pairs from which the least pair is popped. */
module LazyHeap {
  import opened Sequences

  type Pair = (real, nat)

  /** The order of pairs in the heap: by priority, then by id. */
  predicate Leq(a: Pair, b: Pair) {
    a.0 < b.0 || (a.0 == b.0 && a.1 <= b.1)
  }

  /** `heappop`: the least pair and the heap without it. */
  method PopLeast(heap: seq<Pair>) returns (least: Pair, rest: seq<Pair>, ghost at: nat)
    requires heap != []
    ensures at < |heap| && heap[at] == least && rest == heap[..at] + heap[at + 1..]
    ensures forall e | e in heap :: Leq(least, e)
    ensures forall e | e in heap && e != least :: e in rest
    ensures forall e | e in rest :: e in heap
  {
    var m := 0;
    for i := 1 to |heap|
      invariant m < i && forall j | 0 <= j < i :: Leq(heap[m], heap[j])
    {
      if !Leq(heap[m], heap[i]) {
        m := i;
      }
    }
    least, rest, at := heap[m], heap[..m] + heap[m + 1..], m;
    forall e | e in heap && e != least ensures e in rest {
      var j :| 0 <= j < |heap| && heap[j] == e;
      assert j < m ==> rest[j] == e;
      assert j > m ==> rest[j - 1] == e;
    }
  }

  // ---- the bytes of a set of residents

  ghost function Bytes(res: map<nat, real>): real {
    if res == map[] then 0.0
    else
      var i :| i in res;
      res[i] + Bytes(res - {i})
  }

  lemma {:induction false} BytesWithout(res: map<nat, real>, i: nat)
    requires i in res
    ensures Bytes(res) == res[i] + Bytes(res - {i})
    decreases |res|
  {
    var j :| j in res && Bytes(res) == res[j] + Bytes(res - {j});
    if j != i {
      SmallerWithout(res, j);
      SmallerWithout(res, i);
      BytesWithout(res - {j}, i);
      BytesWithout(res - {i}, j);
      assert (res - {j}) - {i} == (res - {i}) - {j};
    }
  }

  lemma BytesWith(res: map<nat, real>, i: nat, size: real)
    requires i !in res
    ensures Bytes(res[i := size]) == size + Bytes(res)
  {
    BytesWithout(res[i := size], i);
    assert res[i := size] - {i} == res;
  }

  /** What every cache of the simulator keeps: the byte count is exact, sizes are not
      negative, and the capacity is respected unless nothing is resident. */
  ghost predicate Accounted(res: map<nat, real>, used: real, cap: real) {
    && used == Bytes(res)
    && (forall i | i in res :: res[i] >= 0.0)
    && (res == map[] || used <= cap)
  }

  lemma EmptyUnused(res: map<nat, real>, used: real, cap: real)
    requires Accounted(res, used, cap)
    ensures res == map[] ==> used == 0.0
  {
  }

  lemma AccountedWithout(res: map<nat, real>, used: real, cap: real, i: nat)
    requires Accounted(res, used, cap) && i in res
    ensures Accounted(res - {i}, used - res[i], cap)
  {
    BytesWithout(res, i);
  }

  lemma AccountedWith(res: map<nat, real>, used: real, cap: real, i: nat, size: real)
    requires Accounted(res, used, cap) && i !in res && size >= 0.0 && used + size <= cap
    ensures Accounted(res[i := size], used + size, cap)
  {
    BytesWith(res, i, size);
  }
}
