/** How long a run keeps the bases that are not among its entries. Decoding in pre-order keeps
    a base that is an entry only while the entry being decoded lies below it; for a base from
    outside this depends on the entries. */
module OutsideBases {
  import opened Forest
  import opened Sequences
  import opened Traversal
  import opened Reconstruction
  import opened ClosureRun

  /** The delta chain of `t` ends with a delta against `b`, which is not an entry. */
  ghost predicate BelowOutside(m: map<Tid, Entry>, t: Tid, b: Tid) {
    HasChain(LinksOf(m), t) && var c := Chain(LinksOf(m), t); c[|c| - 1] in m && m[c[|c| - 1]].baseId == Some(b)
  }

  /** Whatever is held from outside before an entry is decoded is what its own chain needs. */
  ghost predicate OutsideOnPath(m: map<Tid, Entry>, order: seq<Entry>) {
    forall pos, b | 0 <= pos < |order| && b !in m && Live(m, order, pos, None, b) :: BelowOutside(m, order[pos].tid, b)
  }

  ghost predicate IsRootOf(m: map<Tid, Entry>, t: Tid) {
    t in m && IsRoot(LinksOf(m), t)
  }

  /** Between two roots stored against one base there are only roots stored against it. */
  ghost predicate SharedInOneGo(m: map<Tid, Entry>) {
    forall r: Tid, s: Tid, t: Tid | IsRootOf(m, r) && IsRootOf(m, s) && IsRootOf(m, t) && r < s < t && m[r].baseId.Some?
      && m[r].baseId == m[t].baseId :: m[s].baseId == m[r].baseId
  }

  lemma UsedHasUser(order: seq<Entry>, b: Tid, pos: nat) returns (i: nat)
    requires pos <= |order| && Used(order, b, pos)
    ensures i < pos && order[i].baseId == Some(b)
  {
    if order[pos - 1].baseId == Some(b) {
      i := pos - 1;
    } else {
      i := UsedHasUser(order, b, pos - 1);
    }
  }

  /** A base that an earlier and a later entry need is in use and still pending. */
  lemma BetweenUsers(order: seq<Entry>, b: Tid, i: nat, pos: nat, j: nat)
    requires i < pos <= j < |order| && order[i].baseId == order[j].baseId == Some(b)
    ensures Used(order, b, pos) && Pending(order, b, pos) > 0 && Pending(order, b, 0) > 1
  {
    UserIsPending(order, b, pos, j);
    PendingFalls(order, b, i + 1, pos);
    PendingFalls(order, b, 0, i);
  }

  /** In decode order the roots come by increasing tid. */
  lemma RootsAscend(m: map<Tid, Entry>, order: seq<Entry>, i: nat, j: nat)
    requires Lined(m, order) && i < |order| && j < |order| && IsRootOf(m, order[i].tid) && IsRootOf(m, order[j].tid)
    ensures i < j <==> order[i].tid < order[j].tid
    ensures i == j <==> order[i].tid == order[j].tid
  {
    var a := Tids(order);
    assert SameParent(LinksOf(m), a[i], a[j]) && SameParent(LinksOf(m), a[j], a[i]);
  }

  /** The root an entry hangs from is the last root at or before it. */
  lemma RootBefore(m: map<Tid, Entry>, order: seq<Entry>, pos: nat) returns (k: nat)
    requires Lined(m, order) && pos < |order|
    ensures k <= pos && IsRootOf(m, order[k].tid) && HasChain(LinksOf(m), order[pos].tid)
    ensures var c := Chain(LinksOf(m), order[pos].tid); c[|c| - 1] == order[k].tid
    ensures forall i | k < i <= pos :: !IsRootOf(m, order[i].tid)
  {
    var g, a := LinksOf(m), Tids(order);
    LinedEntry(m, order, pos);
    var c := Chain(g, order[pos].tid);
    ChainMembers(g, c, |c| - 1);
    k := LinedPosition(m, order, c[|c| - 1]);
    if |c| == 1 {
      RootsAscend(m, order, k, pos);
    } else {
      assert c[1..][|c| - 2] == c[|c| - 1];
      var j := AncestorComesFirst(m, order, pos, order[k].tid);
      assert a[j] == a[k];
      forall i | k < i <= pos ensures !IsRootOf(m, order[i].tid) {
        assert ProperAncestor(g, a[k], a[i]);
        if IsRootOf(m, a[i]) {
          RootChain(g, a[i]);
        }
      }
    }
  }

  lemma LiveIsBelow(m: map<Tid, Entry>, order: seq<Entry>, pos: nat, b: Tid)
    requires Lined(m, order) && SharedInOneGo(m) && pos < |order| && b !in m && Live(m, order, pos, None, b)
    ensures BelowOutside(m, order[pos].tid, b)
  {
    hide Lined, IsChain;
    var i := UsedHasUser(order, b, pos);
    var j := PendingHasUser(order, b, pos);
    LinedEntry(m, order, i);
    LinedEntry(m, order, j);
    var k := RootBefore(m, order, pos);
    LinedEntry(m, order, k);
    assert IsRootOf(m, order[i].tid) && IsRootOf(m, order[j].tid);
    assert i <= k <= j;
    RootsAscend(m, order, i, k);
    RootsAscend(m, order, k, j);
    assert order[k].baseId == Some(b);
  }

  lemma Interrupted(m: map<Tid, Entry>, order: seq<Entry>, r: Tid, s: Tid, t: Tid)
    requires Lined(m, order) && IsRootOf(m, r) && IsRootOf(m, s) && IsRootOf(m, t) && r < s < t
    requires m[r].baseId.Some? && m[r].baseId == m[t].baseId != m[s].baseId
    ensures !OutsideOnPath(m, order)
  {
    hide Lined;
    var b := m[r].baseId.value;
    var i := LinedPosition(m, order, r);
    var k := LinedPosition(m, order, s);
    var j := LinedPosition(m, order, t);
    LinedEntry(m, order, i);
    LinedEntry(m, order, k);
    LinedEntry(m, order, j);
    RootsAscend(m, order, i, k);
    RootsAscend(m, order, k, j);
    BetweenUsers(order, b, i, k, j);
    RootChain(LinksOf(m), s);
    assert Live(m, order, k, None, b) && !BelowOutside(m, order[k].tid, b);
  }

  /** The store keeps outside bases on the path only if and only if their roots come in one go. */
  lemma OutsideOnPathIffInOneGo(m: map<Tid, Entry>, order: seq<Entry>)
    requires Lined(m, order)
    ensures OutsideOnPath(m, order) <==> SharedInOneGo(m)
  {
    hide Lined, BelowOutside, Live;
    if SharedInOneGo(m) {
      forall pos, b | 0 <= pos < |order| && b !in m && Live(m, order, pos, None, b)
        ensures BelowOutside(m, order[pos].tid, b)
      {
        LiveIsBelow(m, order, pos, b);
      }
    }
    if !SharedInOneGo(m) {
      var r: Tid, s: Tid, t: Tid :| IsRootOf(m, r) && IsRootOf(m, s) && IsRootOf(m, t) && r < s < t && m[r].baseId.Some?
        && m[r].baseId == m[t].baseId != m[s].baseId;
      Interrupted(m, order, r, s, t);
    }
  }

  /** Two tensors against base 9 and a raw one between them. */
  function Sandwich(key: string): map<Tid, Entry> {
    map[1 := Entry(1, key, 1, 1, Some(9)), 2 := Entry(2, key, 1, 1, None), 3 := Entry(3, key, 1, 1, Some(9))]
  }

  /** In whatever order the run decodes them, base 9 is held while the raw tensor is decoded. */
  lemma HeldPastRaw(key: string)
    ensures Acyclic(LinksOf(Sandwich(key)))
    ensures forall order | Lined(Sandwich(key), order) :: !OutsideOnPath(Sandwich(key), order)
  {
    hide IsChain, Lined, OutsideOnPath;
    var m := Sandwich(key);
    forall t | t in m ensures HasChain(LinksOf(m), t) && IsRootOf(m, t) {
      RootChain(LinksOf(m), t);
    }
    assert IsRootOf(m, 1) && IsRootOf(m, 2) && IsRootOf(m, 3);
    forall order | Lined(m, order) ensures !OutsideOnPath(m, order) {
      OutsideOnPathIffInOneGo(m, order);
    }
  }
}
