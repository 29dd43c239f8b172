/** `dfs_order`: the pre-order in which a run decodes its entries, and the reference
    counts that tell it how long to keep each decoded base. */
module Traversal {
  import opened Forest
  import opened Sequences

  datatype Ordering = TraversalIncomplete | Ordering(order: seq<Entry>, refcount: map<Tid, int>, byTid: map<Tid, Entry>)

  ghost function Children(g: Links, t: Tid): (s: set<Tid>) {
    set x | x in g && g[x] == Some(t)
  }

  ghost function Tids(order: seq<Entry>): (s: seq<Tid>)
    ensures |s| == |order| && forall i | 0 <= i < |s| :: s[i] == order[i].tid
  {
    seq(|order|, i requires 0 <= i < |order| => order[i].tid)
  }

  /** Everything below `a[k]` that is listed after it follows it without a gap. */
  ghost predicate Contiguous(g: Links, a: seq<Tid>, upTo: nat) {
    forall k, p, j | 0 <= k < upTo && k < p <= j < |a| && ProperAncestor(g, a[k], a[j]) ::
      ProperAncestor(g, a[k], a[p])
  }

  ghost predicate SameParent(g: Links, x: Tid, y: Tid)
    requires x in g && y in g
  {
    (IsRoot(g, x) && IsRoot(g, y)) || (!IsRoot(g, x) && g[x] == g[y])
  }

  ghost predicate SiblingsAscend(g: Links, a: seq<Tid>)
    requires forall x | x in a :: x in g
  {
    forall i, j | 0 <= i < j < |a| && SameParent(g, a[i], a[j]) :: a[i] < a[j]
  }

  /** The tids above `t` all occur in `s`. */
  ghost predicate AboveIn(g: Links, t: Tid, s: seq<Tid>) {
    HasChain(g, t) && forall a | a in Chain(g, t)[1..] :: a in s
  }

  /** A pre-order of the forest: every tid once, bases before what is stored against them,
      every subtree in one piece, siblings in increasing order. */
  ghost predicate IsPreorder(g: Links, a: seq<Tid>) {
    && Distinct(a)
    && SetOf(a) == g.Keys
    && (forall j | 0 <= j < |a| :: AboveIn(g, a[j], a[..j]))
    && Contiguous(g, a, |a|)
    && SiblingsAscend(g, a)
  }

  // ---- the state of the traversal: visited tids, then pending ones, next one first

  ghost predicate Agenda(g: Links, a: seq<Tid>, done: nat) {
    && done <= |a|
    && Distinct(a)
    && (forall x | x in a :: x in g)
    && (forall j | 0 <= j < done :: AboveIn(g, a[j], a[..j]))
    && (forall j | done <= j < |a| :: AboveIn(g, a[j], a[..done]))
    && (forall x | x in g && IsRoot(g, x) :: x in a)
    && (forall i, x | 0 <= i < done && x in Children(g, a[i]) :: x in a)
  }

  ghost predicate IsKids(g: Links, t: Tid, kids: seq<Tid>) {
    Increasing(kids) && SetOf(kids) == Children(g, t)
  }

  ghost function Visit(a: seq<Tid>, done: nat, kids: seq<Tid>): (r: seq<Tid>)
    requires done < |a|
  {
    a[..done + 1] + kids + a[done + 1..]
  }

  lemma AgendaAboveDone(g: Links, a: seq<Tid>, done: nat, x: Tid)
    requires Agenda(g, a, done)
    ensures x in a ==> AboveIn(g, x, a[..done])
  {
    if x in a {
      var j :| 0 <= j < |a| && a[j] == x;
      assert j < done ==> a[..j] <= a[..done];
    }
  }

  lemma KidsAreNew(g: Links, a: seq<Tid>, done: nat, kids: seq<Tid>)
    requires Agenda(g, a, done) && done < |a| && IsKids(g, a[done], kids)
    ensures forall x | x in kids :: x in g && g[x] == Some(a[done]) && x !in a
  {
    var t := a[done];
    assert t !in a[..done];
    AgendaAboveDone(g, a, done, t);
    forall x | x in kids ensures x in g && g[x] == Some(t) && x !in a {
      assert x in SetOf(kids);
      ChildChain(g, x, t);
      assert t in Chain(g, x)[1..];
      AgendaAboveDone(g, a, done, x);
    }
  }

  lemma VisitDistinct(g: Links, a: seq<Tid>, done: nat, kids: seq<Tid>)
    requires Agenda(g, a, done) && done < |a| && IsKids(g, a[done], kids)
    ensures Distinct(Visit(a, done, kids))
    ensures forall x | x in Visit(a, done, kids) :: x in g
    ensures forall x | x in a :: x in Visit(a, done, kids)
    ensures forall x | x in kids :: x in Visit(a, done, kids)
  {
    KidsAreNew(g, a, done, kids);
    assert a == a[..done + 1] + a[done + 1..];
  }

  lemma VisitAbove(g: Links, a: seq<Tid>, done: nat, kids: seq<Tid>, j: nat)
    requires Agenda(g, a, done) && done < |a| && IsKids(g, a[done], kids)
    requires j < |Visit(a, done, kids)|
    ensures AboveIn(g, Visit(a, done, kids)[j], Visit(a, done, kids)[..if j <= done then j else done + 1])
  {
    var t := a[done];
    var r := Visit(a, done, kids);
    assert r[..done + 1] == a[..done] + [t];
    if j <= done {
      assert r[j] == a[j] && r[..j] == a[..j];
    } else if j <= done + |kids| {
      KidsAreNew(g, a, done, kids);
      assert r[j] in kids;
      ChildChain(g, r[j], t);
      assert Chain(g, r[j])[1..] == Chain(g, t) == [t] + Chain(g, t)[1..];
    } else {
      assert r[j] == a[j - |kids|];
    }
  }

  lemma VisitKeepsAgenda(g: Links, a: seq<Tid>, done: nat, kids: seq<Tid>)
    requires Agenda(g, a, done) && done < |a| && IsKids(g, a[done], kids)
    ensures Agenda(g, Visit(a, done, kids), done + 1)
  {
    var r := Visit(a, done, kids);
    VisitDistinct(g, a, done, kids);
    forall j | 0 <= j < |r|
      ensures AboveIn(g, r[j], r[..if j <= done then j else done + 1])
    {
      VisitAbove(g, a, done, kids, j);
    }
    assert forall j | 0 <= j < done + 1 :: AboveIn(g, r[j], r[..j]);
    forall i, x | 0 <= i < done + 1 && x in Children(g, r[i]) ensures x in r {
      assert r[i] == a[i];
      assert i == done ==> x in SetOf(kids);
    }
  }

  /** Where position `p` of the agenda after a visit comes from in the agenda before it. */
  ghost function Before(done: nat, n: nat, p: nat): nat {
    if p <= done then p else if p <= done + n then done else p - n
  }

  lemma SameAboveVisited(g: Links, a: seq<Tid>, done: nat, kids: seq<Tid>, k: nat, p: nat)
    requires Agenda(g, a, done) && done < |a| && IsKids(g, a[done], kids)
    requires k < done && k < p < |Visit(a, done, kids)|
    ensures ProperAncestor(g, a[k], Visit(a, done, kids)[p]) <==> ProperAncestor(g, a[k], a[Before(done, |kids|, p)])
  {
    var r := Visit(a, done, kids);
    if done < p <= done + |kids| {
      assert r[p] in kids;
      assert r[p] in Children(g, a[done]);
      AncestorsOfChild(g, r[p], a[done], a[k]);
    } else {
      assert r[p] == a[Before(done, |kids|, p)];
    }
  }

  /** Only the children just pushed lie below the tid just visited. */
  lemma BelowVisited(g: Links, a: seq<Tid>, done: nat, kids: seq<Tid>, j: nat)
    requires Agenda(g, a, done) && done < |a| && IsKids(g, a[done], kids)
    requires done < j < |Visit(a, done, kids)|
    ensures ProperAncestor(g, a[done], Visit(a, done, kids)[j]) ==> j <= done + |kids|
  {
    assert a[done] !in a[..done];
    if j > done + |kids| {
      assert Visit(a, done, kids)[j] == a[j - |kids|];
    }
  }

  lemma VisitKeepsContiguous(g: Links, a: seq<Tid>, done: nat, kids: seq<Tid>)
    requires Agenda(g, a, done) && done < |a| && IsKids(g, a[done], kids)
    requires Contiguous(g, a, done)
    ensures Contiguous(g, Visit(a, done, kids), done + 1)
  {
    var t := a[done];
    var r := Visit(a, done, kids);
    forall k, p, j | 0 <= k < done + 1 && k < p <= j < |r| && ProperAncestor(g, r[k], r[j])
      ensures ProperAncestor(g, r[k], r[p])
    {
      if k < done {
        var p0 := Before(done, |kids|, p);
        var j0 := Before(done, |kids|, j);
        SameAboveVisited(g, a, done, kids, k, j);
        SameAboveVisited(g, a, done, kids, k, p);
        assert ProperAncestor(g, a[k], a[j0]);
      } else {
        BelowVisited(g, a, done, kids, j);
        assert r[p] in kids;
        assert r[p] in Children(g, t);
        ChildChain(g, r[p], t);
      }
    }
  }

  lemma KidsFollow(g: Links, a: seq<Tid>, done: nat, kids: seq<Tid>, i: nat, j: nat)
    requires done < |a| && IsKids(g, a[done], kids) && done < i < j <= done + |kids|
    ensures Visit(a, done, kids)[i] < Visit(a, done, kids)[j]
  {
    var r := Visit(a, done, kids);
    assert r[i] == kids[i - done - 1] && r[j] == kids[j - done - 1];
  }

  /** What was pending before keeps its order. */
  lemma OthersFollow(g: Links, a: seq<Tid>, done: nat, kids: seq<Tid>, i: nat, j: nat)
    requires done < |a| && (forall x | x in a :: x in g) && SiblingsAscend(g, a)
    requires i < j < |Visit(a, done, kids)| && !(done < i <= done + |kids|) && !(done < j <= done + |kids|)
    requires Visit(a, done, kids)[i] in g && Visit(a, done, kids)[j] in g
    requires SameParent(g, Visit(a, done, kids)[i], Visit(a, done, kids)[j])
    ensures Visit(a, done, kids)[i] < Visit(a, done, kids)[j]
  {
    var r := Visit(a, done, kids);
    var i0, j0 := Before(done, |kids|, i), Before(done, |kids|, j);
    assert r[i] == a[i0] && r[j] == a[j0];
  }

  /** The children of the visited tid are exactly the pending tids with that base. */
  lemma OnlyKidsShare(g: Links, a: seq<Tid>, done: nat, kids: seq<Tid>, i: nat)
    requires Agenda(g, a, done) && done < |a| && IsKids(g, a[done], kids)
    requires i < |Visit(a, done, kids)|
    ensures var x := Visit(a, done, kids)[i];
      x in g && (done < i <= done + |kids| <==> !IsRoot(g, x) && g[x] == Some(a[done]))
  {
    var x := Visit(a, done, kids)[i];
    if done < i <= done + |kids| {
      assert x in kids;
      assert x in Children(g, a[done]);
    } else {
      KidsAreNew(g, a, done, kids);
      assert x in a;
      assert x !in kids by { assert x == a[Before(done, |kids|, i)]; }
      assert x !in SetOf(kids);
    }
  }

  lemma SiblingsStepAscend(g: Links, a: seq<Tid>, done: nat, kids: seq<Tid>, i: nat, j: nat)
    requires Agenda(g, a, done) && done < |a| && IsKids(g, a[done], kids)
    requires SiblingsAscend(g, a)
    requires i < j < |Visit(a, done, kids)|
    requires Visit(a, done, kids)[i] in g && Visit(a, done, kids)[j] in g
    requires SameParent(g, Visit(a, done, kids)[i], Visit(a, done, kids)[j])
    ensures Visit(a, done, kids)[i] < Visit(a, done, kids)[j]
  {
    OnlyKidsShare(g, a, done, kids, i);
    OnlyKidsShare(g, a, done, kids, j);
    hide Agenda, IsKids;
    if done < i <= done + |kids| {
      KidsFollow(g, a, done, kids, i, j);
    } else {
      OthersFollow(g, a, done, kids, i, j);
    }
  }

  lemma VisitKeepsSiblings(g: Links, a: seq<Tid>, done: nat, kids: seq<Tid>)
    requires Agenda(g, a, done) && done < |a| && IsKids(g, a[done], kids)
    requires SiblingsAscend(g, a)
    requires Agenda(g, Visit(a, done, kids), done + 1)
    ensures SiblingsAscend(g, Visit(a, done, kids))
  {
    var r := Visit(a, done, kids);
    forall i, j | 0 <= i < j < |r| && SameParent(g, r[i], r[j]) ensures r[i] < r[j] {
      SiblingsStepAscend(g, a, done, kids, i, j);
    }
  }

  /** When nothing is pending, every tid with a finite chain has been visited. */
  lemma {:induction false} ChainVisited(g: Links, a: seq<Tid>, c: seq<Tid>)
    requires Agenda(g, a, |a|) && IsChain(g, c)
    ensures c[0] in a
  {
    if |c| > 1 {
      ChainVisited(g, a, c[1..]);
      var i :| 0 <= i < |a| && a[i] == c[1];
      assert c[0] in Children(g, a[i]);
    }
  }

  lemma CompleteIffAcyclic(g: Links, a: seq<Tid>)
    requires Agenda(g, a, |a|)
    ensures |a| == |g| <==> Acyclic(g)
    ensures |a| == |g| ==> SetOf(a) == g.Keys
  {
    DistinctCount(a);
    assert SetOf(a) <= g.Keys;
    assert |g| == |g.Keys|;
    if |a| == |g| {
      SubsetSameSize(SetOf(a), g.Keys);
      forall t | t in g ensures HasChain(g, t) {
        assert t in SetOf(a);
        var j :| 0 <= j < |a| && a[j] == t;
        assert AboveIn(g, a[j], a[..j]);
      }
    }
    if Acyclic(g) {
      forall t | t in g ensures t in SetOf(a) {
        ChainVisited(g, a, Chain(g, t));
      }
      assert SetOf(a) == g.Keys;
    }
  }

  lemma InitialAgenda(g: Links, roots: seq<Tid>)
    requires Increasing(roots) && SetOf(roots) == set x | x in g && IsRoot(g, x)
    ensures Agenda(g, roots, 0) && Contiguous(g, roots, 0) && SiblingsAscend(g, roots)
  {
    forall j | 0 <= j < |roots| ensures roots[j] in g && AboveIn(g, roots[j], roots[..0]) {
      assert roots[j] in SetOf(roots);
      RootChain(g, roots[j]);
    }
    forall x | x in g && IsRoot(g, x) ensures x in roots {
      assert x in SetOf(roots);
    }
  }

  function KidsOf(children: map<Tid, seq<Tid>>, t: Tid): seq<Tid> {
    if t in children then children[t] else []
  }

  ghost predicate Listed(g: Links, seen: seq<Tid>, children: map<Tid, seq<Tid>>, roots: seq<Tid>) {
    && Increasing(roots)
    && SetOf(roots) == (set x | x in seen && x in g && IsRoot(g, x))
    && forall t | t in g ::
      Increasing(KidsOf(children, t)) && SetOf(KidsOf(children, t)) == set x | x in seen && x in Children(g, t)
  }

  lemma ListRoot(g: Links, seen: seq<Tid>, children: map<Tid, seq<Tid>>, roots: seq<Tid>, t: Tid)
    requires Listed(g, seen, children, roots)
    requires t in g && IsRoot(g, t) && forall x | x in seen :: x < t
    ensures Listed(g, seen + [t], children, roots + [t])
  {
    assert forall x | x in roots :: x in SetOf(roots);
    IncreasingSnoc(roots, t);
    SetOfSnoc(roots, t);
    forall b | b in g
      ensures (set x | x in seen + [t] && x in Children(g, b)) == (set x | x in seen && x in Children(g, b))
    {
    }
  }

  lemma OneMoreKid(g: Links, seen: seq<Tid>, kids: seq<Tid>, t: Tid, b: Tid)
    requires Increasing(kids) && SetOf(kids) == set x | x in seen && x in Children(g, b)
    requires t in Children(g, b) && forall x | x in seen :: x < t
    ensures Increasing(kids + [t]) && SetOf(kids + [t]) == set x | x in seen + [t] && x in Children(g, b)
  {
    assert forall x | x in kids :: x in SetOf(kids);
    IncreasingSnoc(kids, t);
    SetOfSnoc(kids, t);
  }

  lemma ListChild(g: Links, seen: seq<Tid>, children: map<Tid, seq<Tid>>, roots: seq<Tid>, t: Tid, b: Tid)
    requires Listed(g, seen, children, roots)
    requires t in g && b in g && g[t] == Some(b) && forall x | x in seen :: x < t
    ensures Listed(g, seen + [t], children[b := KidsOf(children, b) + [t]], roots)
  {
    var kids := KidsOf(children, b);
    var grown := children[b := kids + [t]];
    forall c | c in g
      ensures Increasing(KidsOf(grown, c))
      ensures SetOf(KidsOf(grown, c)) == set x | x in seen + [t] && x in Children(g, c)
    {
      if c == b {
        OneMoreKid(g, seen, kids, t, b);
      } else {
        assert KidsOf(grown, c) == KidsOf(children, c);
        assert SetOf(KidsOf(children, c)) == set x | x in seen && x in Children(g, c);
      }
    }
    assert SetOf(roots) == set x | x in seen + [t] && x in g && IsRoot(g, x);
  }

  lemma ListedAll(g: Links, tids: seq<Tid>, children: map<Tid, seq<Tid>>, roots: seq<Tid>)
    requires Listed(g, tids, children, roots) && SetOf(tids) == g.Keys
    ensures Increasing(roots) && SetOf(roots) == set x | x in g && IsRoot(g, x)
    ensures forall t | t in g :: IsKids(g, t, KidsOf(children, t))
  {
    assert forall x | x in g :: x in SetOf(tids);
    forall t | t in g ensures IsKids(g, t, KidsOf(children, t)) {
      assert SetOf(KidsOf(children, t)) == Children(g, t);
    }
  }

  lemma StartListed(g: Links)
    ensures Listed(g, [], map[], [])
  {
  }

  /** Groups the tids by base, in increasing order. */
  method GroupByBase(byTid: map<Tid, Entry>) returns (children: map<Tid, seq<Tid>>, roots: seq<Tid>)
    ensures Increasing(roots)
    ensures SetOf(roots) == set x | x in LinksOf(byTid) && IsRoot(LinksOf(byTid), x)
    ensures forall t | t in byTid :: IsKids(LinksOf(byTid), t, KidsOf(children, t))
  {
    hide Listed, IsKids;
    ghost var g := LinksOf(byTid);
    children, roots := map[], [];
    var tids := Sorted(byTid.Keys);
    assert forall t | t in tids :: t in SetOf(tids);
    StartListed(g);
    for i := 0 to |tids|
      invariant Listed(g, tids[..i], children, roots)
    {
      var tid := tids[i];
      assert tid in byTid;
      var base := byTid[tid].baseId;
      assert tids[..i + 1] == tids[..i] + [tid];
      if base.Some? && base.value in byTid {
        ListChild(g, tids[..i], children, roots, tid, base.value);
        children := children[base.value := KidsOf(children, base.value) + [tid]];
      } else {
        ListRoot(g, tids[..i], children, roots, tid);
        roots := roots + [tid];
      }
    }
    assert tids[..|tids|] == tids;
    ListedAll(g, tids, children, roots);
  }

  ghost predicate Progress(g: Links, a: seq<Tid>, done: nat) {
    Agenda(g, a, done) && Contiguous(g, a, done) && SiblingsAscend(g, a)
  }

  lemma AgendaFits(g: Links, a: seq<Tid>)
    requires Distinct(a) && forall x | x in a :: x in g
    ensures |a| <= |g|
  {
    DistinctCount(a);
    assert SetOf(a) <= g.Keys;
    SubsetCount(SetOf(a), g.Keys);
    assert |g| == |g.Keys|;
  }

  lemma VisitKeepsProgress(g: Links, a: seq<Tid>, done: nat, kids: seq<Tid>)
    requires Progress(g, a, done) && done < |a|
    requires a[done] in g ==> IsKids(g, a[done], kids)
    ensures a[done] in g && done < |g|
    ensures Progress(g, Visit(a, done, kids), done + 1)
  {
    AgendaFits(g, a);
    VisitKeepsAgenda(g, a, done, kids);
    VisitKeepsContiguous(g, a, done, kids);
    VisitKeepsSiblings(g, a, done, kids);
  }

  /** Popping the stack and pushing the reversed children is `Visit` on the agenda. */
  lemma StackStep(order: seq<Tid>, stack: seq<Tid>, kids: seq<Tid>)
    requires stack != []
    ensures (order + [stack[|stack| - 1]]) + Reversed(stack[..|stack| - 1] + Reversed(kids))
         == Visit(order + Reversed(stack), |order|, kids)
  {
    assert Reversed(stack[..|stack| - 1] + Reversed(kids)) == kids + Reversed(stack)[1..];
    assert (order + Reversed(stack))[..|order| + 1] == order + [stack[|stack| - 1]];
    assert (order + Reversed(stack))[|order| + 1..] == Reversed(stack)[1..];
  }

  lemma StepKeepsProgress(g: Links, order: seq<Tid>, stack: seq<Tid>, kids: seq<Tid>)
    requires stack != [] && Progress(g, order + Reversed(stack), |order|)
    requires stack[|stack| - 1] in g ==> IsKids(g, stack[|stack| - 1], kids)
    ensures stack[|stack| - 1] in g && |order| < |g|
    ensures Progress(g, (order + [stack[|stack| - 1]]) + Reversed(stack[..|stack| - 1] + Reversed(kids)), |order| + 1)
  {
    var a, done := order + Reversed(stack), |order|;
    assert a[done] == stack[|stack| - 1];
    VisitKeepsProgress(g, a, done, kids);
    StackStep(order, stack, kids);
  }

  lemma TraversalResult(g: Links, a: seq<Tid>)
    requires Progress(g, a, |a|)
    ensures |a| == |g| <==> Acyclic(g)
    ensures |a| == |g| ==> IsPreorder(g, a)
  {
    CompleteIffAcyclic(g, a);
  }

  /** The explicit-stack traversal: the top of the stack is the next tid to visit. */
  method Traverse(ghost g: Links, children: map<Tid, seq<Tid>>, roots: seq<Tid>) returns (order: seq<Tid>)
    requires Increasing(roots) && SetOf(roots) == set x | x in g && IsRoot(g, x)
    requires forall t | t in g :: IsKids(g, t, KidsOf(children, t))
    ensures |order| == |g| <==> Acyclic(g)
    ensures |order| == |g| ==> IsPreorder(g, order)
  {
    InitialAgenda(g, roots);
    order := [];
    var stack := Reversed(roots);
    assert order + Reversed(stack) == roots;
    while stack != []
      invariant Progress(g, order + Reversed(stack), |order|)
      decreases |g| - |order|
    {
      var tid := stack[|stack| - 1];
      var kids := KidsOf(children, tid);
      StepKeepsProgress(g, order, stack, kids);
      stack := stack[..|stack| - 1] + Reversed(kids);
      order := order + [tid];
    }
    assert order + Reversed(stack) == order;
    TraversalResult(g, order);
  }

  lemma CountsMatch(g: Links, order: seq<Tid>, children: map<Tid, seq<Tid>>, refcount: map<Tid, int>)
    requires SetOf(order) == g.Keys
    requires refcount.Keys == SetOf(order)
    requires forall t | t in refcount :: refcount[t] == |KidsOf(children, t)|
    requires forall t | t in g :: IsKids(g, t, KidsOf(children, t))
    ensures forall t | t in g :: refcount[t] == |Children(g, t)|
  {
    forall t | t in g ensures refcount[t] == |Children(g, t)| {
      DistinctCount(KidsOf(children, t));
    }
  }

  method Package(byTid: map<Tid, Entry>, children: map<Tid, seq<Tid>>, order: seq<Tid>) returns (r: Ordering)
    requires SetOf(order) == byTid.Keys
    requires forall t | t in byTid :: byTid[t].tid == t
    requires forall t | t in byTid :: IsKids(LinksOf(byTid), t, KidsOf(children, t))
    ensures r.Ordering? && r.byTid == byTid
    ensures Tids(r.order) == order
    ensures forall e | e in r.order :: e.tid in byTid && byTid[e.tid] == e
    ensures r.refcount.Keys == byTid.Keys
    ensures forall t | t in byTid :: r.refcount[t] == |Children(LinksOf(byTid), t)|
  {
    hide IsKids, Children;
    assert forall t | t in order :: t in SetOf(order);
    var refcount := map t | t in order :: |KidsOf(children, t)|;
    assert refcount.Keys == SetOf(order);
    CountsMatch(LinksOf(byTid), order, children, refcount);
    var rows := seq(|order|, i requires 0 <= i < |order| => byTid[order[i]]);
    r := Ordering(rows, refcount, byTid);
  }

  ghost predicate Ordered(entries: seq<Entry>, r: Ordering)
    requires r.Ordering?
  {
    var g := LinksOf(ByTid(entries));
    && r.byTid == ByTid(entries)
    && IsPreorder(g, Tids(r.order))
    && (forall e | e in r.order :: e.tid in r.byTid && r.byTid[e.tid] == e)
    && r.refcount.Keys == g.Keys
    && forall t | t in g :: r.refcount[t] == |Children(g, t)|
  }

  /** Succeeds exactly on acyclic entries, with a pre-order and the number of children of
      every entry. */
  method DfsOrder(entries: seq<Entry>) returns (r: Ordering)
    ensures r.Ordering? <==> Acyclic(LinksOf(ByTid(entries)))
    ensures r.Ordering? ==> Ordered(entries, r)
  {
    var byTid := ByTid(entries);
    ghost var g := LinksOf(byTid);
    var children, roots := GroupByBase(byTid);
    var order := Traverse(g, children, roots);
    assert |g| == |g.Keys| == |byTid.Keys| == |byTid|;
    if |order| != |byTid| {
      return TraversalIncomplete;
    }
    r := Package(byTid, children, order);
  }
}
