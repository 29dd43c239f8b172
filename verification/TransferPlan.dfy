/** `/v1/plan`: which closure entries a client that already holds some decoded tensors must
    still fetch, and that fetching them is enough and nothing less would be. */
module TransferPlan {
  import opened Forest
  import opened Sequences
  import opened Manifest

  ghost predicate ParamsIn(g: Links, params: seq<(string, Tid)>) {
    forall k | 0 <= k < |params| :: params[k].1 in g
  }

  /** A manifest the builder can have produced: closed and without cycles. */
  ghost predicate Sound(man: Manifest) {
    var g := LinksOf(ByTid(man.closure));
    Acyclic(g) && ClosedLinks(g) && ParamsIn(g, man.params)
  }

  /** Every manifest the builder writes is one. */
  lemma BuiltIsSound(c: Catalog, man: Manifest)
    requires Describes(c, man)
    ensures Sound(man)
  {
    var g := LinksOf(ByTid(man.closure));
    assert Covers(c, ParamTids(man.params), g.Keys);
    forall k | 0 <= k < |man.params| ensures man.params[k].1 in g {
      assert man.params[k] in man.params;
      assert man.params[k].1 in ParamTids(man.params);
    }
  }

  /** With the decoded tensors `have` and the fetched entries `s`, a chain can be rebuilt: its
      entries down to the first tensor at hand are all fetched. */
  ghost predicate Decodable(have: set<Tid>, s: set<Tid>, chain: seq<Tid>) {
    chain == [] || chain[0] in have || (chain[0] in s && Decodable(have, s, chain[1..]))
  }

  /** `s` makes every parameter decodable. */
  ghost predicate Sufficient(g: Links, params: seq<(string, Tid)>, have: set<Tid>, s: set<Tid>)
    requires Acyclic(g) && ParamsIn(g, params)
  {
    forall k | 0 <= k < |params| :: Decodable(have, s, Chain(g, params[k].1))
  }

  /** The entries of a chain above the first tensor at hand. */
  ghost function Needed(have: set<Tid>, chain: seq<Tid>): set<Tid> {
    if chain == [] || chain[0] in have then {} else {chain[0]} + Needed(have, chain[1..])
  }

  /** What the first parameters of a manifest need. */
  ghost function NeededBy(g: Links, have: set<Tid>, params: seq<(string, Tid)>): set<Tid>
    requires Acyclic(g) && ParamsIn(g, params)
  {
    if params == [] then {}
    else
      var last := |params| - 1;
      NeededBy(g, have, params[..last]) + Needed(have, Chain(g, params[last].1))
  }

  lemma {:induction false} NeededIsEnough(have: set<Tid>, chain: seq<Tid>, s: set<Tid>)
    ensures Decodable(have, s, chain) <==> Needed(have, chain) <= s
  {
    if chain != [] {
      NeededIsEnough(have, chain[1..], s);
    }
  }

  lemma {:induction false} NeededByContains(g: Links, have: set<Tid>, params: seq<(string, Tid)>, s: set<Tid>)
    requires Acyclic(g) && ParamsIn(g, params)
    ensures NeededBy(g, have, params) <= s <==>
      forall k | 0 <= k < |params| :: Needed(have, Chain(g, params[k].1)) <= s
  {
    hide Acyclic, Chain, Needed;
    if params != [] {
      var last := |params| - 1;
      NeededByContains(g, have, params[..last], s);
      assert forall k | 0 <= k < last :: params[..last][k] == params[k];
    }
  }

  /** The needed entries suffice, and every set that suffices contains them. */
  lemma NeededIsLeast(g: Links, params: seq<(string, Tid)>, have: set<Tid>, s: set<Tid>)
    requires Acyclic(g) && ParamsIn(g, params)
    ensures Sufficient(g, params, have, s) <==> NeededBy(g, have, params) <= s
  {
    hide Acyclic, Chain, NeededBy;
    NeededByContains(g, have, params, s);
    forall k | 0 <= k < |params|
      ensures Decodable(have, s, Chain(g, params[k].1)) <==> Needed(have, Chain(g, params[k].1)) <= s
    {
      NeededIsEnough(have, Chain(g, params[k].1), s);
    }
  }

  /** Walks never leave gaps: what a needed tid is stored against is needed too, or at hand. */
  ghost predicate NoGaps(g: Links, have: set<Tid>, needed: set<Tid>) {
    forall t | t in needed :: t in g && t !in have && (g[t].Some? ==> g[t].value in needed || g[t].value in have)
  }

  lemma {:induction false} SuffixKnown(g: Links, have: set<Tid>, needed: set<Tid>, t: Tid)
    requires Acyclic(g) && ClosedLinks(g) && NoGaps(g, have, needed) && t in needed
    ensures Needed(have, Chain(g, t)) <= needed
    decreases |Chain(g, t)|
  {
    var c := Chain(g, t);
    if g[t].Some? {
      BaseChain(g, t);
      assert c[1..] == Chain(g, g[t].value);
      if g[t].value in needed {
        SuffixKnown(g, have, needed, g[t].value);
      } else {
        assert Needed(have, c[1..]) == {};
      }
    } else {
      RootChain(g, t);
      assert c[1..] == [];
    }
  }

  /** The current walk: its tids are new, and only its last one may lack its base. */
  ghost predicate Hanging(g: Links, have: set<Tid>, needed: set<Tid>, walked: set<Tid>, cur: Option<Tid>) {
    && NoGaps(g, have, needed)
    && forall t | t in walked ::
      t in g && t !in have && (g[t].Some? ==> g[t].value in needed + walked || g[t].value in have || g[t] == cur)
  }

  lemma HasChains(g: Links, t: Tid)
    requires Acyclic(g) && t in g
    ensures HasChain(g, t)
    ensures Hanging(g, {}, {}, {}, Some(t))
  {
  }

  lemma NextOnWalk(g: Links, have: set<Tid>, needed: set<Tid>, walked: set<Tid>, t: Tid)
    requires ClosedLinks(g) && HasChain(g, t) && t !in have && Hanging(g, have, needed, walked, Some(t))
    ensures t in g && Chain(g, t)[0] == t
    ensures Hanging(g, have, needed, walked + {t}, g[t])
    ensures Needed(have, Chain(g, t)) == {t} + Needed(have, Chain(g, t)[1..])
    ensures g[t].None? ==> Chain(g, t)[1..] == []
    ensures g[t].Some? ==> g[t].value in g && HasChain(g, g[t].value) && Chain(g, t)[1..] == Chain(g, g[t].value)
  {
    if g[t].None? {
      RootChain(g, t);
    } else {
      BaseChain(g, t);
    }
  }

  /** Meeting a needed tid: the rest of the chain has been walked for another parameter. It
      cannot be a tid of this very walk, which would close a cycle. */
  lemma AlreadyWalked(g: Links, have: set<Tid>, needed: set<Tid>, walked: set<Tid>, t: Tid)
    requires Acyclic(g) && ClosedLinks(g) && Hanging(g, have, needed, walked, Some(t)) && t in needed + walked
    ensures NoGaps(g, have, needed + walked)
    ensures Needed(have, Chain(g, t)) <= needed + walked
  {
    SuffixKnown(g, have, needed + walked, t);
  }

  lemma WalkDone(g: Links, have: set<Tid>, needed0: set<Tid>, walked: set<Tid>, cur: Option<Tid>, needed: set<Tid>,
                 left: seq<Tid>)
    requires needed == needed0 + walked && Hanging(g, have, needed0, walked, cur)
    requires cur.Some? ==> cur.value in have || cur.value in needed
    ensures NoGaps(g, have, needed)
    ensures cur.Some? && cur.value in have && left != [] && left[0] == cur.value ==> Needed(have, left) == {}
  {
  }

  /** The walk of one parameter, stopping at what is at hand or already walked. */
  method WalkParam(byTid: map<Tid, Entry>, have: set<Tid>, tid: Tid, needed0: set<Tid>) returns (needed: set<Tid>)
    requires Acyclic(LinksOf(byTid)) && ClosedLinks(LinksOf(byTid)) && tid in byTid
    requires NoGaps(LinksOf(byTid), have, needed0)
    ensures NoGaps(LinksOf(byTid), have, needed)
    ensures needed == needed0 + Needed(have, Chain(LinksOf(byTid), tid))
  {
    hide Acyclic, NoGaps, Chain, IsRoot;
    ghost var g := LinksOf(byTid);
    ghost var walked: set<Tid> := {};
    needed := needed0;
    var cur := Some(tid);
    HasChains(g, tid);
    ghost var left := Chain(g, tid);
    while cur.Some? && cur.value !in have
      invariant cur.Some? ==> cur.value in g && HasChain(g, cur.value) && left == Chain(g, cur.value)
      invariant cur.None? ==> left == []
      invariant needed == needed0 + walked
      invariant Needed(have, Chain(g, tid)) == walked + Needed(have, left)
      invariant Hanging(g, have, needed0, walked, cur)
      decreases |left|
    {
      var t := cur.value;
      if t in needed {
        AlreadyWalked(g, have, needed0, walked, t);
        break;
      }
      NextOnWalk(g, have, needed0, walked, t);
      walked := walked + {t};
      needed := needed + {t};
      cur := byTid[t].baseId;
      left := left[1..];
    }
    WalkDone(g, have, needed0, walked, cur, needed, left);
  }

  /** The rows of `closure` whose tid is needed, in the order of the manifest. */
  ghost function Picked(closure: seq<Entry>, needed: set<Tid>): seq<Entry> {
    if closure == [] then []
    else
      var last := |closure| - 1;
      Picked(closure[..last], needed) + (if closure[last].tid in needed then [closure[last]] else [])
  }

  lemma {:induction false} PickedMembers(closure: seq<Entry>, needed: set<Tid>)
    ensures forall e :: e in Picked(closure, needed) <==> e in closure && e.tid in needed
  {
    if closure != [] {
      var last := |closure| - 1;
      PickedMembers(closure[..last], needed);
      assert closure == closure[..last] + [closure[last]];
    }
  }

  ghost function Part(m: map<Tid, Entry>, needed: set<Tid>): map<Tid, Entry> {
    map t | t in m && t in needed :: m[t]
  }

  lemma PartSnoc(m: map<Tid, Entry>, e: Entry, needed: set<Tid>)
    ensures Part(m[e.tid := e], needed) == if e.tid in needed then Part(m, needed)[e.tid := e] else Part(m, needed)
  {
  }

  lemma PickedRow(rows: seq<Entry>, e: Entry, needed: set<Tid>)
    requires ByTid(Picked(rows, needed)) == Part(ByTid(rows), needed)
    ensures ByTid(Picked(rows + [e], needed)) == Part(ByTid(rows + [e]), needed)
  {
    hide ByTid, Part;
    PartSnoc(ByTid(rows), e, needed);
    ByTidSnoc(rows, e);
    ByTidSnoc(Picked(rows, needed), e);
    assert (rows + [e])[..|rows|] == rows;
    assert Picked(rows, needed) + [] == Picked(rows, needed);
  }

  lemma NoRowsPicked(needed: set<Tid>)
    ensures ByTid(Picked([], needed)) == map[] == Part(ByTid([]), needed)
  {
  }

  /** The dictionary of the picked rows is the needed part of the manifest's. */
  lemma {:induction false} PickedByTid(closure: seq<Entry>, needed: set<Tid>)
    ensures ByTid(Picked(closure, needed)) == Part(ByTid(closure), needed)
  {
    hide ByTid, Part, Picked;
    if closure == [] {
      NoRowsPicked(needed);
    } else {
      var last := |closure| - 1;
      PickedByTid(closure[..last], needed);
      PickedRow(closure[..last], closure[last], needed);
      assert closure[..last] + [closure[last]] == closure;
    }
  }

  lemma NothingNeeded(g: Links, have: set<Tid>, params: seq<(string, Tid)>)
    requires Acyclic(g)
    ensures params[..0] == [] && NoGaps(g, have, {}) && NeededBy(g, have, []) == {}
  {
  }

  lemma OneMoreParam(g: Links, have: set<Tid>, params: seq<(string, Tid)>, k: nat)
    requires Acyclic(g) && k < |params| && ParamsIn(g, params)
    ensures ParamsIn(g, params[..k]) && ParamsIn(g, params[..k + 1])
    ensures NeededBy(g, have, params[..k + 1]) == NeededBy(g, have, params[..k]) + Needed(have, Chain(g, params[k].1))
  {
    assert params[..k + 1][..k] == params[..k];
  }

  lemma NothingPicked(needed: set<Tid>)
    ensures Picked([], needed) == []
  {
  }

  lemma OneMoreRow(closure: seq<Entry>, needed: set<Tid>, k: nat)
    requires k < |closure|
    ensures Picked(closure[..k + 1], needed)
      == Picked(closure[..k], needed) + (if closure[k].tid in needed then [closure[k]] else [])
  {
    assert closure[..k + 1][..k] == closure[..k];
  }

  lemma NeededAreRows(closure: seq<Entry>, have: set<Tid>, needed: set<Tid>)
    requires NoGaps(LinksOf(ByTid(closure)), have, needed)
    ensures ByTid(Picked(closure, needed)) == Part(ByTid(closure), needed)
    ensures ByTid(Picked(closure, needed)).Keys == needed
  {
    PickedByTid(closure, needed);
  }

  ghost predicate Ascends(es: seq<Entry>) {
    forall i, j | 0 <= i < j < |es| :: es[i].tid < es[j].tid
  }

  lemma {:induction false} PickedAscends(closure: seq<Entry>, needed: set<Tid>)
    requires Ascends(closure)
    ensures Ascends(Picked(closure, needed))
  {
    if closure != [] {
      var last := |closure| - 1;
      PickedAscends(closure[..last], needed);
      PickedMembers(closure[..last], needed);
    }
  }

  /** The transfer plan. What it fetches suffices, and is part of every set that does. */
  method Plan(man: Manifest, have: set<Tid>) returns (fetch: seq<Entry>, ghost needed: set<Tid>)
    requires Sound(man)
    ensures fetch == Picked(man.closure, needed)
    ensures forall e :: e in fetch <==> e in man.closure && e.tid in needed
    ensures Ascends(man.closure) ==> Ascends(fetch)
    ensures forall s: set<Tid> ::
      Sufficient(LinksOf(ByTid(man.closure)), man.params, have, s) <==> needed <= s
    ensures NoGaps(LinksOf(ByTid(man.closure)), have, needed)
    ensures ByTid(fetch) == Part(ByTid(man.closure), needed) && ByTid(fetch).Keys == needed
  {
    hide Acyclic, NoGaps, Chain, IsRoot, NeededBy, Sufficient, Picked, Ascends;
    var byTid := ByTid(man.closure);
    ghost var g := LinksOf(byTid);
    var wanted := {};
    NothingNeeded(g, have, man.params);
    for k := 0 to |man.params|
      invariant NoGaps(g, have, wanted)
      invariant ParamsIn(g, man.params[..k])
      invariant wanted == NeededBy(g, have, man.params[..k])
    {
      wanted := WalkParam(byTid, have, man.params[k].1, wanted);
      OneMoreParam(g, have, man.params, k);
    }
    assert man.params[..|man.params|] == man.params;
    forall s: set<Tid> ensures Sufficient(g, man.params, have, s) <==> wanted <= s {
      NeededIsLeast(g, man.params, have, s);
    }
    fetch := [];
    NothingPicked(wanted);
    for k := 0 to |man.closure|
      invariant fetch == Picked(man.closure[..k], wanted)
    {
      if man.closure[k].tid in wanted {
        fetch := fetch + [man.closure[k]];
      }
      OneMoreRow(man.closure, wanted, k);
    }
    assert man.closure[..|man.closure|] == man.closure;
    NeededAreRows(man.closure, have, wanted);
    needed := wanted;
    PickedMembers(man.closure, needed);
    if Ascends(man.closure) {
      PickedAscends(man.closure, needed);
    }
  }
}
