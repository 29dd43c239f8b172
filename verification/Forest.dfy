/** The delta forest: tensors that store a delta against a base tensor.

    A tid is the fixed-width hexadecimal content hash of a tensor; it is modelled by the
    number it denotes, so that the lexicographic order of tids is the order of numbers. */
module Forest {
  type Tid = nat

  datatype Option<+T> = None | Some(value: T)

  /** For every tid the base it is a delta against, if any. */
  type Links = map<Tid, Option<Tid>>

  /** One row of a closure: where a tensor is stored and what it is a delta against. */
  datatype Entry = Entry(tid: Tid, key: string, storedBytes: nat, logicalBytes: nat, baseId: Option<Tid>)

  /** The dictionary keyed by tid that a comprehension over `entries` builds: later rows win. */
  function ByTid(entries: seq<Entry>): (m: map<Tid, Entry>)
    ensures forall t | t in m :: m[t].tid == t && m[t] in entries
    ensures forall e | e in entries :: e.tid in m
  {
    if entries == [] then map[]
    else
      var last := entries[|entries| - 1];
      ByTid(entries[..|entries| - 1])[last.tid := last]
  }

  lemma ByTidSnoc(rows: seq<Entry>, e: Entry)
    ensures ByTid(rows + [e]) == ByTid(rows)[e.tid := e]
  {
    assert (rows + [e])[..|rows|] == rows;
  }

  function LinksOf(m: map<Tid, Entry>): (g: Links)
    ensures g.Keys == m.Keys
  {
    map t | t in m :: m[t].baseId
  }

  /** A tid without base, or whose base lies outside `g`. */
  ghost predicate IsRoot(g: Links, t: Tid)
    requires t in g
  {
    g[t].None? || g[t].value !in g
  }

  /** `c` follows the base links from its first tid to a root of `g`. */
  ghost predicate IsChain(g: Links, c: seq<Tid>) {
    && |c| > 0
    && c[0] in g
    && if |c| == 1 then IsRoot(g, c[0]) else g[c[0]] == Some(c[1]) && IsChain(g, c[1..])
  }

  ghost predicate HasChain(g: Links, t: Tid) {
    exists c :: IsChain(g, c) && c[0] == t
  }

  /** No walk along base links runs for ever. */
  ghost predicate Acyclic(g: Links) {
    forall t | t in g :: HasChain(g, t)
  }

  /** The chain of `t`: `t` first, its root last. */
  ghost function Chain(g: Links, t: Tid): (c: seq<Tid>)
    requires HasChain(g, t)
    ensures IsChain(g, c) && c[0] == t
  {
    var c :| IsChain(g, c) && c[0] == t;
    c
  }

  /** `a` lies strictly above `t`: reconstructing `t` goes through `a`. */
  ghost predicate ProperAncestor(g: Links, a: Tid, t: Tid) {
    HasChain(g, t) && a in Chain(g, t)[1..]
  }

  lemma {:induction false} ChainUnique(g: Links, c: seq<Tid>, d: seq<Tid>)
    requires IsChain(g, c) && IsChain(g, d) && c[0] == d[0]
    ensures c == d
  {
    if |c| == 1 {
      assert c == [c[0]] && d == [d[0]];
    } else {
      assert IsChain(g, c[1..]);
      assert |d| != 1;
      ChainUnique(g, c[1..], d[1..]);
      assert c == [c[0]] + c[1..] && d == [d[0]] + d[1..];
    }
  }

  lemma {:induction false} ChainSuffix(g: Links, c: seq<Tid>, i: nat)
    requires IsChain(g, c) && i < |c|
    ensures IsChain(g, c[i..])
    decreases i
  {
    if i == 0 {
      assert c[0..] == c;
    } else {
      ChainSuffix(g, c[1..], i - 1);
      assert c[1..][i - 1..] == c[i..];
    }
  }

  lemma ChainMembers(g: Links, c: seq<Tid>, i: nat)
    requires IsChain(g, c) && i < |c|
    ensures c[i] in g
    ensures i + 1 < |c| ==> g[c[i]] == Some(c[i + 1])
    ensures i + 1 == |c| ==> IsRoot(g, c[i])
    ensures HasChain(g, c[i]) && Chain(g, c[i]) == c[i..]
  {
    ChainSuffix(g, c, i);
    ChainUnique(g, Chain(g, c[i]), c[i..]);
  }

  /** A chain never visits a tid twice: otherwise two of its suffixes would coincide. */
  lemma ChainDistinct(g: Links, c: seq<Tid>, i: nat, j: nat)
    requires IsChain(g, c) && i < j < |c|
    ensures c[i] != c[j]
  {
    ChainMembers(g, c, i);
    ChainMembers(g, c, j);
    assert |c[i..]| == |c| - i && |c[j..]| == |c| - j;
  }

  lemma RootChain(g: Links, t: Tid)
    requires t in g && IsRoot(g, t)
    ensures HasChain(g, t) && Chain(g, t) == [t]
  {
    assert IsChain(g, [t]);
    ChainUnique(g, Chain(g, t), [t]);
  }

  lemma ChildChain(g: Links, t: Tid, b: Tid)
    requires t in g && g[t] == Some(b) && HasChain(g, b)
    ensures HasChain(g, t) && Chain(g, t) == [t] + Chain(g, b)
  {
    var c := [t] + Chain(g, b);
    assert c[1..] == Chain(g, b);
    assert IsChain(g, c);
    ChainUnique(g, Chain(g, t), c);
  }

  lemma BaseChain(g: Links, t: Tid)
    requires HasChain(g, t) && !IsRoot(g, t)
    ensures HasChain(g, g[t].value) && Chain(g, t) == [t] + Chain(g, g[t].value)
  {
    var c := Chain(g, t);
    assert |c| > 1;
    ChainMembers(g, c, 1);
    assert c == [c[0]] + c[1..];
  }

  /** The transitive step: the proper ancestors of `t` are its base and the base's own. */
  lemma AncestorsOfChild(g: Links, t: Tid, b: Tid, a: Tid)
    requires t in g && g[t] == Some(b) && HasChain(g, b)
    ensures ProperAncestor(g, a, t) <==> a == b || ProperAncestor(g, a, b)
  {
    ChildChain(g, t, b);
    var c := Chain(g, b);
    assert c == [b] + c[1..];
    assert Chain(g, t)[1..] == c;
  }
}
