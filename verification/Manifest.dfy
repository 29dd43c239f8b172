/** Manifests: the closure of a model's tensors under base links, the depth of every delta
    chain, the chain walk of the metadata server, and the transfer plan over a manifest. */
module Manifest {
  import opened Forest
  import opened Sequences

  /** A row of the tensors table. */
  datatype TensorRow = TensorRow(storedBytes: nat, logicalBytes: nat)

  /** The catalog's tables; `key` is the blob key of a tid. */
  datatype Catalog = Catalog(
    mappings: map<string, seq<(string, Tid)>>,
    tensors: map<Tid, TensorRow>,
    deltas: map<Tid, Option<Tid>>,
    key: Tid -> string)

  datatype Outcome<T> = Ok(value: T) | UnknownModel | Missing(tid: Tid) | Cycle(tid: Tid)

  datatype Manifest = Manifest(params: seq<(string, Tid)>, closure: seq<Entry>, depth: map<Tid, nat>)

  function BaseOf(c: Catalog, t: Tid): Option<Tid> {
    if t in c.deltas then c.deltas[t] else None
  }

  function EntryOf(c: Catalog, t: Tid): Entry
    requires t in c.tensors
  {
    Entry(t, c.key(t), c.tensors[t].storedBytes, c.tensors[t].logicalBytes, BaseOf(c, t))
  }

  /** `e` says of its tid what the tables say. */
  ghost predicate IsRow(c: Catalog, e: Entry) {
    && e.tid in c.tensors && e.key == c.key(e.tid)
    && e.storedBytes == c.tensors[e.tid].storedBytes && e.logicalBytes == c.tensors[e.tid].logicalBytes
    && (e.tid in c.deltas ==> e.baseId == c.deltas[e.tid])
    && (e.tid !in c.deltas ==> e.baseId.None?)
  }

  /** A row read from the tables is the one entry that says what they say. */
  lemma RowsAreRead(c: Catalog, t: Tid)
    requires t in c.tensors
    ensures forall e :: e == EntryOf(c, t) <==> e.tid == t && IsRow(c, e)
  {
  }

  /** The base links of the whole catalog. */
  ghost function AllLinks(c: Catalog): (g: Links)
    ensures g.Keys == c.tensors.Keys
  {
    map t | t in c.tensors :: BaseOf(c, t)
  }

  // ---- reachability as membership in every closed set

  ghost predicate Closed(c: Catalog, s: set<Tid>) {
    forall t | t in s && BaseOf(c, t).Some? :: BaseOf(c, t).value in s
  }

  ghost predicate Covers(c: Catalog, start: set<Tid>, s: set<Tid>) {
    start <= s && Closed(c, s)
  }

  /** `t` lies in every closed set that contains `start`. */
  ghost predicate Reachable(c: Catalog, start: set<Tid>, t: Tid) {
    forall s: set<Tid> | Covers(c, start, s) :: t in s
  }

  /** `s` is the least closed set that contains `start`. */
  ghost predicate IsClosure(c: Catalog, start: set<Tid>, s: set<Tid>) {
    Covers(c, start, s) && forall t | t in s :: Reachable(c, start, t)
  }

  lemma ReachableBase(c: Catalog, start: set<Tid>, t: Tid)
    requires Reachable(c, start, t) && BaseOf(c, t).Some?
    ensures Reachable(c, start, BaseOf(c, t).value)
  {
    forall s: set<Tid> | Covers(c, start, s) ensures BaseOf(c, t).value in s {
      assert t in s;
    }
  }

  // ---- the fixpoint

  ghost predicate IsBlobs(c: Catalog, blobs: map<Tid, Entry>) {
    forall t | t in blobs :: t in c.tensors && blobs[t] == EntryOf(c, t)
  }

  ghost predicate IsBaseIn(c: Catalog, s: set<Tid>, b: Tid) {
    exists t | t in s :: BaseOf(c, t) == Some(b)
  }

  /** Everything seen is reachable; the base of every blob is a blob or still to come, and
      nothing else is. */
  ghost predicate Growing(c: Catalog, start: set<Tid>, blobs: map<Tid, Entry>, coming: set<Tid>) {
    && IsBlobs(c, blobs)
    && start <= blobs.Keys + coming
    && (forall t | t in blobs || t in coming :: Reachable(c, start, t))
    && (forall t | t in blobs && BaseOf(c, t).Some? :: BaseOf(c, t).value in blobs.Keys + coming)
    && forall t | t in coming :: t in start || IsBaseIn(c, blobs.Keys, t)
  }

  lemma GrowOne(c: Catalog, start: set<Tid>, blobs: map<Tid, Entry>, rest: set<Tid>, nxt: set<Tid>, t: Tid)
    requires Growing(c, start, blobs, {t} + rest + nxt) && t in c.tensors
    ensures var more := blobs[t := EntryOf(c, t)];
      var b := BaseOf(c, t);
      Growing(c, start, more, rest + (if b.Some? && b.value !in more then nxt + {b.value} else nxt))
  {
    if BaseOf(c, t).Some? {
      ReachableBase(c, start, t);
    }
    hide Reachable;
    var more := blobs[t := EntryOf(c, t)];
    assert t in more.Keys;
    forall u: Tid | IsBaseIn(c, blobs.Keys, u) ensures IsBaseIn(c, more.Keys, u) {
      var v :| v in blobs.Keys && BaseOf(c, v) == Some(u);
      assert v in more.Keys;
    }
    hide IsBaseIn;
  }

  // ---- the queries, round by round

  ghost function Seen(rounds: seq<set<Tid>>): set<Tid> {
    if rounds == [] then {} else Seen(rounds[..|rounds| - 1]) + rounds[|rounds| - 1]
  }

  ghost function BasesOf(c: Catalog, s: set<Tid>): set<Tid> {
    set t | t in s && BaseOf(c, t).Some? :: BaseOf(c, t).value
  }

  /** What is known to be needed and has not been queried. */
  ghost function NextRound(c: Catalog, start: set<Tid>, rounds: seq<set<Tid>>): set<Tid> {
    start + BasesOf(c, Seen(rounds)) - Seen(rounds)
  }

  /** Each round queries everything that is needed and was not queried before. */
  ghost predicate InRounds(c: Catalog, start: set<Tid>, rounds: seq<set<Tid>>) {
    rounds == [] ||
      var was := rounds[..|rounds| - 1];
      InRounds(c, start, was) && rounds[|rounds| - 1] == NextRound(c, start, was) != {}
  }

  /** So no tid is queried twice. */
  lemma {:induction false} RoundsApart(c: Catalog, start: set<Tid>, rounds: seq<set<Tid>>)
    requires InRounds(c, start, rounds)
    ensures forall i, j | 0 <= i < j < |rounds| :: rounds[i] !! rounds[j]
    ensures forall i | 0 <= i < |rounds| :: rounds[i] <= Seen(rounds)
  {
    if rounds != [] {
      RoundsApart(c, start, rounds[..|rounds| - 1]);
    }
    hide BasesOf;
  }

  lemma RoundDone(c: Catalog, start: set<Tid>, rounds: seq<set<Tid>>, round: set<Tid>)
    requires InRounds(c, start, rounds) && round == NextRound(c, start, rounds) != {}
    ensures InRounds(c, start, rounds + [round]) && Seen(rounds + [round]) == Seen(rounds) + round
  {
    assert (rounds + [round])[..|rounds|] == rounds;
  }

  lemma RoundIsNext(c: Catalog, start: set<Tid>, blobs: map<Tid, Entry>, nxt: set<Tid>, rounds: seq<set<Tid>>)
    requires Growing(c, start, blobs, nxt) && Seen(rounds) == blobs.Keys
    ensures nxt - blobs.Keys == NextRound(c, start, rounds)
  {
    hide Reachable, Seen, IsBlobs;
    forall b | b in BasesOf(c, blobs.Keys) ensures b in blobs.Keys + nxt {
    }
  }

  lemma InChunk(chunk: seq<Tid>, i: nat)
    requires i < |chunk|
    ensures chunk[i] in SetOf(chunk)
  {
  }

  lemma ChunkStep(chunk: seq<Tid>, i: nat)
    requires i < |chunk|
    ensures SetOf(chunk[i..]) == {chunk[i]} + SetOf(chunk[i + 1..])
    ensures SetOf(chunk[..i + 1]) == SetOf(chunk[..i]) + {chunk[i]}
  {
    assert chunk[i..] == [chunk[i]] + chunk[i + 1..];
    assert chunk[..i + 1] == chunk[..i] + [chunk[i]];
    SetOfSnoc(chunk[..i], chunk[i]);
  }

  lemma ChunkEnds(chunk: seq<Tid>)
    ensures SetOf(chunk[..0]) == {} == SetOf(chunk[|chunk|..]) && SetOf(chunk[..|chunk|]) == SetOf(chunk)
  {
    assert chunk[..|chunk|] == chunk;
  }

  lemma ComingReachable(c: Catalog, start: set<Tid>, blobs: map<Tid, Entry>, coming: set<Tid>, t: Tid)
    requires Growing(c, start, blobs, coming) && t in coming
    ensures Reachable(c, start, t)
  {
  }

  /** One chunk of the frontier: every row must exist. */
  method AddChunk(c: Catalog, ghost start: set<Tid>, chunk: seq<Tid>, ghost rest: set<Tid>,
                  blobs0: map<Tid, Entry>, nxt0: set<Tid>)
    returns (missing: Option<Tid>, blobs: map<Tid, Entry>, nxt: set<Tid>)
    requires Growing(c, start, blobs0, SetOf(chunk) + rest + nxt0)
    requires Distinct(chunk) && forall t | t in chunk :: t !in blobs0
    ensures missing.Some? ==>
      missing.value !in c.tensors && Reachable(c, start, missing.value) && missing.value in chunk
    ensures missing.None? ==> Growing(c, start, blobs, rest + nxt) && blobs.Keys == blobs0.Keys + SetOf(chunk)
  {
    hide Growing, Reachable, Distinct, SetOf;
    missing, blobs, nxt := None, blobs0, nxt0;
    for i := 0 to |chunk|
      invariant forall k | 0 <= k < i :: chunk[k] in c.tensors
    {
      if chunk[i] !in c.tensors {
        InChunk(chunk, i);
        ComingReachable(c, start, blobs0, SetOf(chunk) + rest + nxt0, chunk[i]);
        return Some(chunk[i]), blobs, nxt;
      }
    }
    assert chunk[0..] == chunk;
    ChunkEnds(chunk);
    for i := 0 to |chunk|
      invariant Growing(c, start, blobs, SetOf(chunk[i..]) + rest + nxt)
      invariant blobs.Keys == blobs0.Keys + SetOf(chunk[..i])
    {
      var t := chunk[i];
      ChunkStep(chunk, i);
      assert SetOf(chunk[i..]) + rest + nxt == {t} + (SetOf(chunk[i + 1..]) + rest) + nxt;
      GrowOne(c, start, blobs, SetOf(chunk[i + 1..]) + rest, nxt, t);
      blobs := blobs[t := EntryOf(c, t)];
      var b := BaseOf(c, t);
      if b.Some? && b.value !in blobs {
        nxt := nxt + {b.value};
      }
    }
    assert SetOf(chunk[|chunk|..]) + rest + nxt == rest + nxt;
  }

  lemma GrowthIsClosure(c: Catalog, start: set<Tid>, blobs: map<Tid, Entry>)
    requires Growing(c, start, blobs, {})
    ensures IsClosure(c, start, blobs.Keys) && IsBlobs(c, blobs)
  {
    assert blobs.Keys + {} == blobs.Keys;
  }

  lemma ComingAfter(c: Catalog, start: set<Tid>, blobs: map<Tid, Entry>, nxt: set<Tid>)
    requires Growing(c, start, blobs, nxt)
    ensures Growing(c, start, blobs, nxt - blobs.Keys)
  {
    assert blobs.Keys + (nxt - blobs.Keys) == blobs.Keys + nxt;
  }

  lemma FitsTables(c: Catalog, start: set<Tid>, blobs: map<Tid, Entry>, coming: set<Tid>)
    requires Growing(c, start, blobs, coming)
    ensures blobs.Keys <= c.tensors.Keys
  {
  }

  lemma MoreBlobs(tables: set<Tid>, before: set<Tid>, after: set<Tid>)
    requires before < after <= tables
    ensures |tables - after| < |tables - before|
  {
    assert tables - after <= tables - before;
    assert after == before + (after - before);
    var t :| t in after - before;
    assert t in tables - before && t !in tables - after;
    SubsetCount(tables - after, tables - before - {t});
  }

  lemma StartGrowing(c: Catalog, start: set<Tid>)
    ensures Growing(c, start, map[], start)
    ensures InRounds(c, start, []) && Seen([]) == {}
  {
  }

  lemma ChunkOf(frontier: seq<Tid>, i: nat, j: nat, before: set<Tid>)
    requires i <= j <= |frontier| && Distinct(frontier) && forall t | t in frontier :: t !in before
    ensures Distinct(frontier[i..j])
    ensures SetOf(frontier[i..]) == SetOf(frontier[i..j]) + SetOf(frontier[j..])
    ensures SetOf(frontier[..j]) == SetOf(frontier[..i]) + SetOf(frontier[i..j])
    ensures forall t | t in frontier[i..j] :: t !in before + SetOf(frontier[..i])
  {
    assert frontier[i..] == frontier[i..j] + frontier[j..];
    assert frontier[..j] == frontier[..i] + frontier[i..j];
    forall t | t in frontier[i..j] ensures t !in before + SetOf(frontier[..i]) {
      assert t in frontier;
      var k :| 0 <= k < j - i && frontier[i..j][k] == t;
      assert frontier[i + k] == t;
    }
  }

  /** The frontier in chunks. */
  method AddFrontier(c: Catalog, ghost start: set<Tid>, frontier: seq<Tid>, blobs0: map<Tid, Entry>, chunkSize: nat)
    returns (missing: Option<Tid>, blobs: map<Tid, Entry>, nxt: set<Tid>)
    requires chunkSize > 0 && Growing(c, start, blobs0, SetOf(frontier))
    requires Distinct(frontier) && forall t | t in frontier :: t !in blobs0
    ensures missing.Some? ==>
      missing.value !in c.tensors && Reachable(c, start, missing.value) && missing.value in frontier
    ensures missing.None? ==> Growing(c, start, blobs, nxt) && blobs.Keys == blobs0.Keys + SetOf(frontier)
  {
    hide Growing, Reachable;
    missing, blobs, nxt := None, blobs0, {};
    var i := 0;
    assert frontier[0..] == frontier && SetOf(frontier) + {} == SetOf(frontier);
    while i < |frontier|
      invariant i <= |frontier| && missing.None?
      invariant Growing(c, start, blobs, SetOf(frontier[i..]) + nxt)
      invariant blobs.Keys == blobs0.Keys + SetOf(frontier[..i])
    {
      var j := if i + chunkSize < |frontier| then i + chunkSize else |frontier|;
      var chunk := frontier[i..j];
      ChunkOf(frontier, i, j, blobs0.Keys);
      assert SetOf(frontier[i..]) + nxt == SetOf(chunk) + SetOf(frontier[j..]) + nxt;
      missing, blobs, nxt := AddChunk(c, start, chunk, SetOf(frontier[j..]), blobs, nxt);
      if missing.Some? {
        return;
      }
      i := j;
    }
    assert SetOf(frontier[i..]) + nxt == nxt;
    assert frontier[..i] == frontier;
  }

  /** The iterative closure. `rounds` are the frontiers, each queried in chunks. */
  method Fixpoint(c: Catalog, start: set<Tid>, chunkSize: nat)
    returns (r: Outcome<map<Tid, Entry>>, ghost rounds: seq<set<Tid>>)
    requires chunkSize > 0
    ensures r.Ok? || r.Missing?
    ensures InRounds(c, start, rounds)
    ensures r.Ok? ==> IsClosure(c, start, r.value.Keys) && IsBlobs(c, r.value)
    ensures r.Ok? ==> Seen(rounds) == r.value.Keys && NextRound(c, start, rounds) == {}
    ensures r.Missing? ==> r.tid !in c.tensors && Reachable(c, start, r.tid) && r.tid in Seen(rounds)
  {
    hide Growing, Reachable, IsBlobs, IsClosure, InRounds, Seen, NextRound;
    var blobs: map<Tid, Entry> := map[];
    var frontier := Sorted(start);
    rounds := [];
    StartGrowing(c, start);
    RoundIsNext(c, start, blobs, start, rounds);
    assert start - blobs.Keys == start == SetOf(frontier);
    while frontier != []
      invariant Growing(c, start, blobs, SetOf(frontier))
      invariant Distinct(frontier) && forall t | t in frontier :: t !in blobs
      invariant InRounds(c, start, rounds) && Seen(rounds) == blobs.Keys &&
        NextRound(c, start, rounds) == SetOf(frontier)
      decreases |c.tensors.Keys - blobs.Keys|
    {
      ghost var before := blobs.Keys;
      FitsTables(c, start, blobs, SetOf(frontier));
      assert frontier[0] in SetOf(frontier);
      RoundDone(c, start, rounds, SetOf(frontier));
      rounds := rounds + [SetOf(frontier)];
      var missing, nxt;
      missing, blobs, nxt := AddFrontier(c, start, frontier, blobs, chunkSize);
      if missing.Some? {
        return Missing(missing.value), rounds;
      }
      FitsTables(c, start, blobs, nxt);
      MoreBlobs(c.tensors.Keys, before, blobs.Keys);
      RoundIsNext(c, start, blobs, nxt, rounds);
      ComingAfter(c, start, blobs, nxt);
      frontier := Sorted(nxt - blobs.Keys);
      assert forall t | t in frontier :: t in SetOf(frontier);
    }
    assert SetOf(frontier) == {};
    GrowthIsClosure(c, start, blobs);
    r := Ok(blobs);
  }

  // ---- chains, as the metadata server walks them

  /** `path` follows base links: each tid is the base of the one before. */
  ghost predicate IsPath(c: Catalog, path: seq<Tid>) {
    && (forall i | 0 <= i < |path| :: path[i] in c.tensors)
    && forall i | 0 <= i < |path| - 1 :: BaseOf(c, path[i]) == Some(path[i + 1])
  }

  /** A path that leads to a tid with a chain is the beginning of a chain. */
  lemma {:induction false} PathThenChain(g: Links, path: seq<Tid>, t: Tid, i: nat)
    requires HasChain(g, t) && i <= |path|
    requires forall k | 0 <= k < |path| :: path[k] in g
    requires forall k | 0 <= k < |path| - 1 :: g[path[k]] == Some(path[k + 1])
    requires path != [] ==> g[path[|path| - 1]] == Some(t)
    ensures i < |path| ==> HasChain(g, path[i]) && Chain(g, path[i]) == path[i..] + Chain(g, t)
    decreases |path| - i
  {
    if i < |path| {
      if i == |path| - 1 {
        ChildChain(g, path[i], t);
        assert path[i..] == [path[i]];
      } else {
        PathThenChain(g, path, t, i + 1);
        ChildChain(g, path[i], path[i + 1]);
        assert path[i..] == [path[i]] + path[i + 1..];
      }
    }
  }

  lemma {:induction false} PathForward(g: Links, path: seq<Tid>, i: nat)
    requires i < |path|
    requires forall k | 0 <= k < |path| :: path[k] in g
    requires forall k | 0 <= k < |path| - 1 :: g[path[k]] == Some(path[k + 1])
    ensures HasChain(g, path[0]) ==> HasChain(g, path[i])
  {
    if i > 0 {
      PathForward(g, path, i - 1);
      if HasChain(g, path[0]) {
        assert path[i] in g && g[path[i - 1]] == Some(path[i]);
        BaseChain(g, path[i - 1]);
      }
    }
  }

  /** A path that comes back to itself has no end. */
  lemma BackOnPath(g: Links, path: seq<Tid>, t: Tid)
    requires t in path
    requires forall k | 0 <= k < |path| :: path[k] in g
    requires forall k | 0 <= k < |path| - 1 :: g[path[k]] == Some(path[k + 1])
    requires g[path[|path| - 1]] == Some(t)
    ensures !HasChain(g, t)
    ensures !HasChain(g, path[0])
  {
    var i :| 0 <= i < |path| && path[i] == t;
    if HasChain(g, t) {
      PathThenChain(g, path, t, i);
    }
    PathForward(g, path, i);
  }

  /** A whole walk is a chain. */
  lemma {:induction false} PathIsChain(g: Links, path: seq<Tid>)
    requires path != []
    requires forall k | 0 <= k < |path| :: path[k] in g
    requires forall k | 0 <= k < |path| - 1 :: g[path[k]] == Some(path[k + 1])
    requires IsRoot(g, path[|path| - 1])
    ensures IsChain(g, path)
  {
    if |path| > 1 {
      assert forall k | 0 <= k < |path[1..]| :: path[1..][k] == path[k + 1];
      PathIsChain(g, path[1..]);
    }
  }

  /** The walk from `tid` passes the tensors of `path`, none of them twice, and comes to `t`. */
  ghost predicate LeadsTo(c: Catalog, tid: Tid, path: seq<Tid>, t: Tid) {
    && IsPath(c, path) && Distinct(path)
    && if path == [] then t == tid else path[0] == tid && BaseOf(c, path[|path| - 1]) == Some(t)
  }

  /** The walk answers with the whole chain when it ends at a tensor stored directly; it
      reports the first tid on its way that has no row, or the first it meets again. */
  ghost predicate WalkAnswer(c: Catalog, tid: Tid, r: Outcome<seq<Entry>>) {
    match r
    case Ok(chain) =>
      && HasChain(AllLinks(c), tid)
      && |chain| == |Chain(AllLinks(c), tid)|
      && (forall i | 0 <= i < |chain| ::
            Chain(AllLinks(c), tid)[i] in c.tensors && chain[i] == EntryOf(c, Chain(AllLinks(c), tid)[i]))
      && chain[|chain| - 1].baseId.None?
    case Missing(t) => t !in c.tensors && Reachable(c, {tid}, t) && exists path :: LeadsTo(c, tid, path, t)
    case Cycle(t) =>
      && tid in c.tensors && !HasChain(AllLinks(c), tid)
      && exists path :: LeadsTo(c, tid, path, t) && t in path
    case UnknownModel => false
  }

  /** The state of a walk from `tid`: the tids passed, their entries, and where it is. */
  ghost predicate Walking(c: Catalog, tid: Tid, path: seq<Tid>, chain: seq<Entry>, cur: Option<Tid>) {
    && |path| == |chain| && IsPath(c, path) && Distinct(path)
    && (forall i | 0 <= i < |chain| :: chain[i] == EntryOf(c, path[i]))
    && (if path == [] then cur == Some(tid) else path[0] == tid && BaseOf(c, path[|path| - 1]) == cur)
    && (cur.Some? ==> Reachable(c, {tid}, cur.value))
  }

  lemma StartWalking(c: Catalog, tid: Tid)
    ensures Walking(c, tid, [], [], Some(tid))
  {
  }

  lemma WalkOn(c: Catalog, tid: Tid, path: seq<Tid>, chain: seq<Entry>, t: Tid)
    requires Walking(c, tid, path, chain, Some(t))
    ensures Reachable(c, {tid}, t)
    ensures SetOf(path) <= c.tensors.Keys
    ensures t in path ==> tid in c.tensors && !HasChain(AllLinks(c), tid)
    ensures LeadsTo(c, tid, path, t)
    ensures t in c.tensors && t !in path ==> Walking(c, tid, path + [t], chain + [EntryOf(c, t)], BaseOf(c, t))
  {
    if t in path {
      BackOnPath(AllLinks(c), path, t);
    }
    if t in c.tensors && BaseOf(c, t).Some? {
      ReachableBase(c, {tid}, t);
    }
  }

  lemma WalkEnds(c: Catalog, tid: Tid, path: seq<Tid>, chain: seq<Entry>)
    requires Walking(c, tid, path, chain, None)
    ensures HasChain(AllLinks(c), tid) && Chain(AllLinks(c), tid) == path && path[0] == tid
    ensures |chain| == |path| > 0
    ensures forall i | 0 <= i < |chain| :: path[i] in c.tensors && chain[i] == EntryOf(c, path[i])
    ensures chain[|chain| - 1].baseId.None?
  {
    var g := AllLinks(c);
    PathIsChain(g, path);
    ChainUnique(g, path, Chain(g, tid));
  }

  /** Rows of the tables, each the base of the one before, the last stored directly. */
  ghost predicate IsLinked(c: Catalog, chain: seq<Entry>) {
    && (forall e | e in chain :: IsRow(c, e))
    && (forall i | 0 <= i < |chain| - 1 :: chain[i].baseId == Some(chain[i + 1].tid))
    && (chain != [] ==> chain[|chain| - 1].baseId.None?)
  }

  lemma PathIsLinked(c: Catalog, path: seq<Tid>, chain: seq<Entry>)
    requires IsChain(AllLinks(c), path) && |chain| == |path|
    requires forall i | 0 <= i < |chain| :: path[i] in c.tensors && chain[i] == EntryOf(c, path[i])
    requires chain[|chain| - 1].baseId.None?
    ensures IsLinked(c, chain) && chain[0].tid == path[0]
  {
    hide IsRow;
    forall i | 0 <= i < |chain| ensures IsRow(c, chain[i]) && chain[i].tid == path[i] &&
      chain[i].baseId == BaseOf(c, path[i]) {
      RowsAreRead(c, path[i]);
    }
    forall i | 0 <= i < |chain| - 1 ensures chain[i].baseId == Some(chain[i + 1].tid) {
      ChainMembers(AllLinks(c), path, i);
    }
  }

  lemma WalkStops(c: Catalog, tid: Tid, path: seq<Tid>, chain: seq<Entry>, t: Tid)
    requires Walking(c, tid, path, chain, Some(t))
    ensures t in path ==> WalkAnswer(c, tid, Cycle(t))
    ensures t !in c.tensors ==> WalkAnswer(c, tid, Missing(t))
  {
    WalkOn(c, tid, path, chain, t);
    hide Walking, Reachable, LeadsTo;
  }

  lemma WalkIsDone(c: Catalog, tid: Tid, path: seq<Tid>, chain: seq<Entry>)
    requires Walking(c, tid, path, chain, None)
    ensures WalkAnswer(c, tid, Ok(chain)) && chain != [] && chain[0].tid == tid && IsLinked(c, chain)
  {
    WalkEnds(c, tid, path, chain);
    hide Walking, EntryOf, IsLinked;
    PathIsLinked(c, path, chain);
  }

  /** `/v1/closure`: the chain of one tid, the tid first. */
  method ChainWalk(c: Catalog, tid: Tid) returns (r: Outcome<seq<Entry>>)
    ensures WalkAnswer(c, tid, r)
    ensures r.Ok? ==> r.value != [] && r.value[0].tid == tid && IsLinked(c, r.value)
  {
    hide Walking, Reachable, LeadsTo, WalkAnswer, IsLinked;
    var chain: seq<Entry> := [];
    ghost var path: seq<Tid> := [];
    var seen: set<Tid> := {};
    var cur := Some(tid);
    StartWalking(c, tid);
    while cur.Some?
      invariant Walking(c, tid, path, chain, cur) && seen == SetOf(path)
      decreases |c.tensors.Keys - seen|, cur.Some?
    {
      var t := cur.value;
      WalkOn(c, tid, path, chain, t);
      WalkStops(c, tid, path, chain, t);
      if t in seen {
        return Cycle(t);
      }
      if t !in c.tensors {
        return Missing(t);
      }
      MoreBlobs(c.tensors.Keys, seen, seen + {t});
      SetOfSnoc(path, t);
      chain, path, seen := chain + [EntryOf(c, t)], path + [t], seen + {t};
      cur := BaseOf(c, t);
    }
    WalkIsDone(c, tid, path, chain);
    r := Ok(chain);
  }

  /** A walk to a tid without a row is the whole chain above that tid. */
  lemma DeadEnd(c: Catalog, tid: Tid, path: seq<Tid>, t: Tid)
    requires LeadsTo(c, tid, path, t) && t !in c.tensors
    ensures path == [] ==> !HasChain(AllLinks(c), tid)
    ensures path != [] ==> HasChain(AllLinks(c), tid) && Chain(AllLinks(c), tid) == path
  {
    var g := AllLinks(c);
    if path != [] {
      PathIsChain(g, path);
      ChainUnique(g, path, Chain(g, tid));
    }
  }

  /** A walk that stops does so without a whole chain, and where it stops. */
  lemma Stop(c: Catalog, tid: Tid, r: Outcome<seq<Entry>>) returns (path: seq<Tid>)
    requires WalkAnswer(c, tid, r)
    ensures !r.Ok? ==> LeadsTo(c, tid, path, r.tid)
    ensures !r.Ok? ==> if r.Cycle? then r.tid in path else r.Missing? && r.tid !in c.tensors
    ensures !r.Ok? ==> forall chain :: !WalkAnswer(c, tid, Ok(chain))
  {
    hide Reachable;
    path := [];
    if r.Missing? {
      path :| LeadsTo(c, tid, path, r.tid);
      DeadEnd(c, tid, path, r.tid);
    } else if r.Cycle? {
      path :| LeadsTo(c, tid, path, r.tid) && r.tid in path;
    }
  }

  /** What a walk has still to pass has a row and was not passed before. */
  lemma PassedLater(c: Catalog, p: seq<Tid>, u: seq<Tid>)
    requires IsPath(c, u) && Distinct(u) && |p| < |u| && p == u[..|p|]
    ensures u[|p|] in c.tensors && u[|p|] !in p
  {
    forall i | 0 <= i < |p| ensures p[i] != u[|p|] {
      assert p[i] == u[i];
    }
  }

  lemma {:induction false} PathsAgree(c: Catalog, tid: Tid, p: seq<Tid>, t: Tid, u: seq<Tid>, x: Tid)
    requires LeadsTo(c, tid, p, t) && LeadsTo(c, tid, u, x) && |p| <= |u|
    ensures p <= u && t == if |p| < |u| then u[|p|] else x
  {
    if p != [] {
      var n := |p| - 1;
      assert LeadsTo(c, tid, p[..n], p[n]);
      PathsAgree(c, tid, p[..n], p[n], u, x);
      assert p == p[..n] + [p[n]] && u[..n] == p[..n];
    }
  }

  lemma SameStop(c: Catalog, tid: Tid, p: seq<Tid>, r: Outcome<seq<Entry>>, u: seq<Tid>, q: Outcome<seq<Entry>>)
    requires (r.Cycle? || r.Missing?) && LeadsTo(c, tid, p, r.tid)
    requires (q.Cycle? || q.Missing?) && LeadsTo(c, tid, u, q.tid)
    requires if r.Cycle? then r.tid in p else r.tid !in c.tensors
    requires if q.Cycle? then q.tid in u else q.tid !in c.tensors
    requires |p| <= |u|
    ensures r == q
  {
    PathsAgree(c, tid, p, r.tid, u, q.tid);
    if |p| < |u| {
      PassedLater(c, p, u);
    }
  }

  /** So the walk has one answer only. */
  lemma WalkAnswerUnique(c: Catalog, tid: Tid, r: Outcome<seq<Entry>>, q: Outcome<seq<Entry>>)
    requires WalkAnswer(c, tid, r) && WalkAnswer(c, tid, q)
    ensures r == q
  {
    hide Reachable, IsPath, Distinct;
    var p := Stop(c, tid, r);
    var u := Stop(c, tid, q);
    if r.Ok? && q.Ok? {
      assert r.value == q.value;
    } else if !r.Ok? && !q.Ok? {
      if |p| <= |u| {
        SameStop(c, tid, p, r, u, q);
      } else {
        SameStop(c, tid, u, q, p, r);
      }
    }
  }

  // ---- depth by memoised recursion

  ghost predicate ClosedLinks(g: Links) {
    forall t | t in g && g[t].Some? :: g[t].value in g
  }

  ghost predicate Depths(g: Links, depth: map<Tid, nat>) {
    forall t | t in depth :: HasChain(g, t) && depth[t] == |Chain(g, t)| - 1
  }

  ghost predicate OnTheWay(g: Links, path: seq<Tid>, t: Tid) {
    && (forall k | 0 <= k < |path| :: path[k] in g)
    && (forall k | 0 <= k < |path| - 1 :: g[path[k]] == Some(path[k + 1]))
    && (path != [] ==> g[path[|path| - 1]] == Some(t))
  }

  lemma WayOn(g: Links, path: seq<Tid>, t: Tid)
    requires ClosedLinks(g) && OnTheWay(g, path, t) && t in g
    ensures t in SetOf(path) ==> !HasChain(g, t)
    ensures g[t].Some? ==> g[t].value in g
    ensures SetOf(path) <= g.Keys && SetOf(path + [t]) == SetOf(path) + {t}
    ensures g[t].Some? ==> OnTheWay(g, path + [t], g[t].value)
  {
    if t in path {
      BackOnPath(g, path, t);
    }
    SetOfSnoc(path, t);
  }

  lemma DepthOfRoot(g: Links, depth: map<Tid, nat>, t: Tid)
    requires Depths(g, depth) && t in g && g[t].None?
    ensures Depths(g, depth[t := 0])
  {
    RootChain(g, t);
  }

  lemma DepthOfDelta(g: Links, depth: map<Tid, nat>, t: Tid, b: Tid)
    requires Depths(g, depth) && t in g && g[t] == Some(b) && b in depth
    ensures Depths(g, depth[t := 1 + depth[b]])
  {
    ChildChain(g, t, b);
  }

  lemma NoChainAbove(g: Links, t: Tid)
    requires ClosedLinks(g) && t in g && g[t].Some? && !HasChain(g, g[t].value)
    ensures !HasChain(g, t)
  {
    if HasChain(g, t) {
      BaseChain(g, t);
    }
  }

  /** The recursion `d`: the number of deltas below `t`, or a tid met twice on the way down. */
  method Depth(g: Links, t: Tid, seen: set<Tid>, ghost path: seq<Tid>, depth0: map<Tid, nat>)
    returns (cycle: Option<Tid>, depth: map<Tid, nat>)
    requires ClosedLinks(g) && t in g && Depths(g, depth0)
    requires OnTheWay(g, path, t) && seen == SetOf(path)
    ensures cycle.Some? ==> !HasChain(g, t)
    ensures cycle.None? ==> Depths(g, depth) && t in depth && forall x | x in depth0 :: x in depth
    decreases |g.Keys - seen|
  {
    hide Depths, OnTheWay, HasChain, SetOf, ClosedLinks;
    depth := depth0;
    if t in depth {
      return None, depth;
    }
    WayOn(g, path, t);
    if t in seen {
      return Some(t), depth;
    }
    var b := g[t];
    if b.None? {
      DepthOfRoot(g, depth, t);
      return None, depth[t := 0];
    }
    MoreBlobs(g.Keys, seen, seen + {t});
    cycle, depth := Depth(g, b.value, seen + {t}, path + [t], depth0);
    if cycle.Some? {
      NoChainAbove(g, t);
      return;
    }
    DepthOfDelta(g, depth, t, b.value);
    depth := depth[t := 1 + depth[b.value]];
  }

  lemma NoDepths(g: Links)
    ensures Depths(g, map[])
  {
  }

  lemma DepthsAcyclic(g: Links, depth: map<Tid, nat>)
    requires Depths(g, depth) && depth.Keys >= g.Keys
    ensures Acyclic(g)
  {
  }

  /** The depths of all tids, or one whose chain has no end. */
  method AllDepths(g: Links, tids: seq<Tid>) returns (cycle: Option<Tid>, depth: map<Tid, nat>)
    requires ClosedLinks(g) && SetOf(tids) == g.Keys
    ensures cycle.None? <==> Acyclic(g)
    ensures cycle.Some? ==> cycle.value in g && !HasChain(g, cycle.value)
    ensures cycle.None? ==> Depths(g, depth) && depth.Keys >= g.Keys
  {
    hide Depths;
    depth := map[];
    assert Depths(g, map[]) by { NoDepths(g); }
    for i := 0 to |tids|
      invariant Depths(g, depth) && forall k | 0 <= k < i :: tids[k] in depth
    {
      assert tids[i] in SetOf(tids);
      var found;
      found, depth := Depth(g, tids[i], {}, [], depth);
      if found.Some? {
        return Some(tids[i]), depth;
      }
    }
    forall t | t in g ensures t in depth {
      assert t in SetOf(tids);
    }
    DepthsAcyclic(g, depth);
    cycle := None;
  }

  /** Inside a closed part of the catalog, chains are those of the whole catalog. */
  lemma {:induction false} ChainInPart(c: Catalog, blobs: map<Tid, Entry>, q: seq<Tid>)
    requires IsBlobs(c, blobs) && Closed(c, blobs.Keys) && q != [] && q[0] in blobs
    ensures IsChain(LinksOf(blobs), q) <==> IsChain(AllLinks(c), q)
  {
    var g, all := LinksOf(blobs), AllLinks(c);
    assert g[q[0]] == all[q[0]] == BaseOf(c, q[0]);
    if |q| > 1 && g[q[0]] == Some(q[1]) {
      ChainInPart(c, blobs, q[1..]);
    }
  }

  lemma ChainsInPart(c: Catalog, blobs: map<Tid, Entry>, t: Tid)
    requires IsBlobs(c, blobs) && Closed(c, blobs.Keys) && t in blobs
    ensures HasChain(LinksOf(blobs), t) <==> HasChain(AllLinks(c), t)
    ensures HasChain(AllLinks(c), t) ==> Chain(LinksOf(blobs), t) == Chain(AllLinks(c), t)
  {
    var g, all := LinksOf(blobs), AllLinks(c);
    if HasChain(g, t) {
      ChainInPart(c, blobs, Chain(g, t));
    }
    if HasChain(all, t) {
      ChainInPart(c, blobs, Chain(all, t));
      ChainUnique(g, Chain(g, t), Chain(all, t));
    }
  }

  // ---- the manifest

  ghost function ParamTids(params: seq<(string, Tid)>): set<Tid> {
    set p | p in params :: p.1
  }

  /** A manifest's closure has one entry per tid, in increasing order of tid; it is the least
      set that contains the parameters' tids and is closed under base links; depths count
      the deltas of the chains. */
  ghost predicate Describes(c: Catalog, man: Manifest) {
    && IsClosure(c, ParamTids(man.params), ByTid(man.closure).Keys)
    && IsBlobs(c, ByTid(man.closure))
    && (forall i, j | 0 <= i < j < |man.closure| :: man.closure[i].tid < man.closure[j].tid)
    && Acyclic(LinksOf(ByTid(man.closure)))
    && man.depth.Keys == ByTid(man.closure).Keys
    && (forall t | t in man.depth :: HasChain(AllLinks(c), t) && man.depth[t] == |Chain(AllLinks(c), t)| - 1)
  }

  /** The rows of the first `i` tids. */
  ghost predicate Listing(blobs: map<Tid, Entry>, tids: seq<Tid>, i: nat, closure: seq<Entry>) {
    && i == |closure| <= |tids|
    && (forall k | 0 <= k < i :: closure[k].tid == tids[k])
    && ByTid(closure).Keys == SetOf(tids[..i])
    && (forall t | t in ByTid(closure) :: t in blobs && ByTid(closure)[t] == blobs[t])
  }

  lemma StartListing(blobs: map<Tid, Entry>, tids: seq<Tid>)
    ensures Listing(blobs, tids, 0, [])
  {
    assert ByTid([]) == map[] && tids[..0] == [] && SetOf(tids[..0]) == {};
  }

  lemma ListOne(blobs: map<Tid, Entry>, tids: seq<Tid>, i: nat, closure: seq<Entry>)
    requires i < |tids| && SetOf(tids) == blobs.Keys && (forall t | t in blobs :: blobs[t].tid == t)
    requires Listing(blobs, tids, i, closure)
    ensures tids[i] in blobs && Listing(blobs, tids, i + 1, closure + [blobs[tids[i]]])
  {
    hide ByTid;
    assert tids[i] in SetOf(tids);
    ByTidSnoc(closure, blobs[tids[i]]);
    assert tids[..i + 1] == tids[..i] + [tids[i]];
    SetOfSnoc(tids[..i], tids[i]);
  }

  lemma ListedThrough(blobs: map<Tid, Entry>, tids: seq<Tid>, closure: seq<Entry>)
    requires Listing(blobs, tids, |tids|, closure) && SetOf(tids) == blobs.Keys && Increasing(tids)
    ensures ByTid(closure) == blobs
    ensures forall i, j | 0 <= i < j < |closure| :: closure[i].tid < closure[j].tid
  {
    hide ByTid;
    assert tids[..|tids|] == tids;
  }

  method Listed(blobs: map<Tid, Entry>) returns (closure: seq<Entry>)
    requires forall t | t in blobs :: blobs[t].tid == t
    ensures ByTid(closure) == blobs
    ensures forall i, j | 0 <= i < j < |closure| :: closure[i].tid < closure[j].tid
  {
    hide Listing;
    var tids := Sorted(blobs.Keys);
    closure := [];
    StartListing(blobs, tids);
    for i := 0 to |tids|
      invariant Listing(blobs, tids, i, closure)
    {
      ListOne(blobs, tids, i, closure);
      closure := closure + [blobs[tids[i]]];
    }
    ListedThrough(blobs, tids, closure);
  }

  lemma BlobLinks(c: Catalog, blobs: map<Tid, Entry>)
    requires IsBlobs(c, blobs) && Closed(c, blobs.Keys)
    ensures ClosedLinks(LinksOf(blobs)) && forall t | t in blobs :: blobs[t].tid == t
  {
  }

  lemma ListedRows(c: Catalog, closure: seq<Entry>)
    requires IsBlobs(c, ByTid(closure))
    requires forall i, j | 0 <= i < j < |closure| :: closure[i].tid < closure[j].tid
    ensures forall e | e in closure :: IsRow(c, e)
  {
    hide IsRow;
    forall e | e in closure ensures IsRow(c, e) {
      assert e.tid in ByTid(closure);
      var i :| 0 <= i < |closure| && closure[i] == e;
      var j :| 0 <= j < |closure| && closure[j] == ByTid(closure)[e.tid];
      RowsAreRead(c, e.tid);
    }
  }

  /** `build_manifest`. It succeeds exactly for a known model whose reachable tensors all have
      rows and end their chains. */
  method Build(c: Catalog, model: string, chunkSize: nat) returns (r: Outcome<Manifest>, ghost rounds: seq<set<Tid>>)
    requires chunkSize > 0
    ensures r.UnknownModel? <==> model !in c.mappings || c.mappings[model] == []
    ensures r.Ok? ==> r.value.params == c.mappings[model] && Describes(c, r.value)
    ensures r.Ok? ==> forall e | e in r.value.closure :: IsRow(c, e)
    ensures r.Ok? ==>
      var start := ParamTids(c.mappings[model]);
      InRounds(c, start, rounds) && Seen(rounds) == ByTid(r.value.closure).Keys && NextRound(c, start, rounds) == {}
    ensures r.Missing? ==> r.tid !in c.tensors && Reachable(c, ParamTids(c.mappings[model]), r.tid)
    ensures r.Cycle? ==>
      Reachable(c, ParamTids(c.mappings[model]), r.tid) && r.tid in c.tensors && !HasChain(AllLinks(c), r.tid)
  {
    rounds := [];
    if model !in c.mappings || c.mappings[model] == [] {
      return UnknownModel, rounds;
    }
    var mapping := c.mappings[model];
    var start := set p | p in mapping :: p.1;
    var blobs;
    blobs, rounds := Fixpoint(c, start, chunkSize);
    if blobs.Missing? {
      return Missing(blobs.tid), rounds;
    }
    var tids := Sorted(blobs.value.Keys);
    BlobLinks(c, blobs.value);
    var cycle, depth := AllDepths(LinksOf(blobs.value), tids);
    if cycle.Some? {
      ChainsInPart(c, blobs.value, cycle.value);
      return Cycle(cycle.value), rounds;
    }
    var closure := Listed(blobs.value);
    var depths := map t | t in blobs.value :: depth[t];
    forall t | t in depths ensures HasChain(AllLinks(c), t) && depths[t] == |Chain(AllLinks(c), t)| - 1 {
      ChainsInPart(c, blobs.value, t);
    }
    r := Ok(Manifest(mapping, closure, depths));
    ListedRows(c, closure);
  }

  /** The three failures exclude success, so each is raised exactly when its cause is there. */
  lemma FailuresExclude(c: Catalog, man: Manifest, t: Tid)
    requires Describes(c, man) && Reachable(c, ParamTids(man.params), t)
    ensures t in c.tensors && HasChain(AllLinks(c), t)
  {
    assert Covers(c, ParamTids(man.params), ByTid(man.closure).Keys);
  }

  lemma ReachableThrough(c: Catalog, start: set<Tid>, t: Tid, u: Tid)
    requires Reachable(c, start, t) && Reachable(c, {t}, u)
    ensures Reachable(c, start, u)
  {
    forall s: set<Tid> | Covers(c, start, s) ensures u in s {
      assert Covers(c, {t}, s);
    }
  }

  /** For every tid of a manifest the server's walk answers, and the manifest's depth is the
      length of the answer less one. */
  lemma DepthAgreesWithWalk(c: Catalog, man: Manifest, t: Tid, r: Outcome<seq<Entry>>)
    requires Describes(c, man) && t in man.depth && WalkAnswer(c, t, r)
    ensures r.Ok? && man.depth[t] == |r.value| - 1
  {
    assert t in ByTid(man.closure).Keys;
    assert Reachable(c, ParamTids(man.params), t);
    FailuresExclude(c, man, t);
    if r.Missing? {
      ReachableThrough(c, ParamTids(man.params), t, r.tid);
      FailuresExclude(c, man, r.tid);
    }
  }
}
