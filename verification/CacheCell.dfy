/** The simulator's accounting of one cell: what every request costs the origin, under the
    reconstruction-aware cache. Byte counts stay in bytes; the simulator divides by a constant. */
module CacheCell {
  import opened Sequences
  import opened LazyHeap
  import opened ReconCache

  /** The tally over the live pulls. `rawMisses` is kept for the proof of the request balance
      only: the simulator does not report it. */
  datatype Tally = Tally(
    pulls: nat, req: nat, hit: nat, rawMisses: nat, reqBytes: real, hitBytes: real,
    deltaOnly: real, deltaWithBase: real, baseBytes: real, rawBytes: real, decode: real,
    baseLogical: nat, basePhysical: nat)

  /** What the whole cell drew from the origin, as the report sums it. */
  ghost function Origin(m: Tally): real {
    m.deltaOnly + m.deltaWithBase + m.baseBytes + m.rawBytes
  }

  ghost function SumOf(s: seq<real>): real {
    if s == [] then 0.0 else SumOf(s[..|s| - 1]) + s[|s| - 1]
  }

  /** Bytes of the bases fetched during one pull, each counted once. */
  ghost function SizeOf(bases: set<nat>, l: nat -> real): real {
    if bases == {} then 0.0
    else
      var b :| b in bases;
      l(b) + SizeOf(bases - {b}, l)
  }

  lemma {:induction false} SizeOfWithout(bases: set<nat>, l: nat -> real, b: nat)
    requires b in bases
    ensures SizeOf(bases, l) == l(b) + SizeOf(bases - {b}, l)
    decreases |bases|
  {
    var e :| e in bases && SizeOf(bases, l) == l(e) + SizeOf(bases - {e}, l);
    if e != b {
      SizeOfWithout(bases - {e}, l, b);
      SizeOfWithout(bases - {b}, l, e);
      assert bases - {e} - {b} == bases - {b} - {e};
    }
  }

  lemma SizeOfWith(bases: set<nat>, l: nat -> real, b: nat)
    requires b !in bases
    ensures SizeOf(bases + {b}, l) == SizeOf(bases, l) + l(b)
  {
    SizeOfWithout(bases + {b}, l, b);
    assert bases + {b} - {b} == bases;
  }

  /** A profile as the simulator builds it: sizes are not negative, no tensor is its own base. */
  ghost predicate Sane(p: Profile) {
    forall i :: p.l(i) >= 0.0 && p.base(i) >= -1 && p.base(i) != i as int
  }

  // ---- what a request means for the tally

  ghost predicate DeltaMiss(p: Profile, have: set<nat>, i: nat) {
    i !in have && p.base(i) >= 0
  }

  /** A miss whose base is neither resident nor fetched earlier in the pull. */
  ghost predicate NeedsBase(p: Profile, have: set<nat>, fetched: set<nat>, i: nat) {
    DeltaMiss(p, have, i) && (p.base(i) as nat) !in have && (p.base(i) as nat) !in fetched
  }

  ghost function NewBase(p: Profile, have: set<nat>, fetched: set<nat>, i: nat): set<nat> {
    if NeedsBase(p, have, fetched, i) then {p.base(i) as nat} else {}
  }

  const NOTHING: Tally := Tally(0, 0, 0, 0, 0.0, 0.0, 0.0, 0.0, 0.0, 0.0, 0.0, 0, 0)

  /** A request for `i` with `have` resident: a hit is free, a raw miss costs the tensor, a
      delta miss the delta and a decode, and the base as well if it is not at hand. */
  ghost function Entry(p: Profile, seconds: nat -> real, have: set<nat>, fetched: set<nat>, i: nat): Tally {
    var none := NOTHING.(req := 1, reqBytes := p.l(i));
    if i in have then none.(hit := 1, hitBytes := p.l(i))
    else if !DeltaMiss(p, have, i) then none.(rawMisses := 1, rawBytes := p.l(i))
    else
      var missed := none.(decode := seconds(i), baseLogical := 1);
      if NeedsBase(p, have, fetched, i)
        then missed.(deltaWithBase := p.d(i), baseBytes := p.l(p.base(i)), basePhysical := 1)
      else missed.(deltaOnly := p.d(i))
  }

  ghost function Plus(a: Tally, b: Tally): Tally {
    Tally(a.pulls + b.pulls, a.req + b.req, a.hit + b.hit, a.rawMisses + b.rawMisses, a.reqBytes + b.reqBytes,
          a.hitBytes + b.hitBytes, a.deltaOnly + b.deltaOnly, a.deltaWithBase + b.deltaWithBase,
            a.baseBytes + b.baseBytes,
          a.rawBytes + b.rawBytes, a.decode + b.decode, a.baseLogical + b.baseLogical, a.basePhysical + b.basePhysical)
  }

  // ---- what a request does to the cache

  datatype Snapshot = Snapshot(res: map<nat, real>, freq: map<nat, real>, bfreq: map<nat, real>)

  ghost function Snap(cache: Recon): Snapshot
    reads cache
  {
    Snapshot(cache.res, cache.freq, cache.bfreq)
  }

  ghost function Counted(p: Profile, s: Snapshot, i: nat): Snapshot {
    s.(freq := Bumped(s.freq, i), bfreq := if p.base(i) >= 0 then Bumped(s.bfreq, p.base(i)) else s.bfreq)
  }

  ghost predicate AdmittedOver(p: Profile, cap: real, s: Snapshot, i: nat, victims: seq<nat>, r: Snapshot) {
    && r.res == Left(s.res, victims)[i := p.l(i)]
    && EvictedInTurn(p, s.freq, s.bfreq, s.res.Keys, victims)
    && NoneTooMany(s.res, victims, cap, p.l(i))
  }

  /** `i` is admitted after exactly the evictions it needs, each of a nearly least density. */
  ghost predicate Admitted(p: Profile, cap: real, s: Snapshot, i: nat, r: Snapshot) {
    && r.freq == s.freq && r.bfreq == s.bfreq
    && if p.l(i) > cap then r.res == s.res
       else exists victims :: AdmittedOver(p, cap, s, i, victims, r)
  }

  /** The cache before and after a request. */
  ghost predicate Moved(p: Profile, cap: real, s: Snapshot, fetched: set<nat>, i: nat, r: Snapshot) {
    if i in s.res then r == Counted(p, s, i)
    else if NeedsBase(p, s.res.Keys, fetched, i) then
      exists mid :: Admitted(p, cap, s, p.base(i), mid) && Admitted(p, cap, Counted(p, mid, i), i, r)
    else if DeltaMiss(p, s.res.Keys, i) && (p.base(i) as nat) in s.res then
      Admitted(p, cap, Counted(p, Counted(p, s, p.base(i)), i), i, r)
    else Admitted(p, cap, Counted(p, s, i), i, r)
  }

  /** What an admission changes: the item gets in if it can fit at all, and nothing else does. */
  lemma AdmittedMeans(p: Profile, cap: real, s: Snapshot, i: nat, r: Snapshot)
    requires Admitted(p, cap, s, i, r)
    ensures r.freq == s.freq && r.bfreq == s.bfreq
    ensures p.l(i) <= cap ==> i in r.res && r.res[i] == p.l(i)
    ensures p.l(i) > cap ==> r.res == s.res
    ensures forall j | j in r.res && j != i :: j in s.res && r.res[j] == s.res[j]
  {
    hide EvictedInTurn, NoneTooMany;
  }

  /** Accesses counted for `i`: one more, after a thousandth of the old ones is let go. */
  ghost predicate OneMoreAccess(was: map<nat, real>, now: map<nat, real>, i: nat) {
    && Count(now, i) == Count(was, i) * 0.999 + 1.0
    && forall j | j != i :: Count(now, j) == Count(was, j)
  }

  lemma CountedMeans(p: Profile, s: Snapshot, i: nat)
    ensures Counted(p, s, i).res == s.res && OneMoreAccess(s.freq, Counted(p, s, i).freq, i)
    ensures p.base(i) >= 0 ==> OneMoreAccess(s.bfreq, Counted(p, s, i).bfreq, p.base(i))
    ensures p.base(i) < 0 ==> Counted(p, s, i).bfreq == s.bfreq
  {
  }

  /** What a request changes: a hit only its counts; a miss brings in the tensor and a base that
      had to be fetched, as far as they can fit, and nothing else; what was asked for is counted,
      and so is a resident base that it was decoded against. */
  lemma MovedMeans(p: Profile, cap: real, s: Snapshot, fetched: set<nat>, i: nat, r: Snapshot)
    requires Sane(p) && Moved(p, cap, s, fetched, i, r)
    ensures i in s.res ==> r.res == s.res
    ensures i !in s.res && p.l(i) <= cap ==> i in r.res && r.res[i] == p.l(i)
    ensures i !in s.res && p.l(i) > cap ==> i !in r.res
    ensures forall j | j in r.res && j != i :: j in s.res || (NeedsBase(p, s.res.Keys, fetched, i) && p.base(i) == j)
    ensures Count(r.freq, i) == Count(s.freq, i) * 0.999 + 1.0
    ensures forall j | j != i ::
      Count(r.freq, j) == if i !in s.res && p.base(i) == j &&
        j in s.res then Count(s.freq, j) * 0.999 + 1.0 else Count(s.freq, j)
  {
    hide Admitted, Counted;
    if i in s.res {
      CountedMeans(p, s, i);
    } else if NeedsBase(p, s.res.Keys, fetched, i) {
      var mid :| Admitted(p, cap, s, p.base(i), mid) && Admitted(p, cap, Counted(p, mid, i), i, r);
      AdmittedMeans(p, cap, s, p.base(i), mid);
      CountedMeans(p, mid, i);
      AdmittedMeans(p, cap, Counted(p, mid, i), i, r);
    } else if DeltaMiss(p, s.res.Keys, i) && (p.base(i) as nat) in s.res {
      var b := Counted(p, s, p.base(i));
      CountedMeans(p, s, p.base(i));
      CountedMeans(p, b, i);
      AdmittedMeans(p, cap, Counted(p, b, i), i, r);
    } else {
      CountedMeans(p, s, i);
      AdmittedMeans(p, cap, Counted(p, s, i), i, r);
    }
  }

  method Serve(cache: Recon, i: nat)
    requires cache.Valid() && i !in cache.res && cache.prof.l(i) >= 0.0
    modifies cache
    ensures cache.Valid()
    ensures Admitted(cache.prof, cache.cap, Counted(cache.prof, old(Snap(cache)), i), i, Snap(cache))
  {
    hide EvictedInTurn, NoneTooMany, Left, Bumped;
    ghost var s := Counted(cache.prof, Snap(cache), i);
    ghost var victims := cache.OnServe(i, cache.prof.l(i));
    assert cache.prof.l(i) <= cache.cap ==> AdmittedOver(cache.prof, cache.cap, s, i, victims, Snap(cache));
  }

  method FetchBase(cache: Recon, b: nat, i: nat)
    requires cache.Valid() && b !in cache.res && i !in cache.res && b != i && cache.prof.l(b) >= 0.0
    modifies cache
    ensures cache.Valid() && i !in cache.res
    ensures Admitted(cache.prof, cache.cap, old(Snap(cache)), b, Snap(cache))
  {
    hide EvictedInTurn, NoneTooMany;
    ghost var s := Snap(cache);
    ghost var victims := cache.OnBaseFetch(b, cache.prof.l(b));
    assert cache.prof.l(b) <= cache.cap ==> AdmittedOver(cache.prof, cache.cap, s, b, victims, Snap(cache));
  }

  /** One request of a pull. */
  method Request(cache: Recon, seconds: nat -> real, i: nat, live: bool, m0: Tally, origin0: real, decode0: real,
                 fetched0: set<nat>)
    returns (m: Tally, origin: real, decode: real, fetched: set<nat>)
    requires cache.Valid() && Sane(cache.prof)
    modifies cache
    ensures cache.Valid()
    ensures Moved(cache.prof, cache.cap, old(Snap(cache)), fetched0, i, Snap(cache))
    ensures fetched == fetched0 + NewBase(cache.prof, old(cache.res).Keys, fetched0, i)
    ensures live ==>
      var e := Entry(cache.prof, seconds, old(cache.res).Keys, fetched0, i);
      m == Plus(m0, e) && origin == origin0 + Origin(e) && decode == decode0 + e.decode
    ensures !live ==> m == m0 && origin == origin0 && decode == decode0
  {
    hide EvictedInTurn, NoneTooMany, Left, Bumped, Admitted, AdmittedOver, SizeOf;
    m, origin, decode, fetched := m0, origin0, decode0, fetched0;
    var p := cache.prof;
    if live {
      m := m.(req := m.req + 1, reqBytes := m.reqBytes + p.l(i));
    }
    if i in cache.res {
      cache.Touch(i);
      if live {
        m := m.(hit := m.hit + 1, hitBytes := m.hitBytes + p.l(i));
      }
      return;
    }
    if p.base(i) == -1 {
      if live {
        m := m.(rawBytes := m.rawBytes + p.l(i), rawMisses := m.rawMisses + 1);
        origin := origin + p.l(i);
      }
      Serve(cache, i);
      return;
    }
    var b: nat := p.base(i);
    var baseResident := b in cache.res || b in fetched;
    if live {
      m := m.(decode := m.decode + seconds(i), baseLogical := m.baseLogical + 1);
      decode, origin := decode + seconds(i), origin + p.d(i);
      if baseResident {
        m := m.(deltaOnly := m.deltaOnly + p.d(i));
      } else {
        m := m.(deltaWithBase := m.deltaWithBase + p.d(i));
      }
    }
    if b in cache.res {
      cache.Touch(b);
    } else if b !in fetched {
      fetched := fetched + {b};
      if live {
        m := m.(baseBytes := m.baseBytes + p.l(b), basePhysical := m.basePhysical + 1);
        origin := origin + p.l(b);
      }
      FetchBase(cache, b, i);
    }
    Serve(cache, i);
  }

  // ---- what a pull means

  /** A request and the cache it found. */
  datatype Visit = Visit(i: nat, before: Snapshot)

  ghost function Ids(log: seq<Visit>): (s: seq<nat>)
    ensures |s| == |log|
  {
    seq(|log|, k requires 0 <= k < |log| => log[k].i)
  }

  /** The bases a pull has fetched. */
  ghost function Fetched(p: Profile, log: seq<Visit>): set<nat> {
    if log == [] then {}
    else
      var v, was := log[|log| - 1], Fetched(p, log[..|log| - 1]);
      was + NewBase(p, v.before.res.Keys, was, v.i)
  }

  /** The sum of the entries of a pull's requests. */
  ghost function Booked(p: Profile, seconds: nat -> real, log: seq<Visit>): Tally {
    if log == [] then NOTHING
    else
      var v, was := log[|log| - 1], log[..|log| - 1];
      Plus(Booked(p, seconds, was), Entry(p, seconds, v.before.res.Keys, Fetched(p, was), v.i))
  }

  /** Every request of the pull found the cache as the one before left it. */
  ghost predicate Logged(p: Profile, cap: real, start: Snapshot, log: seq<Visit>, end: Snapshot) {
    if log == [] then start == end
    else
      var v, was := log[|log| - 1], log[..|log| - 1];
      Logged(p, cap, start, was, v.before) && Moved(p, cap, v.before, Fetched(p, was), v.i, end)
  }

  lemma LogSnoc(p: Profile, cap: real, seconds: nat -> real, start: Snapshot, log: seq<Visit>, v: Visit, end: Snapshot)
    requires Logged(p, cap, start, log, v.before) && Moved(p, cap, v.before, Fetched(p, log), v.i, end)
    ensures var r := log + [v];
      && Logged(p, cap, start, r, end)
      && Ids(r) == Ids(log) + [v.i]
      && Fetched(p, r) == Fetched(p, log) + NewBase(p, v.before.res.Keys, Fetched(p, log), v.i)
      && Booked(p, seconds, r)
        == Plus(Booked(p, seconds, log), Entry(p, seconds, v.before.res.Keys, Fetched(p, log), v.i))
  {
    assert (log + [v])[..|log|] == log;
    hide Moved, Plus, Entry, NewBase;
  }

  /** Every request is a hit, a raw miss or a delta miss; no more bases are fetched than deltas
      missed. */
  ghost predicate Balanced(m: Tally) {
    && m.req == m.hit + m.rawMisses + m.baseLogical
    && m.basePhysical <= m.baseLogical
  }

  lemma EntryBalanced(p: Profile, seconds: nat -> real, have: set<nat>, fetched: set<nat>, i: nat)
    ensures var e := Entry(p, seconds, have, fetched, i);
      && Balanced(e) && e.pulls == 0 && e.req == 1 && e.reqBytes == p.l(i)
      && e.basePhysical == |fetched + NewBase(p, have, fetched, i)| - |fetched|
      && e.baseBytes == SizeOf(fetched + NewBase(p, have, fetched, i), p.l) - SizeOf(fetched, p.l)
  {
    if NeedsBase(p, have, fetched, i) {
      SizeOfWith(fetched, p.l, p.base(i));
    } else {
      assert fetched + {} == fetched;
    }
    hide SizeOf;
  }

  lemma PlusBalanced(a: Tally, b: Tally)
    ensures var r := Plus(a, b);
      && (Balanced(a) && Balanced(b) ==> Balanced(r)) && Origin(r) == Origin(a) + Origin(b)
      && r.pulls == a.pulls + b.pulls && r.req == a.req + b.req && r.reqBytes == a.reqBytes + b.reqBytes
      && r.basePhysical == a.basePhysical + b.basePhysical && r.baseBytes == a.baseBytes + b.baseBytes
      && r.decode == a.decode + b.decode
  {
  }

  lemma PlusOrder(m: Tally, a: Tally, b: Tally)
    ensures Plus(Plus(m, a), b) == Plus(m, Plus(a, b))
    ensures Origin(Plus(a, b)) == Origin(a) + Origin(b) && Plus(a, b).decode == a.decode + b.decode
  {
  }

  lemma PullsApart(m: Tally, n: nat)
    ensures var r := m.(pulls := n);
      && (Balanced(r) <==> Balanced(m)) && Origin(r) == Origin(m)
  {
  }

  lemma NothingBalanced()
    ensures Balanced(NOTHING) && Origin(NOTHING) == 0.0
  {
  }

  ghost function Sizes(s: seq<nat>, l: nat -> real): real {
    if s == [] then 0.0 else Sizes(s[..|s| - 1], l) + l(s[|s| - 1])
  }

  /** A pull is balanced, counts each of its requests, and pays for every base it fetches
      exactly once. */
  lemma {:induction false} PullBalanced(p: Profile, seconds: nat -> real, log: seq<Visit>)
    ensures var m := Booked(p, seconds, log);
      && Balanced(m) && m.pulls == 0
      && m.req == |log| && m.reqBytes == Sizes(Ids(log), p.l)
      && m.basePhysical == |Fetched(p, log)| && m.baseBytes == SizeOf(Fetched(p, log), p.l)
  {
    hide Entry, NewBase, NeedsBase, Plus, Balanced;
    NothingBalanced();
    if log != [] {
      hide SizeOf;
      var v, was := log[|log| - 1], log[..|log| - 1];
      PullBalanced(p, seconds, was);
      assert Ids(log)[..|log| - 1] == Ids(was) && Ids(log)[|log| - 1] == v.i;
      EntryBalanced(p, seconds, v.before.res.Keys, Fetched(p, was), v.i);
      PlusBalanced(Booked(p, seconds, was), Entry(p, seconds, v.before.res.Keys, Fetched(p, was), v.i));
    }
  }

  // ---- what the tally is made of, by the cache each request found

  /** The sum of `f` over the requests of a pull that satisfy `sel`, given those before them. */
  ghost function SumWhere(log: seq<Visit>, sel: (seq<Visit>, Visit) -> bool, f: nat -> real): real {
    if log == [] then 0.0
    else
      var v, was := log[|log| - 1], log[..|log| - 1];
      SumWhere(was, sel, f) + if sel(was, v) then f(v.i) else 0.0
  }

  ghost function CountWhere(log: seq<Visit>, sel: (seq<Visit>, Visit) -> bool): nat {
    if log == [] then 0
    else
      var v, was := log[|log| - 1], log[..|log| - 1];
      CountWhere(was, sel) + if sel(was, v) then 1 else 0
  }

  ghost function Hits(): (seq<Visit>, Visit) -> bool {
    (was: seq<Visit>, v: Visit) => v.i in v.before.res
  }

  ghost function RawMisses(p: Profile): (seq<Visit>, Visit) -> bool {
    (was: seq<Visit>, v: Visit) => v.i !in v.before.res && p.base(v.i) < 0
  }

  /** Delta misses whose base is resident or was fetched earlier in the pull. */
  ghost function CheapMisses(p: Profile): (seq<Visit>, Visit) -> bool {
    (was: seq<Visit>, v: Visit) => v.i !in v.before.res && p.base(v.i) >= 0
      && ((p.base(v.i) as nat) in v.before.res || (p.base(v.i) as nat) in Fetched(p, was))
  }

  /** Delta misses that fetch their base. */
  ghost function DearMisses(p: Profile): (seq<Visit>, Visit) -> bool {
    (was: seq<Visit>, v: Visit) => v.i !in v.before.res && p.base(v.i) >= 0
      && (p.base(v.i) as nat) !in v.before.res && (p.base(v.i) as nat) !in Fetched(p, was)
  }

  /** A base has been fetched in the pull exactly when a delta against it missed while the base
      was not resident. */
  lemma {:induction false} FetchedMeans(p: Profile, log: seq<Visit>, b: nat)
    ensures b in Fetched(p, log) <==> exists k | 0 <= k < |log| ::
      log[k].i !in log[k].before.res && p.base(log[k].i) == b && b !in log[k].before.res
  {
    if log != [] {
      var n := |log| - 1;
      FetchedMeans(p, log[..n], b);
      if k :| 0 <= k < |log| && log[k].i !in log[k].before.res && p.base(log[k].i) == b && b !in log[k].before.res {
        assert k < n ==> log[..n][k] == log[k];
      }
    }
  }

  /** The bytes of the base of a delta. */
  ghost function BaseSize(p: Profile): nat -> real {
    (i: nat) => if p.base(i) >= 0 then p.l(p.base(i)) else 0.0
  }

  /** What each kind of request costs: nothing for hits, the tensor for raw misses, delta and
      decode for delta misses, and the base for those that fetch it. */
  ghost predicate Costs(p: Profile, seconds: nat -> real, log: seq<Visit>, m: Tally) {
    && m.hit == CountWhere(log, Hits()) && m.hitBytes == SumWhere(log, Hits(), p.l)
    && m.rawMisses == CountWhere(log, RawMisses(p)) && m.rawBytes == SumWhere(log, RawMisses(p), p.l)
    && m.deltaOnly == SumWhere(log, CheapMisses(p), p.d)
    && m.deltaWithBase == SumWhere(log, DearMisses(p), p.d)
    && m.baseLogical == CountWhere(log, CheapMisses(p)) + CountWhere(log, DearMisses(p))
    && m.basePhysical == CountWhere(log, DearMisses(p))
    && m.decode == SumWhere(log, CheapMisses(p), seconds) + SumWhere(log, DearMisses(p), seconds)
    && m.baseBytes == SumWhere(log, DearMisses(p), BaseSize(p))
  }

  /** The classes of a request, each with what is added for it. */
  lemma EntryCosts(p: Profile, seconds: nat -> real, was: seq<Visit>, v: Visit)
    ensures var e := Entry(p, seconds, v.before.res.Keys, Fetched(p, was), v.i);
      var hit, raw, cheap, dear := Hits()(was, v), RawMisses(p)(was, v), CheapMisses(p)(was, v), DearMisses(p)(was, v);
      && e.hit == (if hit then 1 else 0) && e.hitBytes == (if hit then p.l(v.i) else 0.0)
      && e.rawMisses == (if raw then 1 else 0) && e.rawBytes == (if raw then p.l(v.i) else 0.0)
      && e.deltaOnly == (if cheap then p.d(v.i) else 0.0) && e.deltaWithBase == (if dear then p.d(v.i) else 0.0)
      && e.baseLogical == (if cheap then 1 else 0) + (if dear then 1 else 0)
      && e.basePhysical == (if dear then 1 else 0)
      && e.decode == (if cheap then seconds(v.i) else 0.0) + (if dear then seconds(v.i) else 0.0)
      && e.baseBytes == (if dear then BaseSize(p)(v.i) else 0.0)
  {
    hide Fetched;
  }

  lemma {:induction false} PullCosts(p: Profile, seconds: nat -> real, log: seq<Visit>)
    ensures Costs(p, seconds, log, Booked(p, seconds, log))
  {
    if log != [] {
      var v, was := log[|log| - 1], log[..|log| - 1];
      PullCosts(p, seconds, was);
      EntryCosts(p, seconds, was, v);
      hide Entry, Hits, RawMisses, CheapMisses, DearMisses, BaseSize, Fetched;
    }
  }

  // ---- the whole trace

  /** `SumWhere` and `CountWhere` over all pulls. */
  ghost function SumAll(logs: seq<seq<Visit>>, sel: (seq<Visit>, Visit) -> bool, f: nat -> real): real {
    if logs == [] then 0.0 else SumAll(logs[..|logs| - 1], sel, f) + SumWhere(logs[|logs| - 1], sel, f)
  }

  ghost function CountAll(logs: seq<seq<Visit>>, sel: (seq<Visit>, Visit) -> bool): nat {
    if logs == [] then 0 else CountAll(logs[..|logs| - 1], sel) + CountWhere(logs[|logs| - 1], sel)
  }

  /** What the report is made of. The origin gives the raw tensors missed, the deltas missed and
      the bases fetched for them. */
  ghost predicate ReportCosts(p: Profile, seconds: nat -> real, logs: seq<seq<Visit>>, m: Tally) {
    && m.hit == CountAll(logs, Hits()) && m.hitBytes == SumAll(logs, Hits(), p.l)
    && m.rawMisses == CountAll(logs, RawMisses(p)) && m.rawBytes == SumAll(logs, RawMisses(p), p.l)
    && m.deltaOnly == SumAll(logs, CheapMisses(p), p.d)
    && m.deltaWithBase == SumAll(logs, DearMisses(p), p.d)
    && m.baseLogical == CountAll(logs, CheapMisses(p)) + CountAll(logs, DearMisses(p))
    && m.basePhysical == CountAll(logs, DearMisses(p))
    && m.decode == SumAll(logs, CheapMisses(p), seconds) + SumAll(logs, DearMisses(p), seconds)
    && m.baseBytes == SumAll(logs, DearMisses(p), BaseSize(p))
    && m.deltaOnly + m.deltaWithBase + m.baseBytes + m.rawBytes
      == SumAll(logs, RawMisses(p), p.l) + SumAll(logs, CheapMisses(p), p.d) + SumAll(logs, DearMisses(p), p.d)
        + SumAll(logs, DearMisses(p), BaseSize(p))
  }

  ghost function BookedAll(p: Profile, seconds: nat -> real, logs: seq<seq<Visit>>): Tally {
    if logs == [] then NOTHING
    else Plus(BookedAll(p, seconds, logs[..|logs| - 1]), Booked(p, seconds, logs[|logs| - 1])).(pulls := |logs|)
  }

  lemma {:induction false} AllCosts(p: Profile, seconds: nat -> real, logs: seq<seq<Visit>>)
    ensures ReportCosts(p, seconds, logs, BookedAll(p, seconds, logs))
  {
    hide Booked, Hits, RawMisses, CheapMisses, DearMisses, BaseSize, SumWhere, CountWhere;
    if logs != [] {
      AllCosts(p, seconds, logs[..|logs| - 1]);
      PullCosts(p, seconds, logs[|logs| - 1]);
    }
  }

  /** What each pull is charged. */
  lemma PullOrigin(p: Profile, seconds: nat -> real, log: seq<Visit>)
    ensures Origin(Booked(p, seconds, log))
      == SumWhere(log, RawMisses(p), p.l) + SumWhere(log, CheapMisses(p), p.d) + SumWhere(log, DearMisses(p), p.d)
        + SizeOf(Fetched(p, log), p.l)
  {
    PullCosts(p, seconds, log);
    PullBalanced(p, seconds, log);
    hide Booked, SumWhere, CountWhere, SizeOf, Fetched;
  }

  ghost function Requests(pulls: seq<seq<nat>>): nat {
    if pulls == [] then 0 else Requests(pulls[..|pulls| - 1]) + |pulls[|pulls| - 1]|
  }

  ghost function RequestBytes(pulls: seq<seq<nat>>, l: nat -> real): real {
    if pulls == [] then 0.0 else RequestBytes(pulls[..|pulls| - 1], l) + Sizes(pulls[|pulls| - 1], l)
  }

  /** The pulls after the warm-up. */
  ghost function Live<T>(s: seq<T>, warmup: nat): seq<T> {
    if |s| <= warmup then [] else s[warmup..]
  }

  lemma LiveIs<T>(s: seq<T>, warmup: nat)
    ensures |Live(s, warmup)| == if warmup < |s| then |s| - warmup else 0
    ensures forall k | 0 <= k < |Live(s, warmup)| :: Live(s, warmup)[k] == s[warmup + k]
  {
  }

  ghost function Origins(p: Profile, seconds: nat -> real, logs: seq<seq<Visit>>): (s: seq<real>) {
    seq(|logs|, k requires 0 <= k < |logs| => Origin(Booked(p, seconds, logs[k])))
  }

  ghost function Decodes(p: Profile, seconds: nat -> real, logs: seq<seq<Visit>>): (s: seq<real>) {
    seq(|logs|, k requires 0 <= k < |logs| => Booked(p, seconds, logs[k]).decode)
  }

  ghost function AllIds(logs: seq<seq<Visit>>): (s: seq<seq<nat>>) {
    seq(|logs|, k requires 0 <= k < |logs| => Ids(logs[k]))
  }

  ghost function FetchedBytes(p: Profile, logs: seq<seq<Visit>>): (s: seq<real>) {
    seq(|logs|, k requires 0 <= k < |logs| => SizeOf(Fetched(p, logs[k]), p.l))
  }

  /** How many bases the pulls fetched, each counted once a pull. */
  ghost function FetchedCount(p: Profile, logs: seq<seq<Visit>>): nat {
    if logs == [] then 0 else FetchedCount(p, logs[..|logs| - 1]) + |Fetched(p, logs[|logs| - 1])|
  }

  /** The tally adds up: requests are hits, raw misses and delta misses; the origin bytes and
      the decode time are those of the pulls; base bytes are those of the bases fetched. */
  ghost predicate AddsUp(p: Profile, seconds: nat -> real, logs: seq<seq<Visit>>, m: Tally) {
    && Balanced(m) && m.pulls == |logs|
    && m.req == Requests(AllIds(logs)) && m.reqBytes == RequestBytes(AllIds(logs), p.l)
    && Origin(m) == SumOf(Origins(p, seconds, logs)) && m.decode == SumOf(Decodes(p, seconds, logs))
    && m.basePhysical == FetchedCount(p, logs) && m.baseBytes == SumOf(FetchedBytes(p, logs))
  }

  lemma {:induction false} ReportAddsUp(p: Profile, seconds: nat -> real, logs: seq<seq<Visit>>)
    ensures AddsUp(p, seconds, logs, BookedAll(p, seconds, logs))
  {
    hide Booked, Fetched, SizeOf, Sizes, Plus, Balanced, Origin, Ids;
    NothingBalanced();
    if logs != [] {
      var n := |logs| - 1;
      ReportAddsUp(p, seconds, logs[..n]);
      PullBalanced(p, seconds, logs[n]);
      PlusBalanced(BookedAll(p, seconds, logs[..n]), Booked(p, seconds, logs[n]));
      PullsApart(Plus(BookedAll(p, seconds, logs[..n]), Booked(p, seconds, logs[n])), |logs|);
      assert Origins(p, seconds, logs)[..n] == Origins(p, seconds, logs[..n]);
      assert Decodes(p, seconds, logs)[..n] == Decodes(p, seconds, logs[..n]);
      assert FetchedBytes(p, logs)[..n] == FetchedBytes(p, logs[..n]);
      assert AllIds(logs)[..n] == AllIds(logs[..n]);
    }
  }

  /** The cache a pull found, when it left `end`. */
  ghost function Found(log: seq<Visit>, end: Snapshot): Snapshot {
    if log == [] then end else log[0].before
  }

  /** Each pull found the cache as the one before left it. */
  ghost predicate Linked(p: Profile, cap: real, start: Snapshot, logs: seq<seq<Visit>>, end: Snapshot) {
    if logs == [] then start == end
    else
      var log, was := logs[|logs| - 1], logs[..|logs| - 1];
      Linked(p, cap, start, was, Found(log, end)) && Logged(p, cap, Found(log, end), log, end)
  }

  lemma {:induction false} FoundIsStart(p: Profile, cap: real, start: Snapshot, log: seq<Visit>, end: Snapshot)
    requires Logged(p, cap, start, log, end)
    ensures Found(log, end) == start
  {
    if log != [] {
      FoundIsStart(p, cap, start, log[..|log| - 1], log[|log| - 1].before);
    }
    hide Moved;
  }

  lemma LinkedSnoc(p: Profile, cap: real, start: Snapshot, logs: seq<seq<Visit>>, mid: Snapshot, log: seq<Visit>,
                   end: Snapshot)
    requires Linked(p, cap, start, logs, mid) && Logged(p, cap, mid, log, end)
    ensures Linked(p, cap, start, logs + [log], end)
    ensures AllIds(logs + [log]) == AllIds(logs) + [Ids(log)]
  {
    FoundIsStart(p, cap, mid, log, end);
    assert (logs + [log])[..|logs|] == logs;
    hide Logged;
  }

  lemma StartsEmpty(p: Profile, cap: real, seconds: nat -> real, s: Snapshot, m: Tally)
    ensures Plus(m, NOTHING) == m
    ensures Logged(p, cap, s, [], s) && Ids([]) == [] && Fetched(p, []) == {}
    ensures Booked(p, seconds, []) == NOTHING && Origin(NOTHING) == 0.0
  {
  }

  /** One pull: its requests in turn. */
  method Pull(cache: Recon, seconds: nat -> real, pull: seq<nat>, live: bool, m0: Tally)
    returns (m: Tally, origin: real, decode: real, ghost log: seq<Visit>)
    requires cache.Valid() && Sane(cache.prof)
    modifies cache
    ensures cache.Valid()
    ensures Ids(log) == pull && Logged(cache.prof, cache.cap, old(Snap(cache)), log, Snap(cache))
    ensures live ==>
      var e := Booked(cache.prof, seconds, log);
      m == Plus(m0, e) && origin == Origin(e) && decode == e.decode
    ensures !live ==> m == m0
  {
    hide Moved, Booked, Logged, Fetched, NewBase, Entry, Sane, Plus, Origin, Ids;
    var p := cache.prof;
    var fetched: set<nat>;
    m, origin, decode, fetched, log := m0, 0.0, 0.0, {}, [];
    ghost var start := Snap(cache);
    StartsEmpty(p, cache.cap, seconds, start, m0);
    assert pull[..0] == [];
    for j := 0 to |pull|
      invariant cache.Valid()
      invariant Ids(log) == pull[..j] && Logged(p, cache.cap, start, log, Snap(cache))
      invariant fetched == Fetched(p, log)
      invariant live ==>
        var e := Booked(p, seconds, log);
        m == Plus(m0, e) && origin == Origin(e) && decode == e.decode
      invariant !live ==> m == m0
    {
      ghost var v := Visit(pull[j], Snap(cache));
      m, origin, decode, fetched := Request(cache, seconds, pull[j], live, m, origin, decode, fetched);
      LogSnoc(p, cache.cap, seconds, start, log, v, Snap(cache));
      PlusOrder(m0, Booked(p, seconds, log), Entry(p, seconds, v.before.res.Keys, Fetched(p, log), v.i));
      log := log + [v];
    }
    assert pull[..|pull|] == pull;
  }

  /** The tally after the first `k` pulls. */
  ghost predicate Cell(p: Profile, seconds: nat -> real, trace: seq<seq<nat>>, warmup: nat, k: nat,
                       logs: seq<seq<Visit>>,
                       m: Tally, pullOrigin: seq<real>, pullDecode: seq<real>)
  {
    && k <= |trace| && AllIds(logs) == trace[..k]
    && m == BookedAll(p, seconds, Live(logs, warmup))
    && pullOrigin == Origins(p, seconds, Live(logs, warmup))
    && pullDecode == Decodes(p, seconds, Live(logs, warmup))
  }

  lemma StartsCell(p: Profile, cap: real, seconds: nat -> real, s: Snapshot, trace: seq<seq<nat>>, warmup: nat)
    ensures Cell(p, seconds, trace, warmup, 0, [], NOTHING, [], []) && Linked(p, cap, s, [], s)
  {
  }

  lemma LiveSnoc(p: Profile, seconds: nat -> real, logs: seq<seq<Visit>>, log: seq<Visit>, warmup: nat)
    ensures |logs| < warmup ==> Live(logs + [log], warmup) == Live(logs, warmup)
    ensures |logs| >= warmup ==>
      var was, r := Live(logs, warmup), Live(logs + [log], warmup);
      && r == was + [log]
      && BookedAll(p, seconds, r) == Plus(BookedAll(p, seconds, was), Booked(p, seconds, log)).(pulls := |was| + 1)
      && BookedAll(p, seconds, was).pulls == |was| && Booked(p, seconds, log).pulls == 0
      && Origins(p, seconds, r) == Origins(p, seconds, was) + [Origin(Booked(p, seconds, log))]
      && Decodes(p, seconds, r) == Decodes(p, seconds, was) + [Booked(p, seconds, log).decode]
  {
    hide Booked, Origin, Plus, Balanced, Fetched, Ids, SizeOf, Sizes;
    PullBalanced(p, seconds, log);
    if |logs| >= warmup {
      var was, r := Live(logs, warmup), Live(logs + [log], warmup);
      assert r == was + [log] && r[..|was|] == was && r[|was|] == log;
    }
  }

  lemma CellStep(p: Profile, seconds: nat -> real, trace: seq<seq<nat>>, warmup: nat, k: nat, logs: seq<seq<Visit>>,
                 m: Tally, pullOrigin: seq<real>, pullDecode: seq<real>, log: seq<Visit>)
    requires Cell(p, seconds, trace, warmup, k, logs, m, pullOrigin, pullDecode) && k < |trace| && Ids(log) == trace[k]
    ensures k < warmup ==> Cell(p, seconds, trace, warmup, k + 1, logs + [log], m, pullOrigin, pullDecode)
    ensures k >= warmup ==>
      var e := Booked(p, seconds, log);
      var r := Plus(m, e);
      Cell(p, seconds, trace, warmup, k + 1, logs + [log], r.(pulls := r.pulls + 1), pullOrigin + [Origin(e)],
        pullDecode + [e.decode])
  {
    hide Booked, BookedAll, Origins, Decodes, Live, Ids, Origin;
    assert |logs| == k;
    assert AllIds(logs + [log]) == AllIds(logs) + [Ids(log)];
    LiveSnoc(p, seconds, logs, log, warmup);
  }

  lemma CellEnds(p: Profile, seconds: nat -> real, trace: seq<seq<nat>>, warmup: nat, logs: seq<seq<Visit>>,
                 m: Tally, pullOrigin: seq<real>, pullDecode: seq<real>)
    requires Cell(p, seconds, trace, warmup, |trace|, logs, m, pullOrigin, pullDecode)
    ensures AllIds(logs) == trace && AllIds(Live(logs, warmup)) == Live(trace, warmup)
    ensures m == BookedAll(p, seconds, Live(logs, warmup)) && AddsUp(p, seconds, Live(logs, warmup), m)
    ensures pullOrigin == Origins(p, seconds, Live(logs, warmup)) &&
      pullDecode == Decodes(p, seconds, Live(logs, warmup))
  {
    hide BookedAll, Origins, Decodes, AddsUp, Ids;
    assert trace[..|trace|] == trace;
    ReportAddsUp(p, seconds, Live(logs, warmup));
    assert AllIds(Live(logs, warmup)) == Live(trace, warmup);
  }

  /** The whole trace. */
  method RunCell(cache: Recon, seconds: nat -> real, trace: seq<seq<nat>>, warmup: nat)
    returns (m: Tally, pullOrigin: seq<real>, pullDecode: seq<real>, ghost logs: seq<seq<Visit>>)
    requires cache.Valid() && Sane(cache.prof)
    modifies cache
    ensures cache.Valid()
    ensures AllIds(logs) == trace && Linked(cache.prof, cache.cap, old(Snap(cache)), logs, Snap(cache))
    ensures m == BookedAll(cache.prof, seconds, Live(logs, warmup))
    ensures pullOrigin == Origins(cache.prof, seconds, Live(logs, warmup))
    ensures pullDecode == Decodes(cache.prof, seconds, Live(logs, warmup))
    ensures ReportCosts(cache.prof, seconds, Live(logs, warmup), m)
    ensures AddsUp(cache.prof, seconds, Live(logs, warmup), m) && AllIds(Live(logs, warmup)) == Live(trace, warmup)
  {
    hide Logged, Linked, Sane, Cell, Booked, ReportCosts;
    var p := cache.prof;
    m, pullOrigin, pullDecode, logs := NOTHING, [], [], [];
    ghost var start := Snap(cache);
    StartsCell(p, cache.cap, seconds, start, trace, warmup);
    for k := 0 to |trace|
      invariant cache.Valid()
      invariant Cell(p, seconds, trace, warmup, k, logs, m, pullOrigin, pullDecode)
      invariant Linked(p, cache.cap, start, logs, Snap(cache))
    {
      ghost var mid, was := Snap(cache), m;
      var live, origin, decode := k >= warmup, 0.0, 0.0;
      ghost var log;
      m, origin, decode, log := Pull(cache, seconds, trace[k], live, m);
      LinkedSnoc(p, cache.cap, start, logs, mid, log, Snap(cache));
      CellStep(p, seconds, trace, warmup, k, logs, was, pullOrigin, pullDecode, log);
      if live {
        m := m.(pulls := m.pulls + 1);
        pullOrigin, pullDecode := pullOrigin + [origin], pullDecode + [decode];
      }
      logs := logs + [log];
    }
    CellEnds(p, seconds, trace, warmup, logs, m, pullOrigin, pullDecode);
    AllCosts(p, seconds, Live(logs, warmup));
  }
}
