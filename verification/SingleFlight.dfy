/** Concurrent demand misses: one lock per tid, then one gate — the exclusive lock for big
    tensors, a slot of the bounded semaphore for the others. Every atomic action of a request
    is one step, in any order the threads may take them; the evictor may remove entries at
    any time. A decode also caches the ancestors it went through, even when it then fails. */
module SingleFlight {
  import opened Forest
  import opened Sums

  datatype Request = Request(tid: Tid, big: bool)

  datatype Config = Config(requests: seq<Request>, slots: nat)

  /** Arrived; saw a miss and waits for the lock of its tid; holds the lock and looks again;
      waits for its gate; decodes inside the gate; has replied with the bytes or with an
      error. */
  datatype Phase = Arrived | Missed | Locked | AtGate | Decoding | Replied | Failed

  /** `decodes` lists the targets decoded with success so far, in order of completion. */
  datatype State = State(phases: seq<Phase>, cached: set<Tid>, decodes: seq<Tid>)

  datatype Step =
    | Look(i: nat) | Lock(i: nat) | LookAgain(i: nat) | Enter(i: nat) | Finish(i: nat, chain: set<Tid>)
    | Fail(i: nat, chain: set<Tid>) | Evict(tids: set<Tid>)

  ghost function Init(c: Config, cached: set<Tid>): State {
    State(seq(|c.requests|, i => Arrived), cached, [])
  }

  ghost predicate HoldsLock(p: Phase) {
    p == Locked || p == AtGate || p == Decoding
  }

  ghost predicate LockFree(c: Config, s: State, t: Tid)
    requires |s.phases| == |c.requests|
  {
    forall j | 0 <= j < |s.phases| && HoldsLock(s.phases[j]) :: c.requests[j].tid != t
  }

  ghost function InGateMarks(c: Config, phases: seq<Phase>, big: bool): (s: seq<int>)
    requires |phases| == |c.requests|
    ensures |s| == |phases|
  {
    seq(|phases|, i requires 0 <= i < |phases| => if phases[i] == Decoding && c.requests[i].big == big then 1 else 0)
  }

  /** How many requests hold the gate of their kind. */
  ghost function InGate(c: Config, phases: seq<Phase>, big: bool): int
    requires |phases| == |c.requests|
  {
    Total(InGateMarks(c, phases, big))
  }

  ghost function Capacity(c: Config, big: bool): int {
    if big then 1 else c.slots
  }

  ghost predicate Enabled(c: Config, s: State, step: Step)
    requires |s.phases| == |c.requests|
  {
    match step
    case Look(i) => i < |s.phases| && s.phases[i] == Arrived
    case Lock(i) => i < |s.phases| && s.phases[i] == Missed && LockFree(c, s, c.requests[i].tid)
    case LookAgain(i) => i < |s.phases| && s.phases[i] == Locked
    case Enter(i) =>
      i < |s.phases| && s.phases[i] == AtGate
      && InGate(c, s.phases, c.requests[i].big) < Capacity(c, c.requests[i].big)
    case Finish(i, chain) => i < |s.phases| && s.phases[i] == Decoding && c.requests[i].tid in chain
    case Fail(i, chain) =>
      && i < |s.phases| && c.requests[i].tid !in chain
      && (s.phases[i] == Decoding || (s.phases[i] == AtGate && chain == {}))
    case Evict(_) => true
  }

  ghost function Next(c: Config, s: State, step: Step): (r: State)
    requires |s.phases| == |c.requests| && Enabled(c, s, step)
    ensures |r.phases| == |s.phases|
  {
    match step
    case Look(i) => s.(phases := s.phases[i := if c.requests[i].tid in s.cached then Replied else Missed])
    case Lock(i) => s.(phases := s.phases[i := Locked])
    case LookAgain(i) => s.(phases := s.phases[i := if c.requests[i].tid in s.cached then Replied else AtGate])
    case Enter(i) => s.(phases := s.phases[i := Decoding])
    case Finish(i, chain) =>
      State(s.phases[i := Replied], s.cached + chain, s.decodes + [c.requests[i].tid])
    case Fail(i, chain) => s.(phases := s.phases[i := Failed], cached := s.cached + chain)
    case Evict(tids) => s.(cached := s.cached - tids)
  }

  ghost predicate Answered(p: Phase) {
    p == Replied || p == Failed
  }

  // ---- locks and gates

  ghost predicate Exclusive(c: Config, s: State)
    requires |s.phases| == |c.requests|
  {
    forall i, j | 0 <= i < |s.phases| && 0 <= j < |s.phases| && i != j && HoldsLock(s.phases[i]) &&
      HoldsLock(s.phases[j]) ::
      c.requests[i].tid != c.requests[j].tid
  }

  /** No tid is locked twice, so none is decoded twice at the same time, and no gate is over
      its capacity. */
  ghost predicate Inv(c: Config, s: State) {
    && |s.phases| == |c.requests|
    && Exclusive(c, s)
    && InGate(c, s.phases, false) <= c.slots
    && InGate(c, s.phases, true) <= 1
  }

  lemma InitInv(c: Config, cached: set<Tid>)
    ensures Inv(c, Init(c, cached))
  {
    TotalBounds(InGateMarks(c, Init(c, cached).phases, false), 0, 0);
    TotalBounds(InGateMarks(c, Init(c, cached).phases, true), 0, 0);
  }

  lemma InGateUpdate(c: Config, phases: seq<Phase>, i: nat, p: Phase, big: bool)
    requires |phases| == |c.requests| && i < |phases|
    ensures InGate(c, phases[i := p], big) == InGate(c, phases, big)
      - (if phases[i] == Decoding && c.requests[i].big == big then 1 else 0)
      + (if p == Decoding && c.requests[i].big == big then 1 else 0)
  {
    var v := if p == Decoding && c.requests[i].big == big then 1 else 0;
    assert InGateMarks(c, phases[i := p], big) == InGateMarks(c, phases, big)[i := v];
    TotalUpdate(InGateMarks(c, phases, big), i, v);
  }

  ghost function Moved(c: Config, s: State, step: Step): (p: (nat, Phase))
    requires |s.phases| == |c.requests| && Enabled(c, s, step) && !step.Evict?
    ensures p.0 < |s.phases| && Next(c, s, step).phases == s.phases[p.0 := p.1]
  {
    (step.i, Next(c, s, step).phases[step.i])
  }

  lemma InvStep(c: Config, s: State, step: Step)
    requires Inv(c, s) && Enabled(c, s, step)
    ensures Inv(c, Next(c, s, step))
  {
    hide InGate;
    if !step.Evict? {
      var m := Moved(c, s, step);
      InGateUpdate(c, s.phases, m.0, m.1, false);
      InGateUpdate(c, s.phases, m.0, m.1, true);
    }
  }

  ghost predicate IsRun(c: Config, s: State, steps: seq<Step>)
    requires |s.phases| == |c.requests|
    decreases |steps|
  {
    steps == [] || (Enabled(c, s, steps[0]) && IsRun(c, Next(c, s, steps[0]), steps[1..]))
  }

  ghost function After(c: Config, s: State, steps: seq<Step>): (r: State)
    requires |s.phases| == |c.requests| && IsRun(c, s, steps)
    ensures |r.phases| == |c.requests|
    decreases |steps|
  {
    if steps == [] then s else After(c, Next(c, s, steps[0]), steps[1..])
  }

  lemma SameShape(c: Config, s: State)
    requires Inv(c, s)
    ensures |s.phases| == |c.requests|
  {
  }

  lemma {:induction false} RunKeepsInv(c: Config, s: State, steps: seq<Step>)
    requires Inv(c, s) && IsRun(c, s, steps)
    ensures Inv(c, After(c, s, steps))
    decreases |steps|
  {
    hide Inv;
    SameShape(c, s);
    if steps != [] {
      InvStep(c, s, steps[0]);
      RunKeepsInv(c, Next(c, s, steps[0]), steps[1..]);
    }
  }

  /** In every interleaving, with any evictions: at no time are two requests inside for the
      same tid, nor more inside a gate than it admits. */
  lemma MutualExclusion(c: Config, cached: set<Tid>, steps: seq<Step>)
    requires IsRun(c, Init(c, cached), steps)
    ensures Exclusive(c, After(c, Init(c, cached), steps))
    ensures InGate(c, After(c, Init(c, cached), steps).phases, false) <= c.slots
    ensures InGate(c, After(c, Init(c, cached), steps).phases, true) <= 1
  {
    InitInv(c, cached);
    RunKeepsInv(c, Init(c, cached), steps);
  }

  // ---- no waiting cycle

  lemma SomeoneInside(c: Config, s: State, big: bool) returns (j: nat)
    requires |s.phases| == |c.requests| && InGate(c, s.phases, big) > 0
    ensures j < |s.phases| && s.phases[j] == Decoding
  {
    if forall k | 0 <= k < |s.phases| :: s.phases[k] != Decoding {
      TotalBounds(InGateMarks(c, s.phases, big), 0, 0);
    }
    j :| j < |s.phases| && s.phases[j] == Decoding;
  }

  /** Locks are taken in the order tid, then gate, and whoever is inside a gate waits for
      nobody: while a request is open some request can move. */
  lemma NeverStuck(c: Config, s: State) returns (step: Step)
    requires Inv(c, s) && c.slots >= 1
    requires exists i :: 0 <= i < |s.phases| && !Answered(s.phases[i])
    ensures Enabled(c, s, step) && !step.Evict?
  {
    var i: nat :| i < |s.phases| && !Answered(s.phases[i]);
    var j: nat := i;
    if s.phases[i] == Missed && !LockFree(c, s, c.requests[i].tid) {
      j :| j < |s.phases| && HoldsLock(s.phases[j]) && c.requests[j].tid == c.requests[i].tid;
    }
    var big := c.requests[j].big;
    if s.phases[j] == AtGate && InGate(c, s.phases, big) >= Capacity(c, big) {
      j := SomeoneInside(c, s, big);
    }
    step := match s.phases[j]
      case Arrived => Look(j)
      case Missed => Lock(j)
      case Locked => LookAgain(j)
      case AtGate => Enter(j)
      case Decoding => Finish(j, {c.requests[j].tid})
      case _ => Evict({});
  }

  // ---- every run ends

  ghost function Left(p: Phase): int {
    match p
    case Arrived => 5
    case Missed => 4
    case Locked => 3
    case AtGate => 2
    case Decoding => 1
    case _ => 0
  }

  ghost function LeftMarks(phases: seq<Phase>): (s: seq<int>)
    ensures |s| == |phases|
  {
    seq(|phases|, i requires 0 <= i < |phases| => Left(phases[i]))
  }

  ghost function Work(s: State): int {
    Total(LeftMarks(s.phases))
  }

  lemma WorkStep(c: Config, s: State, step: Step)
    requires |s.phases| == |c.requests| && Enabled(c, s, step)
    ensures Work(Next(c, s, step)) >= 0
    ensures if step.Evict? then Work(Next(c, s, step)) == Work(s) else Work(Next(c, s, step)) < Work(s)
  {
    TotalBounds(LeftMarks(Next(c, s, step).phases), 0, 5);
    if !step.Evict? {
      var m := Moved(c, s, step);
      assert LeftMarks(s.phases[m.0 := m.1]) == LeftMarks(s.phases)[m.0 := Left(m.1)];
      TotalUpdate(LeftMarks(s.phases), m.0, Left(m.1));
    }
  }

  ghost function Moves(steps: seq<Step>): nat {
    if steps == [] then 0 else (if steps[0].Evict? then 0 else 1) + Moves(steps[1..])
  }

  lemma {:induction false} WorkFalls(c: Config, s: State, steps: seq<Step>)
    requires |s.phases| == |c.requests| && IsRun(c, s, steps)
    ensures 0 <= Work(After(c, s, steps)) <= Work(s) - Moves(steps)
    decreases |steps|
  {
    if steps == [] {
      TotalBounds(LeftMarks(s.phases), 0, 5);
    } else {
      WorkStep(c, s, steps[0]);
      WorkFalls(c, Next(c, s, steps[0]), steps[1..]);
    }
  }

  /** The steps of request `i`. */
  ghost function StepsOf(i: nat, steps: seq<Step>): nat {
    if steps == [] then 0 else (if !steps[0].Evict? && steps[0].i == i then 1 else 0) + StepsOf(i, steps[1..])
  }

  lemma OwnStep(c: Config, s: State, step: Step, i: nat)
    requires |s.phases| == |c.requests| && Enabled(c, s, step) && i < |c.requests|
    ensures Left(Next(c, s, step).phases[i]) <= Left(s.phases[i]) - if !step.Evict? && step.i == i then 1 else 0
  {
    hide InGate, LockFree;
  }

  /** A request has as many steps before it as it has phases left. */
  lemma {:induction false} OwnSteps(c: Config, s: State, steps: seq<Step>, i: nat)
    requires |s.phases| == |c.requests| && IsRun(c, s, steps) && i < |c.requests|
    ensures StepsOf(i, steps) <= Left(s.phases[i]) - Left(After(c, s, steps).phases[i])
    decreases |steps|
  {
    if steps != [] {
      OwnStep(c, s, steps[0], i);
      OwnSteps(c, Next(c, s, steps[0]), steps[1..], i);
    }
  }

  /** No request takes more than five steps of its own however the threads interleave; when
      the requests can move no more, each of them has been answered. */
  lemma EveryRequestAnswered(c: Config, cached: set<Tid>, steps: seq<Step>)
    requires c.slots >= 1 && IsRun(c, Init(c, cached), steps)
    ensures forall i | 0 <= i < |c.requests| :: StepsOf(i, steps) <= 5
    ensures Moves(steps) <= 5 * |c.requests|
    ensures (forall step: Step | !step.Evict? :: !Enabled(c, After(c, Init(c, cached), steps), step)) ==>
      forall i | 0 <= i < |c.requests| :: Answered(After(c, Init(c, cached), steps).phases[i])
  {
    var s0 := Init(c, cached);
    var s := After(c, s0, steps);
    WorkFalls(c, s0, steps);
    forall i | 0 <= i < |c.requests| ensures StepsOf(i, steps) <= 5 {
      OwnSteps(c, s0, steps, i);
    }
    TotalBounds(LeftMarks(s0.phases), 0, 5);
    InitInv(c, cached);
    RunKeepsInv(c, s0, steps);
    if exists i :: 0 <= i < |s.phases| && !Answered(s.phases[i]) {
      var step := NeverStuck(c, s);
    }
  }

  // ---- coalescing

  ghost predicate NoEvictions(steps: seq<Step>) {
    forall k | 0 <= k < |steps| :: !steps[k].Evict?
  }

  /** A decoded target stays cached; so whoever then holds its lock is about to find it. */
  ghost predicate Coalesced(c: Config, s: State) {
    && |s.phases| == |c.requests|
    && Exclusive(c, s)
    && (forall k | 0 <= k < |s.decodes| :: s.decodes[k] in s.cached)
    && (forall i, k | 0 <= i < |s.phases| && 0 <= k < |s.decodes| && s.phases[i] in {AtGate, Decoding} ::
          s.decodes[k] != c.requests[i].tid)
    && (forall j, k | 0 <= j < k < |s.decodes| :: s.decodes[j] != s.decodes[k])
  }

  lemma CoalescedStep(c: Config, s: State, step: Step)
    requires Coalesced(c, s) && Enabled(c, s, step) && !step.Evict?
    ensures Coalesced(c, Next(c, s, step))
  {
    var r := Next(c, s, step);
    if step.Finish? {
      assert HoldsLock(s.phases[step.i]);
      forall i, k | 0 <= i < |r.phases| && 0 <= k < |r.decodes| && r.phases[i] in {AtGate, Decoding}
        ensures r.decodes[k] != c.requests[i].tid
      {
        assert i != step.i && HoldsLock(s.phases[i]);
      }
    }
  }

  lemma {:induction false} RunCoalesces(c: Config, s: State, steps: seq<Step>)
    requires Coalesced(c, s) && IsRun(c, s, steps) && NoEvictions(steps)
    ensures Coalesced(c, After(c, s, steps))
    decreases |steps|
  {
    if steps != [] {
      CoalescedStep(c, s, steps[0]);
      assert forall k | 0 <= k < |steps[1..]| :: steps[1..][k] == steps[k + 1];
      RunCoalesces(c, Next(c, s, steps[0]), steps[1..]);
    }
  }

  /** Concurrent misses coalesce: while nothing is evicted, each tid is the target of at most
      one decode that succeeds, however many requests miss on it at once. */
  lemma MissesCoalesce(c: Config, cached: set<Tid>, steps: seq<Step>)
    requires IsRun(c, Init(c, cached), steps) && NoEvictions(steps)
    ensures forall j, k | 0 <= j < k < |After(c, Init(c, cached), steps).decodes| ::
      After(c, Init(c, cached), steps).decodes[j] != After(c, Init(c, cached), steps).decodes[k]
    ensures forall k | 0 <= k < |After(c, Init(c, cached), steps).decodes| ::
      After(c, Init(c, cached), steps).decodes[k] in After(c, Init(c, cached), steps).cached
  {
    RunCoalesces(c, Init(c, cached), steps);
  }

  // ---- what a reply means

  /** A step answers a request with bytes only if its tensor is in the cache after the step. */
  lemma RepliedIsCached(c: Config, s: State, step: Step, i: nat)
    requires |s.phases| == |c.requests| && Enabled(c, s, step) && i < |c.requests|
    requires s.phases[i] != Replied && Next(c, s, step).phases[i] == Replied
    ensures !step.Evict? && step.i == i && c.requests[i].tid in Next(c, s, step).cached
    ensures step.Look? || step.LookAgain? ==> c.requests[i].tid in s.cached
  {
    hide InGate, LockFree;
  }

  /** Entries leave the cache only by eviction, exactly those named, and come into it only by a
      decode, exactly those it went through. */
  lemma CacheMoves(c: Config, s: State, step: Step, t: Tid)
    requires |s.phases| == |c.requests| && Enabled(c, s, step)
    ensures t in s.cached && t !in Next(c, s, step).cached <==> t in s.cached && step.Evict? && t in step.tids
    ensures t !in s.cached && t in Next(c, s, step).cached <==>
      t !in s.cached && (step.Finish? || step.Fail?) && t in step.chain
  {
    hide InGate, LockFree;
  }

  lemma {:induction false} CachedStays(c: Config, s: State, steps: seq<Step>)
    requires |s.phases| == |c.requests| && IsRun(c, s, steps) && NoEvictions(steps)
    requires forall i | 0 <= i < |s.phases| && s.phases[i] == Replied :: c.requests[i].tid in s.cached
    ensures var r := After(c, s, steps);
      forall i | 0 <= i < |r.phases| && r.phases[i] == Replied :: c.requests[i].tid in r.cached
    decreases |steps|
  {
    if steps != [] {
      var next := Next(c, s, steps[0]);
      assert !steps[0].Evict?;
      forall i | 0 <= i < |next.phases| && next.phases[i] == Replied ensures c.requests[i].tid in next.cached {
        CacheMoves(c, s, steps[0], c.requests[i].tid);
        if s.phases[i] != Replied {
          RepliedIsCached(c, s, steps[0], i);
        }
      }
      assert forall k | 0 <= k < |steps[1..]| :: steps[1..][k] == steps[k + 1];
      CachedStays(c, next, steps[1..]);
    }
  }

  /** While nothing is evicted, whatever has been answered with bytes is in the cache. */
  lemma RepliesAreCached(c: Config, cached: set<Tid>, steps: seq<Step>)
    requires IsRun(c, Init(c, cached), steps) && NoEvictions(steps)
    ensures var r := After(c, Init(c, cached), steps);
      forall i | 0 <= i < |c.requests| && r.phases[i] == Replied :: c.requests[i].tid in r.cached
  {
    CachedStays(c, Init(c, cached), steps);
  }

  /** Whoever has been answered takes no further step. */
  lemma {:induction false} AnsweredRests(c: Config, s: State, steps: seq<Step>, i: nat)
    requires |s.phases| == |c.requests| && IsRun(c, s, steps) && i < |c.requests| && Answered(s.phases[i])
    ensures StepsOf(i, steps) == 0 && After(c, s, steps).phases[i] == s.phases[i]
    decreases |steps|
  {
    if steps != [] {
      AnsweredRests(c, Next(c, s, steps[0]), steps[1..], i);
    }
  }

  /** How many more steps a request needs at least. */
  ghost function Ahead(p: Phase): nat {
    match p
    case Arrived => 1
    case Missed => 2
    case Replied => 0
    case Failed => 0
    case _ => 1
  }

  lemma {:induction false} UnderLock(c: Config, s: State, steps: seq<Step>, i: nat)
    requires |s.phases| == |c.requests| && IsRun(c, s, steps) && i < |c.requests|
    ensures Answered(After(c, s, steps).phases[i]) ==> StepsOf(i, steps) >= Ahead(s.phases[i])
    decreases |steps|
  {
    hide InGate, LockFree;
    if steps != [] {
      UnderLock(c, Next(c, s, steps[0]), steps[1..], i);
    }
  }

  /** The first step of a request is its look at the cache: with its tensor there, it is
      answered with bytes by this one step; without, it goes to the lock. */
  lemma FirstLook(c: Config, s: State, steps: seq<Step>, i: nat)
    requires |s.phases| == |c.requests| && steps != [] && IsRun(c, s, steps) && i < |c.requests|
    requires s.phases[i] == Arrived && !steps[0].Evict? && steps[0].i == i
    ensures steps[0].Look?
    ensures c.requests[i].tid in s.cached ==> StepsOf(i, steps) == 1 && After(c, s, steps).phases[i] == Replied
    ensures c.requests[i].tid !in s.cached ==>
      !Answered(Next(c, s, steps[0]).phases[i]) && (Answered(After(c, s, steps).phases[i]) ==> StepsOf(i, steps) >= 3)
  {
    var next := Next(c, s, steps[0]);
    if c.requests[i].tid in s.cached {
      AnsweredRests(c, next, steps[1..], i);
    } else {
      UnderLock(c, next, steps[1..], i);
    }
  }

  /** A request is answered with an error exactly when a step of its own has failed. */
  lemma {:induction false} FailedHasFailed(c: Config, s: State, steps: seq<Step>, i: nat)
    requires |s.phases| == |c.requests| && IsRun(c, s, steps) && i < |c.requests| && s.phases[i] != Failed
    ensures After(c, s, steps).phases[i] == Failed <==> exists k | 0 <= k < |steps| :: steps[k].Fail? && steps[k].i == i
    decreases |steps|
  {
    hide InGate, LockFree;
    if steps != [] {
      var next, rest := Next(c, s, steps[0]), steps[1..];
      assert forall k | 0 <= k < |rest| :: rest[k] == steps[k + 1];
      assert next.phases[i] == Failed <==> steps[0].Fail? && steps[0].i == i;
      if next.phases[i] == Failed {
        AnsweredRests(c, next, rest, i);
      } else {
        FailedHasFailed(c, next, rest, i);
        if k :| 0 <= k < |steps| && steps[k].Fail? && steps[k].i == i {
          assert rest[k - 1] == steps[k];
        }
      }
    }
  }

  /** The targets of the decodes that succeed, in the order of the run. */
  ghost function Finished(c: Config, steps: seq<Step>): seq<Tid> {
    if steps == [] then []
    else
      (if steps[0].Finish? && steps[0].i < |c.requests| then [c.requests[steps[0].i].tid] else [])
      + Finished(c, steps[1..])
  }

  /** Every decode that succeeds is on record, and nothing else. */
  lemma {:induction false} DecodesAreFinishes(c: Config, s: State, steps: seq<Step>)
    requires |s.phases| == |c.requests| && IsRun(c, s, steps)
    ensures After(c, s, steps).decodes == s.decodes + Finished(c, steps)
    decreases |steps|
  {
    hide InGate, LockFree;
    if steps == [] {
      assert s.decodes + [] == s.decodes;
    } else {
      var next, one := Next(c, s, steps[0]), if steps[0].Finish? then [c.requests[steps[0].i].tid] else [];
      DecodesAreFinishes(c, next, steps[1..]);
      assert next.decodes == s.decodes + one;
      assert s.decodes + one + Finished(c, steps[1..]) == s.decodes + (one + Finished(c, steps[1..]));
    }
  }
}
