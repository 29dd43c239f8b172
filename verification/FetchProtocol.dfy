/** The byte budget shared by the fetch workers and the decoding consumer of a run, as a
    state machine: one step for every atomic action under the budget lock, in any order the
    threads may take them. Positions are those of the decode order. */
module FetchProtocol {
  import opened Sums

  /** `sizes` are the stored sizes of the entries in decode order. */
  datatype Config = Config(sizes: seq<nat>, budget: nat, workers: nat)

  /** Submitted to the pool; picked up by a worker and checking the budget; counted against
      the budget and downloading; downloaded; decoded. */
  datatype Task = Queued | Waiting | Admitted | Fetched | Released

  /** The consumer is about to move the head, waits for its entry, or decodes it. */
  datatype Stage = Announce | Await | Decode

  datatype State = State(submitted: nat, started: nat, tasks: seq<Task>, bytes: int, head: nat, pos: nat, stage: Stage)

  datatype Step = Submit | Start | Admit(p: nat) | Finish(p: nat) | SetHead | Take | Release

  ghost function Init(c: Config): State {
    State(0, 0, seq(|c.sizes|, i => Queued), 0, 0, 0, Announce)
  }

  ghost predicate InFlight(t: Task) {
    t == Admitted || t == Fetched
  }

  ghost predicate OnWorker(t: Task) {
    t == Waiting || t == Admitted
  }

  ghost function HeldSizes(c: Config, tasks: seq<Task>): (s: seq<int>)
    requires |tasks| == |c.sizes|
    ensures |s| == |tasks|
  {
    seq(|tasks|, i requires 0 <= i < |tasks| => if InFlight(tasks[i]) then c.sizes[i] else 0)
  }

  /** The sizes of the entries admitted and not yet released. */
  ghost function Held(c: Config, tasks: seq<Task>): int
    requires |tasks| == |c.sizes|
  {
    Total(HeldSizes(c, tasks))
  }

  ghost function BusyMarks(tasks: seq<Task>): (s: seq<int>)
    ensures |s| == |tasks|
  {
    seq(|tasks|, i requires 0 <= i < |tasks| => if OnWorker(tasks[i]) then 1 else 0)
  }

  /** How many workers hold a task. */
  ghost function Busy(tasks: seq<Task>): int {
    Total(BusyMarks(tasks))
  }

  /** The pool is a queue: tasks start in the order of submission. A worker admits its task
      when it fits the budget or is at or before the head of the line. */
  ghost predicate Enabled(c: Config, s: State, step: Step)
    requires |s.tasks| == |c.sizes|
  {
    match step
    case Submit => s.submitted < |s.tasks|
    case Start => s.started < s.submitted && s.started < |s.tasks| && Busy(s.tasks) < c.workers
    case Admit(p) => p < |s.tasks| && s.tasks[p] == Waiting && (s.bytes + c.sizes[p] <= c.budget || p <= s.head)
    case Finish(p) => p < |s.tasks| && s.tasks[p] == Admitted
    case SetHead => s.submitted == |s.tasks| && s.stage == Announce && s.pos < |s.tasks|
    case Take => s.stage == Await && s.pos < |s.tasks| && s.tasks[s.pos] == Fetched
    case Release => s.stage == Decode && s.pos < |s.tasks|
  }

  ghost function Next(c: Config, s: State, step: Step): (r: State)
    requires |s.tasks| == |c.sizes| && Enabled(c, s, step)
    ensures |r.tasks| == |s.tasks|
  {
    match step
    case Submit => s.(submitted := s.submitted + 1)
    case Start => s.(started := s.started + 1, tasks := s.tasks[s.started := Waiting])
    case Admit(p) => s.(tasks := s.tasks[p := Admitted], bytes := s.bytes + c.sizes[p])
    case Finish(p) => s.(tasks := s.tasks[p := Fetched])
    case SetHead => s.(head := s.pos, stage := Await)
    case Take => s.(stage := Decode)
    case Release =>
      s.(tasks := s.tasks[s.pos := Released], bytes := s.bytes - c.sizes[s.pos], pos := s.pos + 1, stage := Announce)
  }

  ghost predicate Final(c: Config, s: State) {
    s.pos == |c.sizes|
  }

  // ---- the invariant

  /** What the head of the line itself contributes to the bytes in flight. */
  ghost function HeadShare(c: Config, s: State): int
    requires |s.tasks| == |c.sizes|
  {
    if s.head < |s.tasks| && InFlight(s.tasks[s.head]) then c.sizes[s.head] else 0
  }

  ghost predicate Ordered(s: State) {
    && s.started <= s.submitted <= |s.tasks| && s.pos <= |s.tasks|
    && (forall i | 0 <= i < |s.tasks| :: s.tasks[i] == Queued <==> s.started <= i)
    && (forall i | 0 <= i < |s.tasks| :: s.tasks[i] == Released <==> i < s.pos)
    && (s.submitted < |s.tasks| ==> s.pos == 0 && s.stage == Announce)
    && (s.stage != Announce ==> s.pos < |s.tasks| && s.head == s.pos)
    && (s.stage == Announce ==> s.head == if s.pos == 0 then 0 else s.pos - 1)
    && (s.stage == Decode ==> s.tasks[s.pos] == Fetched)
  }

  ghost predicate Inv(c: Config, s: State) {
    && |s.tasks| == |c.sizes|
    && Ordered(s)
    && s.bytes == Held(c, s.tasks)
    && s.bytes - HeadShare(c, s) <= c.budget
    && Busy(s.tasks) <= c.workers
  }

  lemma HeldUpdate(c: Config, tasks: seq<Task>, p: nat, t: Task)
    requires |tasks| == |c.sizes| && p < |tasks|
    ensures Held(c, tasks[p := t]) ==
      Held(c, tasks) - (if InFlight(tasks[p]) then c.sizes[p] else 0) + (if InFlight(t) then c.sizes[p] else 0)
    ensures Busy(tasks[p := t]) ==
      Busy(tasks) - (if OnWorker(tasks[p]) then 1 else 0) + (if OnWorker(t) then 1 else 0)
  {
    var v := if InFlight(t) then c.sizes[p] else 0;
    assert HeldSizes(c, tasks[p := t]) == HeldSizes(c, tasks)[p := v];
    TotalUpdate(HeldSizes(c, tasks), p, v);
    var w := if OnWorker(t) then 1 else 0;
    assert BusyMarks(tasks[p := t]) == BusyMarks(tasks)[p := w];
    TotalUpdate(BusyMarks(tasks), p, w);
  }

  lemma InitInv(c: Config)
    ensures Inv(c, Init(c))
  {
    TotalBounds(HeldSizes(c, Init(c).tasks), 0, 0);
    TotalBounds(BusyMarks(Init(c).tasks), 0, 0);
  }

  lemma OrderedStep(c: Config, s: State, step: Step)
    requires |s.tasks| == |c.sizes| && Ordered(s) && Enabled(c, s, step)
    ensures Ordered(Next(c, s, step))
  {
    hide Busy;
    var r := Next(c, s, step);
    match step
    case Submit =>
    case Start =>
      assert s.tasks[s.started] == Queued;
      assert forall i | 0 <= i < |s.tasks| :: r.tasks[i] == if i == s.started then Waiting else s.tasks[i];
    case Admit(p) =>
      assert forall i | 0 <= i < |s.tasks| :: r.tasks[i] == if i == p then Admitted else s.tasks[i];
    case Finish(p) =>
      assert forall i | 0 <= i < |s.tasks| :: r.tasks[i] == if i == p then Fetched else s.tasks[i];
    case SetHead =>
    case Take =>
    case Release =>
      assert forall i | 0 <= i < |s.tasks| :: r.tasks[i] == if i == s.pos then Released else s.tasks[i];
  }

  /** Every step of any thread keeps the account of bytes, and keeps what is in flight beyond
      the head entry within the budget. */
  lemma InvStep(c: Config, s: State, step: Step)
    requires Inv(c, s) && Enabled(c, s, step)
    ensures Inv(c, Next(c, s, step))
  {
    OrderedStep(c, s, step);
    match step
    case Start => HeldUpdate(c, s.tasks, s.started, Waiting);
    case Admit(p) => HeldUpdate(c, s.tasks, p, Admitted);
    case Finish(p) => HeldUpdate(c, s.tasks, p, Fetched);
    case Release => HeldUpdate(c, s.tasks, s.pos, Released);
    case SetHead =>
      if s.pos > 0 {
        assert HeadShare(c, s) == 0;
      }
    case _ =>
  }

  // ---- runs

  ghost predicate IsRun(c: Config, s: State, steps: seq<Step>)
    requires |s.tasks| == |c.sizes|
    decreases |steps|
  {
    steps == [] || (Enabled(c, s, steps[0]) && IsRun(c, Next(c, s, steps[0]), steps[1..]))
  }

  ghost function After(c: Config, s: State, steps: seq<Step>): (r: State)
    requires |s.tasks| == |c.sizes| && IsRun(c, s, steps)
    ensures |r.tasks| == |s.tasks|
    decreases |steps|
  {
    if steps == [] then s else After(c, Next(c, s, steps[0]), steps[1..])
  }

  lemma {:induction false} RunKeepsInv(c: Config, s: State, steps: seq<Step>)
    requires Inv(c, s) && IsRun(c, s, steps)
    ensures Inv(c, After(c, s, steps))
    decreases |steps|
  {
    if steps != [] {
      InvStep(c, s, steps[0]);
      RunKeepsInv(c, Next(c, s, steps[0]), steps[1..]);
    }
  }

  /** Memory safety over all interleavings: the bytes in flight are those of the admitted,
      unreleased entries, and exceed the budget by at most the entry at the head. */
  lemma BudgetHolds(c: Config, steps: seq<Step>)
    requires IsRun(c, Init(c), steps) && |c.sizes| > 0
    ensures var s := After(c, Init(c), steps);
      && s.bytes == Held(c, s.tasks)
      && s.head < |c.sizes|
      && 0 <= s.bytes <= c.budget + c.sizes[s.head]
  {
    InitInv(c);
    RunKeepsInv(c, Init(c), steps);
    var s := After(c, Init(c), steps);
    TotalBounds(HeldSizes(c, s.tasks), 0, Max(HeldSizes(c, s.tasks)));
  }

  // ---- progress

  lemma AllReleasedIdle(s: State)
    requires Ordered(s) && s.started <= s.pos
    ensures Busy(s.tasks) == 0
  {
    TotalBounds(BusyMarks(s.tasks), 0, 0);
  }

  /** The step that is always possible: if the entry at the head has not started, every
      earlier one is released, so a worker is free and the queue offers it next. */
  ghost function SomeStep(c: Config, s: State): Step
    requires Inv(c, s) && !Final(c, s)
  {
    if s.submitted < |s.tasks| then Submit
    else match s.stage
      case Announce => SetHead
      case Decode => Release
      case Await =>
        match s.tasks[s.pos]
        case Queued => Start
        case Waiting => Admit(s.pos)
        case Admitted => Finish(s.pos)
        case _ => Take
  }

  lemma NeverStuck(c: Config, s: State)
    requires Inv(c, s) && c.workers >= 1
    ensures Final(c, s) || Enabled(c, s, SomeStep(c, s))
  {
    if !Final(c, s) && s.submitted == |s.tasks| && s.stage == Await && s.tasks[s.pos] == Queued {
      AllReleasedIdle(s);
    }
  }

  // ---- every run is finite, and every run that cannot go on is complete

  ghost function Level(t: Task): int {
    match t
    case Queued => 0
    case Waiting => 1
    case Admitted => 2
    case _ => 3
  }

  ghost function Levels(tasks: seq<Task>): (s: seq<int>)
    ensures |s| == |tasks|
  {
    seq(|tasks|, i requires 0 <= i < |tasks| => Level(tasks[i]))
  }

  ghost function Work(s: State): int {
    s.submitted + Total(Levels(s.tasks)) + 3 * s.pos
      + (match s.stage case Announce => 0 case Await => 1 case Decode => 2)
  }

  lemma LevelsUpdate(tasks: seq<Task>, p: nat, t: Task)
    requires p < |tasks|
    ensures Total(Levels(tasks[p := t])) == Total(Levels(tasks)) - Level(tasks[p]) + Level(t)
  {
    assert Levels(tasks[p := t]) == Levels(tasks)[p := Level(t)];
    TotalUpdate(Levels(tasks), p, Level(t));
  }

  lemma WorkStep(c: Config, s: State, step: Step)
    requires Inv(c, s) && Enabled(c, s, step)
    ensures Work(Next(c, s, step)) == Work(s) + 1
  {
    match step
    case Start => LevelsUpdate(s.tasks, s.started, Waiting);
    case Admit(p) => LevelsUpdate(s.tasks, p, Admitted);
    case Finish(p) => LevelsUpdate(s.tasks, p, Fetched);
    case Release => LevelsUpdate(s.tasks, s.pos, Released);
    case _ =>
  }

  lemma {:induction false} WorkCounts(c: Config, s: State, steps: seq<Step>)
    requires Inv(c, s) && IsRun(c, s, steps)
    ensures Work(After(c, s, steps)) == Work(s) + |steps|
    decreases |steps|
  {
    if steps != [] {
      InvStep(c, s, steps[0]);
      WorkStep(c, s, steps[0]);
      WorkCounts(c, Next(c, s, steps[0]), steps[1..]);
    }
  }

  ghost predicate CannotGoOn(c: Config, s: State)
    requires |s.tasks| == |c.sizes|
  {
    forall step :: !Enabled(c, s, step)
  }

  lemma WorkBounds(c: Config, s: State)
    requires Inv(c, s)
    ensures Work(s) <= 7 * |c.sizes|
    ensures Work(s) == 7 * |c.sizes| ==> Final(c, s)
  {
    TotalBounds(Levels(s.tasks), 0, 3);
  }

  lemma FinalIsFull(c: Config, s: State)
    requires Inv(c, s) && Final(c, s)
    ensures Work(s) == 7 * |c.sizes| && s.bytes == 0 && CannotGoOn(c, s)
  {
    TotalBounds(Levels(s.tasks), 3, 3);
    TotalBounds(HeldSizes(c, s.tasks), 0, 0);
  }

  /** With at least one worker, any budget and any sizes: no run takes more than seven steps
      per entry, and a run that cannot be continued has taken exactly that many and has
      decoded every entry. */
  lemma EveryRunCompletes(c: Config, steps: seq<Step>)
    requires c.workers >= 1 && IsRun(c, Init(c), steps)
    ensures |steps| <= 7 * |c.sizes|
    ensures var s := After(c, Init(c), steps);
      && (CannotGoOn(c, s) <==> Final(c, s))
      && (Final(c, s) <==> |steps| == 7 * |c.sizes|)
      && (Final(c, s) ==> s.bytes == 0)
  {
    var s := After(c, Init(c), steps);
    InitInv(c);
    RunKeepsInv(c, Init(c), steps);
    WorkCounts(c, Init(c), steps);
    TotalBounds(Levels(Init(c).tasks), 0, 0);
    WorkBounds(c, s);
    NeverStuck(c, s);
    if Final(c, s) {
      FinalIsFull(c, s);
    }
  }

  // ---- after the consumer fails, only the pool goes on, and the run waits for it

  ghost predicate OfPool(step: Step) {
    step.Start? || step.Admit? || step.Finish?
  }

  ghost predicate Unadmitted(t: Task) {
    t == Queued || t == Waiting
  }

  /** The consumer has stopped at an entry whose fetch was over: nothing before it is left. */
  ghost predicate Aborted(c: Config, s: State) {
    && Inv(c, s) && s.submitted == |s.tasks|
    && forall p | 0 <= p < |s.tasks| && p <= s.head :: !Unadmitted(s.tasks[p])
  }

  ghost function ComingSizes(c: Config, tasks: seq<Task>): (s: seq<int>)
    requires |tasks| == |c.sizes|
    ensures |s| == |tasks|
  {
    seq(|tasks|, i requires 0 <= i < |tasks| => if Unadmitted(tasks[i]) then c.sizes[i] else 0)
  }

  /** The sizes of the entries no worker has been allowed to fetch yet. */
  ghost function Coming(c: Config, tasks: seq<Task>): int
    requires |tasks| == |c.sizes|
  {
    Total(ComingSizes(c, tasks))
  }

  ghost predicate AllAdmitted(s: State) {
    forall p | 0 <= p < |s.tasks| :: !Unadmitted(s.tasks[p])
  }

  /** Every task of the pool is over. */
  ghost predicate Drained(s: State) {
    forall p | 0 <= p < |s.tasks| :: s.tasks[p] == Fetched || s.tasks[p] == Released
  }

  /** Nothing waits for the budget, or all that does fits beside what is never released. */
  ghost predicate Fits(c: Config, s: State)
    requires |s.tasks| == |c.sizes|
  {
    AllAdmitted(s) || s.bytes + Coming(c, s.tasks) <= c.budget
  }

  lemma ComingUpdate(c: Config, tasks: seq<Task>, p: nat, t: Task)
    requires |tasks| == |c.sizes| && p < |tasks|
    ensures Coming(c, tasks[p := t]) ==
      Coming(c, tasks) - (if Unadmitted(tasks[p]) then c.sizes[p] else 0) + (if Unadmitted(t) then c.sizes[p] else 0)
  {
    var v := if Unadmitted(t) then c.sizes[p] else 0;
    assert ComingSizes(c, tasks[p := t]) == ComingSizes(c, tasks)[p := v];
    TotalUpdate(ComingSizes(c, tasks), p, v);
  }

  lemma NothingComing(c: Config, s: State)
    requires |s.tasks| == |c.sizes| && AllAdmitted(s)
    ensures Coming(c, s.tasks) == 0
  {
    TotalBounds(ComingSizes(c, s.tasks), 0, 0);
  }

  lemma OneComing(c: Config, tasks: seq<Task>, p: nat)
    requires |tasks| == |c.sizes| && p < |tasks| && Unadmitted(tasks[p])
    ensures c.sizes[p] <= Coming(c, tasks)
  {
    assert ComingSizes(c, tasks)[p] == c.sizes[p];
    TotalAtLeast(ComingSizes(c, tasks), p);
  }

  /** Without releases, the held and the coming bytes together never change, and whether they
      fit never changes either: the last admission checks exactly that. */
  lemma PoolStepKeeps(c: Config, s: State, step: Step)
    requires Aborted(c, s) && Enabled(c, s, step) && OfPool(step)
    ensures Aborted(c, Next(c, s, step))
    ensures Fits(c, Next(c, s, step)) <==> Fits(c, s)
  {
    InvStep(c, s, step);
    var r := Next(c, s, step);
    match step
    case Start =>
      ComingUpdate(c, s.tasks, s.started, Waiting);
      assert Unadmitted(s.tasks[s.started]) && Unadmitted(r.tasks[s.started]);
    case Admit(p) =>
      ComingUpdate(c, s.tasks, p, Admitted);
      assert Unadmitted(s.tasks[p]);
      if AllAdmitted(r) {
        NothingComing(c, r);
      }
    case Finish(p) =>
      ComingUpdate(c, s.tasks, p, Fetched);
      assert forall i | 0 <= i < |s.tasks| :: Unadmitted(r.tasks[i]) <==> Unadmitted(s.tasks[i]);
  }

  ghost predicate PoolRun(c: Config, s: State, steps: seq<Step>)
    requires |s.tasks| == |c.sizes|
  {
    IsRun(c, s, steps) && forall step | step in steps :: OfPool(step)
  }

  lemma {:induction false} PoolRunKeeps(c: Config, s: State, steps: seq<Step>)
    requires Aborted(c, s) && PoolRun(c, s, steps)
    ensures Aborted(c, After(c, s, steps))
    ensures Fits(c, After(c, s, steps)) <==> Fits(c, s)
    decreases |steps|
  {
    if steps != [] {
      assert steps[0] in steps;
      PoolStepKeeps(c, s, steps[0]);
      PoolRunKeeps(c, Next(c, s, steps[0]), steps[1..]);
    }
  }

  lemma PoolCanStep(c: Config, s: State) returns (step: Step)
    requires Aborted(c, s) && Fits(c, s) && !Drained(s) && c.workers >= 1
    ensures OfPool(step) && Enabled(c, s, step)
  {
    if p :| 0 <= p < |s.tasks| && s.tasks[p] == Admitted {
      step := Finish(p);
    } else if p :| 0 <= p < |s.tasks| && s.tasks[p] == Waiting {
      OneComing(c, s.tasks, p);
      assert Unadmitted(s.tasks[p]);
      step := Admit(p);
    } else {
      TotalBounds(BusyMarks(s.tasks), 0, 0);
      step := Start;
    }
  }

  lemma {:induction false} PoolDrains(c: Config, s: State) returns (steps: seq<Step>)
    requires Aborted(c, s) && Fits(c, s) && c.workers >= 1
    ensures PoolRun(c, s, steps) && Drained(After(c, s, steps))
    decreases 7 * |c.sizes| - Work(s)
  {
    if Drained(s) {
      steps := [];
    } else {
      var step := PoolCanStep(c, s);
      PoolStepKeeps(c, s, step);
      WorkStep(c, s, step);
      WorkBounds(c, Next(c, s, step));
      var rest := PoolDrains(c, Next(c, s, step));
      steps := [step] + rest;
      assert steps[1..] == rest;
    }
  }

  /** When an aborted run ends: its pool can drain if and only if whatever still waits for the
      budget fits beside the bytes that no one will release. In that case every way the pool
      goes on leads there; otherwise none does and the run waits for ever. */
  lemma AbortDrainsIffFits(c: Config, s: State)
    requires Aborted(c, s) && c.workers >= 1
    ensures (exists steps :: PoolRun(c, s, steps) && Drained(After(c, s, steps))) <==> Fits(c, s)
    ensures Fits(c, s) ==> forall steps | PoolRun(c, s, steps) && !Drained(After(c, s, steps)) ::
      exists step :: OfPool(step) && Enabled(c, After(c, s, steps), step)
  {
    if Fits(c, s) {
      var steps := PoolDrains(c, s);
    }
    forall steps | PoolRun(c, s, steps)
      ensures Drained(After(c, s, steps)) ==> Fits(c, s)
      ensures Fits(c, s) && !Drained(After(c, s, steps)) ==>
        exists step :: OfPool(step) && Enabled(c, After(c, s, steps), step)
    {
      PoolRunKeeps(c, s, steps);
      if Fits(c, s) && !Drained(After(c, s, steps)) {
        var step := PoolCanStep(c, After(c, s, steps));
      }
    }
  }

  ghost predicate CanEnd(c: Config, s: State)
    requires |s.tasks| == |c.sizes|
  {
    exists steps :: PoolRun(c, s, steps) && Drained(After(c, s, steps))
  }

  lemma {:induction false} TotalOfTwo(a: seq<int>, b: seq<int>, s: seq<int>)
    requires |a| == |b| == |s| && forall i | 0 <= i < |s| :: a[i] + b[i] <= s[i]
    ensures Total(a) + Total(b) <= Total(s)
  {
    if s != [] {
      var n := |s| - 1;
      TotalOfTwo(a[..n], b[..n], s[..n]);
    }
  }

  lemma AbortFits(c: Config, s: State)
    requires Aborted(c, s) && (|c.sizes| <= 1 || Total(c.sizes) <= c.budget)
    ensures Fits(c, s)
  {
    if |c.sizes| > 1 {
      TotalOfTwo(HeldSizes(c, s.tasks), ComingSizes(c, s.tasks), c.sizes);
    }
  }

  lemma NobodyStarted(c: Config)
    ensures Busy(Init(c).tasks) == 0
  {
    TotalBounds(BusyMarks(Init(c).tasks), 0, 0);
  }

  lemma RunFromNothing(c: Config, s: State)
    requires |s.tasks| == |c.sizes|
    ensures IsRun(c, s, []) && After(c, s, []) == s
  {
  }

  lemma RunBack(c: Config, s: State, step: Step, next: State, rest: seq<Step>) returns (steps: seq<Step>)
    requires |s.tasks| == |c.sizes| == |next.tasks| && Enabled(c, s, step) && IsRun(c, next, rest)
    requires Next(c, s, step).tasks == next.tasks && Next(c, s, step) == next.(tasks := Next(c, s, step).tasks)
    ensures steps == [step] + rest && IsRun(c, s, steps) && After(c, s, steps) == After(c, next, rest)
  {
    steps := [step] + rest;
    assert steps[1..] == rest && Next(c, s, step) == next;
  }

  /** All submitted, the first one downloaded, no other started. */
  lemma FirstFetched(c: Config) returns (steps: seq<Step>, s: State)
    requires c.workers >= 1 && |c.sizes| >= 2
    ensures IsRun(c, Init(c), steps) && s == After(c, Init(c), steps)
    ensures s == State(|c.sizes|, 1, Init(c).tasks[0 := Fetched], c.sizes[0], 0, 0, Await)
  {
    hide Held, Busy, IsRun, After;
    var n, queued := |c.sizes|, Init(c).tasks;
    var s2 := State(n, 0, queued, 0, 0, 0, Announce);
    NobodyStarted(c);
    var s3 := State(n, 1, queued[0 := Waiting], 0, 0, 0, Announce);
    var s4 := State(n, 1, queued[0 := Admitted], c.sizes[0], 0, 0, Announce);
    var s5 := State(n, 1, queued[0 := Fetched], c.sizes[0], 0, 0, Announce);
    s := s5.(stage := Await);
    steps := [];
    RunFromNothing(c, s);
    steps := RunBack(c, s5, SetHead, s, steps);
    steps := RunBack(c, s4, Finish(0), s5, steps);
    steps := RunBack(c, s3, Admit(0), s4, steps);
    steps := RunBack(c, s2, Start, s3, steps);
    for i := n downto 0
      invariant IsRun(c, s2.(submitted := i), steps) && After(c, s2.(submitted := i), steps) == s
    {
      steps := RunBack(c, s2.(submitted := i), Submit, s2.(submitted := i + 1), steps);
    }
    assert Init(c) == s2.(submitted := 0);
  }

  /** The first entry fails while it holds its bytes and before the second is admitted. */
  lemma HangingRun(c: Config) returns (steps: seq<Step>)
    requires c.workers >= 1 && |c.sizes| >= 2 && Total(c.sizes) > c.budget
    ensures IsRun(c, Init(c), steps)
    ensures Aborted(c, After(c, Init(c), steps)) && !Fits(c, After(c, Init(c), steps))
  {
    var s: State;
    steps, s := FirstFetched(c);
    InitInv(c);
    RunKeepsInv(c, Init(c), steps);
    hide Inv, IsRun, After;
    assert Unadmitted(s.tasks[1]);
    assert ComingSizes(c, s.tasks) == c.sizes[0 := 0];
    TotalUpdate(c.sizes, 0, 0);
  }

  /** No failure, whenever it comes, leaves the run waiting for ever if there is one entry at
      most or if all entries fit the budget together. In every other case some failure does. */
  lemma EveryAbortEndsIffAllFit(c: Config)
    requires c.workers >= 1
    ensures |c.sizes| <= 1 || Total(c.sizes) <= c.budget <==>
      forall steps | IsRun(c, Init(c), steps) && Aborted(c, After(c, Init(c), steps)) ::
        CanEnd(c, After(c, Init(c), steps))
  {
    hide IsRun, After, Aborted, Drained;
    if |c.sizes| <= 1 || Total(c.sizes) <= c.budget {
      forall steps | IsRun(c, Init(c), steps) && Aborted(c, After(c, Init(c), steps))
        ensures CanEnd(c, After(c, Init(c), steps))
      {
        AbortFits(c, After(c, Init(c), steps));
        AbortDrainsIffFits(c, After(c, Init(c), steps));
      }
    } else {
      var steps := HangingRun(c);
      AbortDrainsIffFits(c, After(c, Init(c), steps));
    }
  }
}
