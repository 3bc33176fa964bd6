/** The ramp: start workloads batch by batch until something says stop.  Starts
    run concurrently with each other and with a watcher of the host's memory;
    all of them read and set one flag that halts further starts. */
module BenchRamp {
  import opened Text
  import opened Common
  import opened BenchStart
  import Density

  datatype Config = Config(
    cap: nat, step: nat, concurrency: nat, sample: nat, limit: nat,
    required: bool)   // a lost memory reading halts too, as in a run without a cap

  // ------------------------------------------- one batch, and the watcher

  datatype Task = Waiting | InFlight | Ended(result: Started)

  /** Where the watcher is between its stores. */
  datatype Watch = Idle | SawLimit | StoredOver | LostReading | StoredUnavailable

  datatype Shared = Shared(halt: bool, over: bool, unavailable: bool, peak: nat, watch: Watch)

  const QUIET := Shared(false, false, false, 0, Idle)

  datatype Batch = Batch(shared: Shared, tasks: seq<Task>)

  datatype Action =
    | Begin(i: nat)                       // the next start looks at the flag, and goes out
    | End(i: nat, result: Started)        // a start comes back
    | Sample(footprint: Option<nat>)      // the watcher reads the footprint
    | Store                               // the watcher's next store

  function CountInFlight(tasks: seq<Task>): nat {
    if tasks == [] then 0 else CountInFlight(tasks[..|tasks| - 1]) + if tasks[|tasks| - 1].InFlight? then 1 else 0
  }

  predicate MayBegin(cfg: Config, b: Batch, i: nat) {
    && i < |b.tasks| && b.tasks[i] == Waiting
    && (forall j | 0 <= j < i :: b.tasks[j] != Waiting)
    && CountInFlight(b.tasks) < if cfg.concurrency == 0 then 1 else cfg.concurrency
  }

  function BeginTask(b: Batch, i: nat): Batch
    requires i < |b.tasks|
  {
    b.(tasks := b.tasks[i := if b.shared.halt then Ended(Skipped) else InFlight])
  }

  function EndTask(b: Batch, i: nat, result: Started): Batch
    requires i < |b.tasks|
  {
    Batch(b.shared.(halt := b.shared.halt || result in {Refused, Unanswered}), b.tasks[i := Ended(result)])
  }

  function WatchStep(cfg: Config, s: Shared, a: Action): Shared {
    match a
    case Sample(Some(f)) =>
      if s.watch != Idle then s
      else s.(peak := if f > s.peak then f else s.peak, watch := if f >= cfg.limit then SawLimit else Idle)
    case Sample(None) => if s.watch == Idle && cfg.required then s.(watch := LostReading) else s
    case Store =>
      (match s.watch
       case Idle => s
       case SawLimit => s.(over := true, watch := StoredOver)
       case StoredOver => s.(halt := true, watch := Idle)
       case LostReading => s.(unavailable := true, watch := StoredUnavailable)
       case StoredUnavailable => s.(halt := true, watch := Idle))
    case _ => s
  }

  /** An action that is not possible changes nothing. */
  function Step(cfg: Config, b: Batch, a: Action): Batch {
    match a
    case Begin(i) => if MayBegin(cfg, b, i) then BeginTask(b, i) else b
    case End(i, result) =>
      if i < |b.tasks| && b.tasks[i] == InFlight && result != Skipped then EndTask(b, i, result) else b
    case _ => b.(shared := WatchStep(cfg, b.shared, a))
  }

  function Steps(cfg: Config, b: Batch, schedule: seq<Action>): Batch
    decreases |schedule|
  {
    if schedule == [] then b else Steps(cfg, Step(cfg, b, schedule[0]), schedule[1..])
  }

  /** The starts the schedule left out: those in flight come back, then the
      waiting ones go out and come back one after another. */
  function Land(b: Batch, rest: nat -> Started, i: nat): Batch
    decreases |b.tasks| - i
  {
    if i >= |b.tasks| then b
    else
      var result := if rest(i) == Skipped then Failed else rest(i);
      Land(if b.tasks[i] == InFlight then EndTask(b, i, result) else b, rest, i + 1)
  }

  function Drain(b: Batch, rest: nat -> Started, i: nat): Batch
    decreases |b.tasks| - i
  {
    if i >= |b.tasks| then b
    else
      var result := if rest(i) == Skipped then Failed else rest(i);
      var c := if b.tasks[i] == Waiting then BeginTask(b, i) else b;
      Drain(if c.tasks[i] == InFlight then EndTask(c, i, result) else c, rest, i + 1)
  }

  /** `start_batch` with `n` starts: any interleaving, run to its end. */
  function RunBatch(cfg: Config, s: Shared, n: nat, schedule: seq<Action>, rest: nat -> Started): Batch {
    Drain(Land(Steps(cfg, Batch(s, seq(n, i => Waiting)), schedule), rest, 0), rest, 0)
  }

  // --------------------------------------------------------- what it keeps

  /** The watcher's flags mean what they say. */
  predicate WatchOk(cfg: Config, s: Shared) {
    && (s.over || s.watch in {SawLimit, StoredOver} ==> s.peak >= cfg.limit)
    && (s.watch == StoredOver ==> s.over)
    && (s.unavailable || s.watch in {LostReading, StoredUnavailable} ==> cfg.required)
    && (s.watch == StoredUnavailable ==> s.unavailable)
  }

  predicate Stops(t: Task) {
    t in {Ended(Refused), Ended(Unanswered)}
  }

  /** The flag is up only for a reason that stays visible, and only a raised
      flag makes a start skip. */
  ghost predicate BatchOk(cfg: Config, b: Batch) {
    && WatchOk(cfg, b.shared)
    && (b.shared.halt ==> b.shared.over || b.shared.unavailable || exists i :: 0 <= i < |b.tasks| && Stops(b.tasks[i]))
    && (forall i | 0 <= i < |b.tasks| :: b.tasks[i] == Ended(Skipped) ==> b.shared.halt)
  }

  lemma BeginKeeps(cfg: Config, b: Batch, i: nat)
    requires BatchOk(cfg, b) && i < |b.tasks| && b.tasks[i] == Waiting
    ensures BatchOk(cfg, BeginTask(b, i))
  {
    var c := BeginTask(b, i);
    if j :| 0 <= j < |b.tasks| && Stops(b.tasks[j]) {
      assert Stops(c.tasks[j]);
    }
  }

  lemma EndKeeps(cfg: Config, b: Batch, i: nat, result: Started)
    requires BatchOk(cfg, b) && i < |b.tasks| && b.tasks[i] == InFlight && result != Skipped
    ensures BatchOk(cfg, EndTask(b, i, result))
  {
    var c := EndTask(b, i, result);
    if j :| 0 <= j < |b.tasks| && Stops(b.tasks[j]) {
      assert Stops(c.tasks[j]);
    }
    if result in {Refused, Unanswered} {
      assert Stops(c.tasks[i]);
    }
  }

  lemma StepKeeps(cfg: Config, b: Batch, a: Action)
    requires BatchOk(cfg, b)
    ensures BatchOk(cfg, Step(cfg, b, a)) && |Step(cfg, b, a).tasks| == |b.tasks|
  {
    match a
    case Begin(i) => if MayBegin(cfg, b, i) { BeginKeeps(cfg, b, i); }
    case End(i, result) =>
      if i < |b.tasks| && b.tasks[i] == InFlight && result != Skipped { EndKeeps(cfg, b, i, result); }
    case _ =>
  }

  lemma {:induction false} StepsKeep(cfg: Config, b: Batch, schedule: seq<Action>)
    requires BatchOk(cfg, b)
    ensures BatchOk(cfg, Steps(cfg, b, schedule)) && |Steps(cfg, b, schedule).tasks| == |b.tasks|
    decreases |schedule|
  {
    if schedule != [] {
      StepKeeps(cfg, b, schedule[0]);
      StepsKeep(cfg, Step(cfg, b, schedule[0]), schedule[1..]);
    }
  }

  lemma {:induction false} LandKeeps(cfg: Config, b: Batch, rest: nat -> Started, i: nat)
    requires BatchOk(cfg, b) && forall j | 0 <= j < i && j < |b.tasks| :: b.tasks[j] != InFlight
    ensures var c := Land(b, rest, i);
            BatchOk(cfg, c) && |c.tasks| == |b.tasks| && forall j | 0 <= j < |c.tasks| :: c.tasks[j] != InFlight
    decreases |b.tasks| - i
  {
    if i < |b.tasks| {
      var result := if rest(i) == Skipped then Failed else rest(i);
      var c := if b.tasks[i] == InFlight then EndTask(b, i, result) else b;
      if b.tasks[i] == InFlight { EndKeeps(cfg, b, i, result); }
      LandKeeps(cfg, c, rest, i + 1);
    }
  }

  lemma {:induction false} DrainKeeps(cfg: Config, b: Batch, rest: nat -> Started, i: nat)
    requires BatchOk(cfg, b) && forall j | 0 <= j < i && j < |b.tasks| :: b.tasks[j].Ended?
    ensures var c := Drain(b, rest, i);
            BatchOk(cfg, c) && |c.tasks| == |b.tasks| && forall j | 0 <= j < |c.tasks| :: c.tasks[j].Ended?
    decreases |b.tasks| - i
  {
    if i < |b.tasks| {
      var result := if rest(i) == Skipped then Failed else rest(i);
      var c := if b.tasks[i] == Waiting then BeginTask(b, i) else b;
      if b.tasks[i] == Waiting { BeginKeeps(cfg, b, i); }
      var d := if c.tasks[i] == InFlight then EndTask(c, i, result) else c;
      if c.tasks[i] == InFlight { EndKeeps(cfg, c, i, result); }
      DrainKeeps(cfg, d, rest, i + 1);
    }
  }

  /** Nothing but the watcher has raised the flag. */
  predicate SharedOk(cfg: Config, s: Shared) {
    WatchOk(cfg, s) && (s.halt ==> s.over || s.unavailable)
  }

  lemma BatchEnds(cfg: Config, s: Shared, n: nat, schedule: seq<Action>, rest: nat -> Started)
    requires SharedOk(cfg, s)
    ensures var b := RunBatch(cfg, s, n, schedule, rest);
            BatchOk(cfg, b) && |b.tasks| == n && forall i | 0 <= i < n :: b.tasks[i].Ended?
  {
    var b := Batch(s, seq(n, i => Waiting));
    StepsKeep(cfg, b, schedule);
    LandKeeps(cfg, Steps(cfg, b, schedule), rest, 0);
    DrainKeeps(cfg, Land(Steps(cfg, b, schedule), rest, 0), rest, 0);
  }

  lemma {:induction false} EndedStays(cfg: Config, b: Batch, schedule: seq<Action>)
    requires forall i | 0 <= i < |b.tasks| :: b.tasks[i].Ended?
    ensures Steps(cfg, b, schedule).tasks == b.tasks
    decreases |schedule|
  {
    if schedule != [] {
      EndedStays(cfg, Step(cfg, b, schedule[0]), schedule[1..]);
    }
  }

  // -------------------------------------------------------------- the ramp

  datatype Stop =
    | AtCap | MemoryLimit | StartRefused | StartsUnanswered | WarmupFailed | SampleFailed | StartsFailed
    | Unmeasured   // the run ends in an error: a required reading was lost

  /** Everything outside the bench during one turn: how the batch interleaves
      and what its starts come back with, what the watcher does after it, the
      footprint read at the end, and how many requests fail. */
  datatype Turn = Turn(
    schedule: seq<Action>, rest: nat -> Started, tail: seq<Action>,
    footprint: Option<nat>, warmupFailed: nat, sampleFailed: nat)

  /** `running` holds the indices of the live workloads; `batches` is history. */
  datatype Ramp = Ramp(shared: Shared, running: seq<nat>, nextIndex: nat, batches: nat, stop: Option<Stop>)

  const START := Ramp(QUIET, [], 0, 0, None)

  function Attempted(cfg: Config, running: nat): nat
    requires running < cfg.cap
  {
    var n := Min(cfg.step, cfg.cap - running);
    if n < 1 then 1 else n
  }

  function Count(tasks: seq<Task>, r: Started): nat {
    if tasks == [] then 0 else Count(tasks[..|tasks| - 1], r) + if tasks[|tasks| - 1] == Ended(r) then 1 else 0
  }

  /** The indices of the starts that came back live, sorted. */
  function LiveIndices(tasks: seq<Task>, first: nat): seq<nat> {
    if tasks == [] then []
    else
      var n := |tasks| - 1;
      LiveIndices(tasks[..n], first) + if tasks[n] == Ended(Live) then [first + n] else []
  }

  /** The checks at the end of a turn, in order. */
  function StopReason(cfg: Config, s: Shared, tasks: seq<Task>, running: nat, turn: Turn): Option<Stop> {
    if s.unavailable then Some(Unmeasured)
    else if turn.footprint.Some? && turn.footprint.value >= cfg.limit then Some(MemoryLimit)
    else if s.over && s.peak > 0 then Some(MemoryLimit)
    else if Count(tasks, Refused) > 0 then Some(StartRefused)
    else if Count(tasks, Unanswered) > 0 then Some(StartsUnanswered)
    else if turn.warmupFailed > 0 then Some(WarmupFailed)
    else if turn.sampleFailed * 2 > Min(cfg.sample, running) then Some(SampleFailed)
    else if Count(tasks, Failed) > 0 && Count(tasks, Failed) * 2 > |tasks| then Some(StartsFailed)
    else None
  }

  /** One turn of the ramp loop. */
  function TakeTurn(cfg: Config, r: Ramp, turn: Turn): Ramp {
    if r.stop.Some? then r
    else if |r.running| >= cfg.cap then r.(stop := Some(AtCap))
    else if r.shared.unavailable then r.(stop := Some(Unmeasured))
    else
      var n := Attempted(cfg, |r.running|);
      var b := RunBatch(cfg, r.shared, n, turn.schedule, turn.rest);
      var after := Steps(cfg, b, turn.tail).shared;
      var running := r.running + LiveIndices(b.tasks, r.nextIndex);
      Ramp(after, running, r.nextIndex + n, r.batches + 1, StopReason(cfg, after, b.tasks, |running|, turn))
  }

  /** The ramp after `k` turns in an arbitrary world. */
  function RampAfter(cfg: Config, world: nat -> Turn, k: nat): Ramp {
    if k == 0 then START else TakeTurn(cfg, RampAfter(cfg, world, k - 1), world(k - 1))
  }

  // ------------------------------------------------- counting one batch

  lemma {:induction false} EveryStartIsCounted(tasks: seq<Task>)
    requires forall i | 0 <= i < |tasks| :: tasks[i].Ended?
    ensures |tasks| == Count(tasks, Live) + Count(tasks, Refused) + Count(tasks, Unanswered) + Count(tasks, Failed) + Count(tasks, Skipped)
  {
    if tasks != [] {
      var n := |tasks| - 1;
      EveryStartIsCounted(tasks[..n]);
      match tasks[n].result case Live => case Refused => case Unanswered => case Failed => case Skipped =>
    }
  }

  lemma {:induction false} CountZeroIff(tasks: seq<Task>, r: Started)
    ensures Count(tasks, r) == 0 <==> forall i | 0 <= i < |tasks| :: tasks[i] != Ended(r)
  {
    if tasks != [] {
      CountZeroIff(tasks[..|tasks| - 1], r);
    }
  }

  /** The live indices are ascending, within the batch, as many as live starts,
      and exactly theirs. */
  ghost predicate IndexesLive(s: seq<nat>, tasks: seq<Task>, first: nat) {
    && Ascending(s) && |s| == Count(tasks, Live)
    && (forall i | 0 <= i < |s| :: first <= s[i] < first + |tasks|)
    && forall k | 0 <= k < |tasks| :: tasks[k] == Ended(Live) <==> first + k in s
  }

  lemma {:induction false} LiveIndicesWork(tasks: seq<Task>, first: nat)
    ensures IndexesLive(LiveIndices(tasks, first), tasks, first)
  {
    if tasks != [] {
      var n := |tasks| - 1;
      LiveIndicesWork(tasks[..n], first);
      if tasks[n] == Ended(Live) {
        OneMoreLive(LiveIndices(tasks[..n], first), tasks, first);
      } else {
        OneMoreIdle(LiveIndices(tasks[..n], first), tasks, first);
      }
    }
  }

  lemma OneMoreLive(s: seq<nat>, tasks: seq<Task>, first: nat)
    requires tasks != [] && IndexesLive(s, tasks[..|tasks| - 1], first) && tasks[|tasks| - 1] == Ended(Live)
    ensures IndexesLive(s + [first + |tasks| - 1], tasks, first)
  {
    var n := |tasks| - 1;
    AppendAscending(s, [first + n], first + n);
    assert (s + [first + n])[|s|] == first + n;
  }

  lemma OneMoreIdle(s: seq<nat>, tasks: seq<Task>, first: nat)
    requires tasks != [] && IndexesLive(s, tasks[..|tasks| - 1], first) && tasks[|tasks| - 1] != Ended(Live)
    ensures IndexesLive(s, tasks, first)
  {
    assert first + |tasks| - 1 !in s;
  }

  /** After a turn that does not stop the run, only the watcher can have raised
      the flag. */
  lemma UnstoppedTurnIsQuiet(cfg: Config, b: Batch, tail: seq<Action>, running: nat, turn: Turn)
    requires BatchOk(cfg, b) && forall i | 0 <= i < |b.tasks| :: b.tasks[i].Ended?
    requires StopReason(cfg, Steps(cfg, b, tail).shared, b.tasks, running, turn) == None
    ensures BatchOk(cfg, Steps(cfg, b, tail)) && SharedOk(cfg, Steps(cfg, b, tail).shared)
  {
    StepsKeep(cfg, b, tail);
    EndedStays(cfg, b, tail);
    CountZeroIff(b.tasks, Refused);
    CountZeroIff(b.tasks, Unanswered);
    assert forall i | 0 <= i < |b.tasks| :: !Stops(b.tasks[i]);
  }

  /** A turn that does not stop the run skipped no start, and at least half of
      what it attempted came back live. */
  lemma UnstoppedTurnMakesProgress(cfg: Config, b: Batch, tail: seq<Action>, running: nat, turn: Turn)
    requires cfg.limit > 0 && BatchOk(cfg, b) && forall i | 0 <= i < |b.tasks| :: b.tasks[i].Ended?
    requires StopReason(cfg, Steps(cfg, b, tail).shared, b.tasks, running, turn) == None
    ensures Count(b.tasks, Skipped) == 0 && 2 * Count(b.tasks, Live) >= |b.tasks|
  {
    UnstoppedTurnIsQuiet(cfg, b, tail, running, turn);
    EndedStays(cfg, b, tail);
    CountZeroIff(b.tasks, Refused);
    CountZeroIff(b.tasks, Unanswered);
    CountZeroIff(b.tasks, Skipped);
    assert !Steps(cfg, b, tail).shared.over;
    EveryStartIsCounted(b.tasks);
  }

  // ------------------------------------------------------------ every turn

  /** The running workloads are within the cap and in ascending order. */
  ghost predicate RunningOk(cfg: Config, r: Ramp) {
    && |r.running| <= cfg.cap
    && Ascending(r.running)
    && (forall i | 0 <= i < |r.running| :: r.running[i] < r.nextIndex)
    && (r.stop.None? ==> SharedOk(cfg, r.shared))
  }

  lemma TurnKeepsRunning(cfg: Config, r: Ramp, turn: Turn)
    requires RunningOk(cfg, r)
    ensures RunningOk(cfg, TakeTurn(cfg, r, turn))
  {
    if r.stop.None? && |r.running| < cfg.cap && !r.shared.unavailable {
      var n := Attempted(cfg, |r.running|);
      var b := RunBatch(cfg, r.shared, n, turn.schedule, turn.rest);
      var live := LiveIndices(b.tasks, r.nextIndex);
      BatchEnds(cfg, r.shared, n, turn.schedule, turn.rest);
      LiveIndicesWork(b.tasks, r.nextIndex);
      EveryStartIsCounted(b.tasks);
      AppendAscending(r.running, live, r.nextIndex);
      if TakeTurn(cfg, r, turn).stop.None? {
        UnstoppedTurnIsQuiet(cfg, b, turn.tail, |r.running + live|, turn);
      }
    }
  }

  /** Whatever the limit. */
  lemma {:induction false} RampKeepsRunning(cfg: Config, world: nat -> Turn, k: nat)
    ensures RunningOk(cfg, RampAfter(cfg, world, k))
  {
    if k > 0 {
      RampKeepsRunning(cfg, world, k - 1);
      TurnKeepsRunning(cfg, RampAfter(cfg, world, k - 1), world(k - 1));
    }
  }

  ghost predicate RampOk(cfg: Config, r: Ramp) {
    && RunningOk(cfg, r)
    && (r.stop.None? ==> r.batches <= |r.running| && r.nextIndex <= 2 * |r.running|)
    && (r.stop.Some? ==> r.batches <= cfg.cap && r.nextIndex <= 2 * |r.running| + (if cfg.step < 1 then 1 else cfg.step))
  }

  lemma TurnKeeps(cfg: Config, r: Ramp, turn: Turn)
    requires cfg.limit > 0 && RampOk(cfg, r)
    ensures RampOk(cfg, TakeTurn(cfg, r, turn))
    ensures r.stop.None? ==> TakeTurn(cfg, r, turn).stop.Some? || |TakeTurn(cfg, r, turn).running| > |r.running|
  {
    TurnKeepsRunning(cfg, r, turn);
    if r.stop.None? && |r.running| < cfg.cap && !r.shared.unavailable {
      var n := Attempted(cfg, |r.running|);
      var b := RunBatch(cfg, r.shared, n, turn.schedule, turn.rest);
      BatchEnds(cfg, r.shared, n, turn.schedule, turn.rest);
      LiveIndicesWork(b.tasks, r.nextIndex);
      var next := TakeTurn(cfg, r, turn);
      if next.stop.None? {
        UnstoppedTurnMakesProgress(cfg, b, turn.tail, |next.running|, turn);
      }
    }
  }

  lemma AppendAscending(a: seq<nat>, b: seq<nat>, first: nat)
    requires Ascending(a) && Ascending(b)
    requires (forall i | 0 <= i < |a| :: a[i] < first) && (forall i | 0 <= i < |b| :: first <= b[i])
    ensures Ascending(a + b)
  {
  }

  lemma {:induction false} RampKeeps(cfg: Config, world: nat -> Turn, k: nat)
    requires cfg.limit > 0
    ensures RampOk(cfg, RampAfter(cfg, world, k))
    ensures RampAfter(cfg, world, k).stop.None? ==> |RampAfter(cfg, world, k).running| >= k
  {
    if k > 0 {
      RampKeeps(cfg, world, k - 1);
      TurnKeeps(cfg, RampAfter(cfg, world, k - 1), world(k - 1));
    }
  }

  /** In every world, with a cap and a positive limit: each turn stops the run or
      adds at least one live workload; the run is over after at most `cap`
      batches; the live workloads never exceed the cap, and their indices are
      ascending across batches. */
  lemma RampTerminates(cfg: Config, world: nat -> Turn, k: nat)
    requires cfg.limit > 0
    ensures var r, next := RampAfter(cfg, world, k), RampAfter(cfg, world, k + 1);
            && (r.stop.Some? || next.stop.Some? || |next.running| > |r.running|)
            && |r.running| <= cfg.cap && Ascending(r.running) && r.batches <= cfg.cap
            && (k > cfg.cap ==> r.stop.Some?)
  {
    RampKeeps(cfg, world, k);
    TurnKeeps(cfg, RampAfter(cfg, world, k), world(k));
  }

  /** After every turn the sample that is sent requests is of workloads that are
      running, each once, the newest among them, and of the size against which
      the failures are held. */
  lemma RampSamplesRunning(cfg: Config, world: nat -> Turn, k: nat)
    ensures var running := RampAfter(cfg, world, k).running;
            Density.Represents(Density.Sample(running, cfg.sample), running, cfg.sample)
  {
    RampKeepsRunning(cfg, world, k);
    Density.SampleIsOfRunning(RampAfter(cfg, world, k).running, cfg.sample);
  }

  /** Without a positive limit it need not: a watcher that once read a footprint
      of zero halts every start, with no peak to show for it. */
  lemma ZeroLimitCanStall(cfg: Config, n: nat)
    requires cfg.limit == 0 && cfg.cap > 0
    ensures var turn := Turn([Sample(Some(0)), Store, Store], i => Live, [], None, 0, 0);
            var r := RampAfter(cfg, (k: nat) => turn, n);
            r.running == [] && r.stop == None
  {
    var turn := Turn([Sample(Some(0)), Store, Store], i => Live, [], None, 0, 0);
    StalledAfter(cfg, turn, n);
  }

  lemma {:induction false} StalledAfter(cfg: Config, turn: Turn, n: nat)
    requires cfg.limit == 0 && cfg.cap > 0
    requires turn.schedule == [Sample(Some(0)), Store, Store] && turn.tail == []
    requires turn.footprint == None && turn.warmupFailed == 0 && turn.sampleFailed == 0
    ensures Stalled(RampAfter(cfg, (k: nat) => turn, n)) || (n == 0 && RampAfter(cfg, (k: nat) => turn, n) == START)
  {
    if n > 0 {
      StalledAfter(cfg, turn, n - 1);
      StalledTurn(cfg, RampAfter(cfg, (k: nat) => turn, n - 1), turn);
    }
  }

  const HALTED := Shared(true, true, false, 0, Idle)

  predicate Stalled(r: Ramp) {
    r.running == [] && r.stop == None && r.shared == HALTED
  }

  lemma StalledTurn(cfg: Config, r: Ramp, turn: Turn)
    requires cfg.limit == 0 && cfg.cap > 0
    requires turn.schedule == [Sample(Some(0)), Store, Store] && turn.tail == []
    requires turn.footprint == None && turn.warmupFailed == 0 && turn.sampleFailed == 0
    requires Stalled(r) || r == START
    ensures Stalled(TakeTurn(cfg, r, turn))
  {
    var n := Attempted(cfg, 0);
    SkippedBatch(cfg, r.shared, n, turn.schedule, turn.rest);
    NothingStarted(n, r.nextIndex);
  }

  lemma NothingStarted(n: nat, first: nat)
    ensures var tasks := seq(n, i => Ended(Skipped));
            && Count(tasks, Refused) == Count(tasks, Unanswered) == Count(tasks, Failed) == 0
            && LiveIndices(tasks, first) == []
  {
    var tasks := seq(n, i => Ended(Skipped));
    CountZeroIff(tasks, Refused);
    CountZeroIff(tasks, Unanswered);
    CountZeroIff(tasks, Failed);
    CountZeroIff(tasks, Live);
    LiveIndicesWork(tasks, first);
  }

  lemma SkippedBatch(cfg: Config, s: Shared, n: nat, schedule: seq<Action>, rest: nat -> Started)
    requires cfg.limit == 0 && schedule == [Sample(Some(0)), Store, Store] && (s == QUIET || s == HALTED)
    ensures RunBatch(cfg, s, n, schedule, rest) == Batch(HALTED, seq(n, i => Ended(Skipped)))
  {
    var b := Batch(s, seq(n, i => Waiting));
    HaltedByWatcher(cfg, b, schedule);
    AllSkipped(Batch(HALTED, b.tasks), rest, 0);
    assert b.tasks[..0] + seq(n, i => Ended(Skipped)) == seq(n, i => Ended(Skipped));
  }

  lemma HaltedByWatcher(cfg: Config, b: Batch, schedule: seq<Action>)
    requires cfg.limit == 0 && schedule == [Sample(Some(0)), Store, Store]
    requires b.shared == QUIET || b.shared == HALTED
    ensures Steps(cfg, b, schedule) == Batch(HALTED, b.tasks)
  {
    var b1 := Step(cfg, b, schedule[0]);
    var b2 := Step(cfg, b1, Store);
    assert Step(cfg, b2, Store) == Batch(HALTED, b.tasks);
    assert schedule[1..] == [Store, Store] && [Store, Store][1..] == [Store] && [Store][1..] == [];
    assert Steps(cfg, b2, [Store]) == Steps(cfg, Batch(HALTED, b.tasks), []);
    assert Steps(cfg, b1, [Store, Store]) == Steps(cfg, b2, [Store]);
  }

  lemma {:induction false} AllSkipped(b: Batch, rest: nat -> Started, i: nat)
    requires b.shared.halt && i <= |b.tasks|
    requires forall j | i <= j < |b.tasks| :: b.tasks[j] == Waiting
    ensures Land(b, rest, i) == b
    ensures Drain(b, rest, i) == b.(tasks := b.tasks[..i] + seq(|b.tasks| - i, j => Ended(Skipped)))
    decreases |b.tasks| - i
  {
    if i < |b.tasks| {
      var c := BeginTask(b, i);
      LandSkips(b, rest, i);
      AllSkipped(c, rest, i + 1);
      assert c.tasks[..i + 1] + seq(|b.tasks| - i - 1, j => Ended(Skipped)) == b.tasks[..i] + seq(|b.tasks| - i, j => Ended(Skipped));
    } else {
      assert b.tasks[..i] + [] == b.tasks;
    }
  }

  lemma {:induction false} LandSkips(b: Batch, rest: nat -> Started, i: nat)
    requires forall j | i <= j < |b.tasks| :: b.tasks[j] != InFlight
    ensures Land(b, rest, i) == b
    decreases |b.tasks| - i
  {
    if i < |b.tasks| {
      LandSkips(b, rest, i + 1);
    }
  }

  predicate EndsInTime(cfg: Config, world: nat -> Turn) {
    RampAfter(cfg, world, cfg.cap + 1).stop.Some?
  }

  /** The run ends in every world if and only if the limit is positive or there
      is nothing to start. */
  lemma RampTerminatesIff(cfg: Config)
    ensures (forall world :: EndsInTime(cfg, world)) <==> cfg.limit > 0 || cfg.cap == 0
  {
    if cfg.limit > 0 {
      forall world ensures EndsInTime(cfg, world) {
        RampTerminates(cfg, world, cfg.cap + 1);
      }
    } else if cfg.cap == 0 {
      forall world ensures EndsInTime(cfg, world) {
        assert RampAfter(cfg, world, 0) == START;
      }
    } else {
      var turn := Turn([Sample(Some(0)), Store, Store], i => Live, [], None, 0, 0);
      ZeroLimitCanStall(cfg, cfg.cap + 1);
      assert !EndsInTime(cfg, (k: nat) => turn);
    }
  }

  // ------------------------------------------------------------ why it stops

  /** What one turn does, as far as it gets: the batch, the watcher's flags after
      it, and the workloads then running. */
  function BatchOf(cfg: Config, r: Ramp, turn: Turn): Batch
    requires |r.running| < cfg.cap
  {
    RunBatch(cfg, r.shared, Attempted(cfg, |r.running|), turn.schedule, turn.rest)
  }

  function RunningAfter(cfg: Config, r: Ramp, turn: Turn): seq<nat>
    requires |r.running| < cfg.cap
  {
    r.running + LiveIndices(BatchOf(cfg, r, turn).tasks, r.nextIndex)
  }

  ghost predicate Ends(tasks: seq<Task>, result: Started) {
    exists i :: 0 <= i < |tasks| && tasks[i] == Ended(result)
  }

  /** The cause that each way to stop stands for. */
  ghost predicate Cause(stop: Stop, cfg: Config, r: Ramp, turn: Turn) {
    if stop == AtCap then |r.running| >= cfg.cap
    else
      && |r.running| < cfg.cap
      && var tasks := BatchOf(cfg, r, turn).tasks;
         var after := Steps(cfg, BatchOf(cfg, r, turn), turn.tail).shared;
         match stop
         case Unmeasured => r.shared.unavailable || after.unavailable
         case MemoryLimit => (turn.footprint.Some? && turn.footprint.value >= cfg.limit) || (after.over && after.peak > 0)
         case StartRefused => Ends(tasks, Refused)
         case StartsUnanswered => Ends(tasks, Unanswered)
         case WarmupFailed => turn.warmupFailed > 0
         case SampleFailed => 2 * turn.sampleFailed > |Density.Sample(RunningAfter(cfg, r, turn), cfg.sample)|
         case StartsFailed => 2 * Count(tasks, Failed) > |tasks|
  }

  /** Which of two causes is reported. */
  function Rank(stop: Stop): nat {
    match stop
    case AtCap => 0
    case Unmeasured => 1
    case MemoryLimit => 2
    case StartRefused => 3
    case StartsUnanswered => 4
    case WarmupFailed => 5
    case SampleFailed => 6
    case StartsFailed => 7
  }

  ghost predicate NothingBefore(stop: Stop, cfg: Config, r: Ramp, turn: Turn) {
    forall other | Rank(other) < Rank(stop) :: !Cause(other, cfg, r, turn)
  }

  lemma EndsIffCounted(tasks: seq<Task>, result: Started)
    ensures Ends(tasks, result) <==> Count(tasks, result) > 0
  {
    CountZeroIff(tasks, result);
  }

  lemma SampleSize(running: seq<nat>, requested: nat)
    ensures |Density.Sample(running, requested)| == Min(requested, |running|)
  {
    Density.SpreadSpans(|running|, requested);
  }

  /** The end of a turn that starts a batch, one cause at a time. */
  lemma ReasonIffCause(cfg: Config, r: Ramp, turn: Turn, stop: Stop)
    requires |r.running| < cfg.cap && !r.shared.unavailable
    ensures var b := BatchOf(cfg, r, turn);
            StopReason(cfg, Steps(cfg, b, turn.tail).shared, b.tasks, |RunningAfter(cfg, r, turn)|, turn) == Some(stop) <==>
            Cause(stop, cfg, r, turn) && NothingBefore(stop, cfg, r, turn)
  {
    var tasks := BatchOf(cfg, r, turn).tasks;
    EndsIffCounted(tasks, Refused);
    EndsIffCounted(tasks, Unanswered);
    SampleSize(RunningAfter(cfg, r, turn), cfg.sample);
    CausesInOrder(cfg, r, turn, stop);
  }

  /** The causes ranked before `stop`, spelled out. */
  lemma CausesInOrder(cfg: Config, r: Ramp, turn: Turn, stop: Stop)
    ensures NothingBefore(stop, cfg, r, turn) <==>
            && (Rank(stop) > 0 ==> !Cause(AtCap, cfg, r, turn))
            && (Rank(stop) > 1 ==> !Cause(Unmeasured, cfg, r, turn))
            && (Rank(stop) > 2 ==> !Cause(MemoryLimit, cfg, r, turn))
            && (Rank(stop) > 3 ==> !Cause(StartRefused, cfg, r, turn))
            && (Rank(stop) > 4 ==> !Cause(StartsUnanswered, cfg, r, turn))
            && (Rank(stop) > 5 ==> !Cause(WarmupFailed, cfg, r, turn))
            && (Rank(stop) > 6 ==> !Cause(SampleFailed, cfg, r, turn))
  {
  }

  /** A turn stops the run for a reason exactly when that is the first of the
      causes that hold. */
  lemma StopsIffCause(cfg: Config, r: Ramp, turn: Turn, stop: Stop)
    requires r.stop == None
    ensures TakeTurn(cfg, r, turn).stop == Some(stop) <==> Cause(stop, cfg, r, turn) && NothingBefore(stop, cfg, r, turn)
  {
    CausesInOrder(cfg, r, turn, stop);
    if |r.running| < cfg.cap && !r.shared.unavailable {
      ReasonIffCause(cfg, r, turn, stop);
    }
  }

  /** And goes on exactly when none of them does: the readings are there and below
      the limit, no start was refused or unanswered, no warm-up failed, and at
      most half of the sample and half of the starts failed. */
  lemma GoesOnIffNoCause(cfg: Config, r: Ramp, turn: Turn)
    requires r.stop == None
    ensures TakeTurn(cfg, r, turn).stop == None <==> forall stop :: !Cause(stop, cfg, r, turn)
  {
    if TakeTurn(cfg, r, turn).stop == None {
      forall stop ensures !Cause(stop, cfg, r, turn) {
        NoCauseUpTo(cfg, r, turn, stop);
      }
    } else {
      StopsIffCause(cfg, r, turn, TakeTurn(cfg, r, turn).stop.value);
    }
  }

  lemma {:induction false} NoCauseUpTo(cfg: Config, r: Ramp, turn: Turn, stop: Stop)
    requires r.stop == None && TakeTurn(cfg, r, turn).stop == None
    ensures !Cause(stop, cfg, r, turn)
    decreases Rank(stop)
  {
    forall other | Rank(other) < Rank(stop) ensures !Cause(other, cfg, r, turn) {
      NoCauseUpTo(cfg, r, turn, other);
    }
    StopsIffCause(cfg, r, turn, stop);
  }

  /** A turn attempts as many starts as the step and the cap allow, and one at
      least. */
  lemma AttemptsWhatFits(cfg: Config, running: nat)
    requires running < cfg.cap
    ensures var n := Attempted(cfg, running);
            && 1 <= n <= cfg.cap - running && (cfg.step > 0 ==> n <= cfg.step)
            && (n == cfg.cap - running || n == cfg.step || (n == 1 && cfg.step == 0))
  {
  }

  // ----------------------------------------------------------- what the flag does

  /** Under a raised flag no start goes out, whatever is scheduled; and the flag
      stays up. */
  lemma {:induction false} HaltedSendsNothing(cfg: Config, b: Batch, schedule: seq<Action>)
    requires b.shared.halt
    ensures var c := Steps(cfg, b, schedule);
            c.shared.halt && |c.tasks| == |b.tasks|
            && forall i | 0 <= i < |b.tasks| :: c.tasks[i] == InFlight ==> b.tasks[i] == InFlight
    decreases |schedule|
  {
    if schedule != [] {
      HaltedSendsNothing(cfg, Step(cfg, b, schedule[0]), schedule[1..]);
    }
  }

  /** So a batch that begins under it skips all of its starts. */
  lemma HaltedBatchSkips(cfg: Config, s: Shared, n: nat, schedule: seq<Action>, rest: nat -> Started, i: nat)
    requires s.halt && SharedOk(cfg, s) && i < n
    ensures var tasks := RunBatch(cfg, s, n, schedule, rest).tasks; |tasks| == n && tasks[i] == Ended(Skipped)
  {
    var b := Batch(s, seq(n, i => Waiting));
    NothingEverLands(cfg, b, schedule);
    var c := Steps(cfg, b, schedule);
    LandSkips(c, rest, 0);
    DrainSkips(c, rest, 0, i);
    BatchEnds(cfg, s, n, schedule, rest);
  }

  lemma {:induction false} NothingEverLands(cfg: Config, b: Batch, schedule: seq<Action>)
    requires b.shared.halt && forall i | 0 <= i < |b.tasks| :: b.tasks[i] in {Waiting, Ended(Skipped)}
    ensures var c := Steps(cfg, b, schedule);
            c.shared.halt && |c.tasks| == |b.tasks| && forall i | 0 <= i < |c.tasks| :: c.tasks[i] in {Waiting, Ended(Skipped)}
    decreases |schedule|
  {
    if schedule != [] {
      NothingEverLands(cfg, Step(cfg, b, schedule[0]), schedule[1..]);
    }
  }

  lemma {:induction false} DrainSkips(b: Batch, rest: nat -> Started, i: nat, k: nat)
    requires b.shared.halt && k < |b.tasks| && forall j | 0 <= j < |b.tasks| :: b.tasks[j] in {Waiting, Ended(Skipped)}
    requires k < i ==> b.tasks[k] == Ended(Skipped)
    ensures |Drain(b, rest, i).tasks| == |b.tasks| && Drain(b, rest, i).tasks[k] == Ended(Skipped)
    decreases |b.tasks| - i
  {
    if i < |b.tasks| {
      DrainSkips(if b.tasks[i] == Waiting then BeginTask(b, i) else b, rest, i + 1, k);
    }
  }

  /** Without it, a start that is its turn goes out, and what it comes back with is
      its result; a refused or unanswered one raises the flag, and no other does. */
  lemma StartGoesOutAndComesBack(cfg: Config, b: Batch, i: nat, result: Started)
    requires !b.shared.halt && MayBegin(cfg, b, i) && result != Skipped
    ensures var c := Step(cfg, b, Begin(i));
            c.shared == b.shared && c.tasks == b.tasks[i := InFlight]
    ensures var d := Step(cfg, Step(cfg, b, Begin(i)), End(i, result));
            d.tasks == b.tasks[i := Ended(result)] && (d.shared.halt <==> result == Refused || result == Unanswered)
  {
  }

  /** At most the configured number of starts is under way at once. */
  lemma {:induction false} InFlightIsBounded(cfg: Config, b: Batch, schedule: seq<Action>)
    requires CountInFlight(b.tasks) <= cfg.concurrency || CountInFlight(b.tasks) <= 1
    ensures var n := CountInFlight(Steps(cfg, b, schedule).tasks); n <= cfg.concurrency || n <= 1
    decreases |schedule|
  {
    if schedule != [] {
      var a := schedule[0];
      if a.Begin? && MayBegin(cfg, b, a.i) {
        CountOneChanged(b.tasks, a.i, if b.shared.halt then Ended(Skipped) else InFlight);
      } else if a.End? && a.i < |b.tasks| {
        CountOneChanged(b.tasks, a.i, Ended(a.result));
      }
      InFlightIsBounded(cfg, Step(cfg, b, a), schedule[1..]);
    }
  }

  lemma {:induction false} CountOneChanged(tasks: seq<Task>, i: nat, t: Task)
    requires i < |tasks|
    ensures CountInFlight(tasks[i := t]) ==
            CountInFlight(tasks) + (if t.InFlight? then 1 else 0) - (if tasks[i].InFlight? then 1 else 0)
  {
    var n := |tasks| - 1;
    if i < n {
      assert tasks[i := t][..n] == tasks[..n][i := t];
      CountOneChanged(tasks[..n], i, t);
    } else {
      assert tasks[i := t][..n] == tasks[..n];
    }
  }

  /** A reading at or over the limit is remembered, and raises the flag in two
      stores; one below it does not.  A lost one does if it is required. */
  lemma WatcherRaisesFlag(cfg: Config, s: Shared, footprint: Option<nat>)
    requires s.watch == Idle
    ensures var t := WatchStep(cfg, WatchStep(cfg, WatchStep(cfg, s, Sample(footprint)), Store), Store);
            && t.watch == Idle
            && (t.halt <==> s.halt || (footprint.Some? && footprint.value >= cfg.limit) || (footprint.None? && cfg.required))
            && (t.over <==> s.over || (footprint.Some? && footprint.value >= cfg.limit))
            && (t.unavailable <==> s.unavailable || (footprint.None? && cfg.required))
            && t.peak >= s.peak && (footprint.Some? ==> t.peak >= footprint.value)
            && (t.peak == s.peak || footprint == Some(t.peak))
  {
  }

  // -------------------------------------------------------------- the loop

  /** One turn: what to attempt, the batch, and the checks. */
  method RunTurn(cfg: Config, r: Ramp, turn: Turn) returns (next: Ramp)
    requires r.stop == None
    ensures next == TakeTurn(cfg, r, turn)
  {
    if |r.running| >= cfg.cap {
      return r.(stop := Some(AtCap));
    }
    if r.shared.unavailable {
      return r.(stop := Some(Unmeasured));
    }
    var room := cfg.cap - |r.running|;
    var attempted := if cfg.step < room then cfg.step else room;
    if attempted < 1 {
      attempted := 1;
    }
    var batch := RunBatch(cfg, r.shared, attempted, turn.schedule, turn.rest);
    var running := r.running + LiveIndices(batch.tasks, r.nextIndex);
    var shared := Steps(cfg, batch, turn.tail).shared;
    next := Ramp(shared, running, r.nextIndex + attempted, r.batches + 1, None);
    if shared.unavailable {
      next := next.(stop := Some(Unmeasured));
    } else if (turn.footprint.Some? && turn.footprint.value >= cfg.limit) || (shared.over && shared.peak > 0) {
      next := next.(stop := Some(MemoryLimit));
    } else if Count(batch.tasks, Refused) > 0 {
      next := next.(stop := Some(StartRefused));
    } else if Count(batch.tasks, Unanswered) > 0 {
      next := next.(stop := Some(StartsUnanswered));
    } else if turn.warmupFailed > 0 {
      next := next.(stop := Some(WarmupFailed));
    } else if turn.sampleFailed * 2 > Min(cfg.sample, |running|) {
      next := next.(stop := Some(SampleFailed));
    } else if Count(batch.tasks, Failed) > 0 && Count(batch.tasks, Failed) * 2 > |batch.tasks| {
      next := next.(stop := Some(StartsFailed));
    }
  }

  /** What the loop keeps: it follows the ramp, and each turn adds a workload
      until one of them stops it. */
  ghost predicate LoopOk(cfg: Config, world: nat -> Turn, turns: nat, r: Ramp) {
    && r == RampAfter(cfg, world, turns)
    && RampOk(cfg, r)
    && (r.stop.None? ==> turns <= |r.running|)
    && (r.stop.Some? ==> 0 < turns <= cfg.cap + 1 && RampAfter(cfg, world, turns - 1).stop == None)
    && (r.stop == Some(AtCap) ==> |r.running| == cfg.cap)
  }

  lemma StopsAtCapOnly(cfg: Config, r: Ramp, turn: Turn)
    requires r.stop == None && |r.running| <= cfg.cap
    ensures TakeTurn(cfg, r, turn).stop == Some(AtCap) ==> |TakeTurn(cfg, r, turn).running| == cfg.cap
  {
  }

  lemma LoopStep(cfg: Config, world: nat -> Turn, turns: nat, r: Ramp, next: Ramp)
    requires (cfg.limit > 0 || cfg.cap == 0) && LoopOk(cfg, world, turns, r) && r.stop.None?
    requires next == TakeTurn(cfg, r, world(turns))
    ensures LoopOk(cfg, world, turns + 1, next)
    ensures next.stop.Some? || |r.running| < |next.running| <= cfg.cap
  {
    if cfg.limit > 0 {
      TurnKeeps(cfg, r, world(turns));
    }
    StopsAtCapOnly(cfg, r, world(turns));
  }

  method TurnInLoop(cfg: Config, world: nat -> Turn, turns: nat, r: Ramp) returns (next: Ramp)
    requires (cfg.limit > 0 || cfg.cap == 0) && LoopOk(cfg, world, turns, r) && r.stop.None?
    ensures LoopOk(cfg, world, turns + 1, next)
    ensures next.stop.Some? || |r.running| < |next.running| <= cfg.cap
  {
    next := RunTurn(cfg, r, world(turns));
    LoopStep(cfg, world, turns, r, next);
  }

  method Loop(cfg: Config, world: nat -> Turn) returns (r: Ramp, turns: nat)
    requires cfg.limit > 0 || cfg.cap == 0
    ensures LoopOk(cfg, world, turns, r) && r.stop.Some?
  {
    r := START;
    turns := 0;
    while r.stop.None?
      invariant LoopOk(cfg, world, turns, r)
      decreases r.stop.None?, cfg.cap - |r.running|
    {
      r := TurnInLoop(cfg, world, turns, r);
      turns := turns + 1;
    }
  }

  /** The measurement loop: it ends, in the state the ramp's turns lead to,
      having stopped for the reason the last of them gave.  It requires what it
      takes to end at all, by `RampTerminatesIff`. */
  method MeasureFlavour(cfg: Config, world: nat -> Turn) returns (stop: Stop, running: seq<nat>, turns: nat)
    requires cfg.limit > 0 || cfg.cap == 0
    ensures RampAfter(cfg, world, turns).stop == Some(stop) && RampAfter(cfg, world, turns).running == running
    ensures 0 < turns <= cfg.cap + 1 && RampAfter(cfg, world, turns - 1).stop == None
    ensures Cause(stop, cfg, RampAfter(cfg, world, turns - 1), world(turns - 1))
    ensures |running| <= cfg.cap && Ascending(running)
    ensures stop == AtCap ==> |running| == cfg.cap
  {
    var r, n := Loop(cfg, world);
    StopsIffCause(cfg, RampAfter(cfg, world, n - 1), world(n - 1), r.stop.value);
    return r.stop.value, r.running, n;
  }
}
