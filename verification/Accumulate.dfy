/** Any number of order handlers adding to one key's running total, under
    at-least-once delivery.  Each handler reads the entry, decides, and writes
    only if the entry's revision is still the one it read.  A run is any
    sequence of actions; an action that is not possible changes nothing, so the
    theorems below hold over every interleaving. */
module Accumulate {
  import opened Text
  import opened Common
  import opened OrderTotals

  datatype Entry = Entry(value: string, revision: nat)

  /** Where a handler is.  `base` and `at` are history: how many sequences were
      counted when it read, and by the total it returned. */
  datatype Phase =
    | Reading
    | Writing(read: Option<Entry>, next: Total, base: nat)
    | Finished(running: nat, at: nat)
    | GaveUp     // a fifth write found another revision
    | Failed     // any other error

  /** `since` is history: how many sequences were counted when it was delivered. */
  datatype Handler = Handler(sequence: nat, attempt: nat, phase: Phase, since: nat)

  /** `counted` is history: the sequences whose amount went into the entry. */
  datatype State = State(entry: Option<Entry>, lastRevision: nat, handlers: map<nat, Handler>, counted: seq<nat>)

  datatype Action =
    | Deliver(h: nat, sequence: nat)          // a delivery or a redelivery
    | Read(h: nat)
    | ReadError(h: nat)
    | Write(h: nat, revision: nat)            // the write is applied, and acknowledged
    | WriteUnheard(h: nat, revision: nat)     // applied, but the reply is an error
    | WriteError(h: nat)                      // not applied, and an error
    | WriteRefused(h: nat, mismatch: bool)    // another revision; reported as such or as another error

  const INIT := State(None, 0, map[], [])
  const MAX_ATTEMPTS := 5

  function SetPhase(s: State, h: nat, phase: Phase): State
    requires h in s.handlers
  {
    s.(handlers := s.handlers[h := s.handlers[h].(phase := phase)])
  }

  /** The compare of the compare-and-swap: `create` needs the key absent,
      `update` needs the revision that was read. */
  predicate Unchanged(s: State, read: Option<Entry>) {
    match read
    case None => s.entry.None?
    case Some(e) => s.entry.Some? && s.entry.value.revision == e.revision
  }

  predicate IsWriting(s: State, h: nat) {
    h in s.handlers && s.handlers[h].phase.Writing?
  }

  predicate WriteApplies(s: State, h: nat, revision: nat) {
    IsWriting(s, h) && Unchanged(s, s.handlers[h].phase.read) && revision > s.lastRevision
  }

  function Existing(s: State): Option<Total> {
    if s.entry.Some? then ParseTotal(s.entry.value.value) else None
  }

  function Decide(order: nat -> nat, s: State, existing: Option<Total>, sequence: nat): Phase {
    if existing.Some? && sequence <= existing.value.lastSequence
    then Finished(existing.value.running, |s.counted|)
    else
      var before := if existing.Some? then existing.value.running else 0;
      Writing(s.entry, Total(SaturatingAdd(before, order(sequence)), sequence), |s.counted|)
  }

  function Commit(s: State, h: nat, revision: nat): State
    requires IsWriting(s, h)
  {
    s.(entry := Some(Entry(EncodeTotal(s.handlers[h].phase.next), revision)),
       lastRevision := revision,
       counted := s.counted + [s.handlers[h].sequence])
  }

  /** After a write that found another revision: try again up to five times, if
      that is what the error said. */
  function Refused(h: Handler, mismatch: bool): Handler {
    if !mismatch then h.(phase := Failed)
    else if h.attempt >= MAX_ATTEMPTS then h.(phase := GaveUp)
    else h.(phase := Reading, attempt := h.attempt + 1)
  }

  /** One action; `order` gives each stream sequence its order's amount. */
  function Next(order: nat -> nat, s: State, a: Action): State {
    match a
    case Deliver(h, sequence) =>
      if h in s.handlers || !IsU64(sequence) then s
      else s.(handlers := s.handlers[h := Handler(sequence, 1, Reading, |s.counted|)])
    case Read(h) =>
      if h !in s.handlers || !s.handlers[h].phase.Reading? then s
      else SetPhase(s, h, Decide(order, s, Existing(s), s.handlers[h].sequence))
    case ReadError(h) =>
      if h !in s.handlers || !s.handlers[h].phase.Reading? then s else SetPhase(s, h, Failed)
    case Write(h, revision) =>
      if !WriteApplies(s, h, revision) then s
      else SetPhase(Commit(s, h, revision), h, Finished(s.handlers[h].phase.next.running, |s.counted| + 1))
    case WriteUnheard(h, revision) =>
      if !WriteApplies(s, h, revision) then s else SetPhase(Commit(s, h, revision), h, Failed)
    case WriteError(h) =>
      if !IsWriting(s, h) then s else SetPhase(s, h, Failed)
    case WriteRefused(h, mismatch) =>
      if !IsWriting(s, h) || Unchanged(s, s.handlers[h].phase.read) then s
      else s.(handlers := s.handlers[h := Refused(s.handlers[h], mismatch)])
  }

  function Run(order: nat -> nat, actions: seq<Action>): State {
    if actions == [] then INIT
    else Next(order, Run(order, actions[..|actions| - 1]), actions[|actions| - 1])
  }

  // ------------------------------------------------------------ the invariant

  function Sum(order: nat -> nat, counted: seq<nat>): nat {
    if counted == [] then 0 else Sum(order, counted[..|counted| - 1]) + order(counted[|counted| - 1])
  }

  /** The sum of the counted amounts, held at the largest 64-bit value. */
  function Saturated(order: nat -> nat, counted: seq<nat>): (r: nat)
    ensures r <= U64_MAX
  {
    var n := Sum(order, counted);
    if n <= U64_MAX then n else U64_MAX
  }

  /** `entry` holds exactly the total of `counted` and its newest sequence. */
  ghost predicate Holds(order: nat -> nat, entry: Option<Entry>, counted: seq<nat>) {
    if counted == [] then entry.None?
    else entry.Some? &&
         entry.value.value == EncodeTotal(Total(Saturated(order, counted), counted[|counted| - 1]))
  }

  ghost predicate HandlerOk(order: nat -> nat, s: State, h: Handler) {
    && IsU64(h.sequence) && 1 <= h.attempt <= MAX_ATTEMPTS
    && h.since + h.attempt - 1 <= |s.counted|
    && match h.phase
       case Writing(read, next, base) =>
         && h.since + h.attempt - 1 <= base <= |s.counted|
         && Holds(order, read, s.counted[..base])
         && (read.Some? ==> read.value.revision <= s.lastRevision)
         && (base == |s.counted| ==> s.entry == read)
         && (base < |s.counted| ==> !Unchanged(s, read))
         && (base > 0 ==> s.counted[base - 1] < h.sequence)
         && next == Total(SaturatingAdd(Saturated(order, s.counted[..base]), order(h.sequence)), h.sequence)
       case Finished(running, at) =>
         && 0 < at <= |s.counted|
         && running == Saturated(order, s.counted[..at])
         && h.sequence <= s.counted[at - 1]
       case GaveUp => h.since + MAX_ATTEMPTS <= |s.counted|
       case _ => true
  }

  ghost predicate Inv(order: nat -> nat, s: State) {
    && Ascending(s.counted)
    && (forall i | 0 <= i < |s.counted| :: IsU64(s.counted[i]))
    && Holds(order, s.entry, s.counted)
    && (s.entry.Some? ==> s.entry.value.revision <= s.lastRevision)
    && (forall h | h in s.handlers :: HandlerOk(order, s, s.handlers[h]))
  }

  lemma SumStep(order: nat -> nat, counted: seq<nat>, x: nat)
    ensures Sum(order, counted + [x]) == Sum(order, counted) + order(x)
    ensures Saturated(order, counted + [x]) == SaturatingAdd(Saturated(order, counted), order(x))
  {
    assert (counted + [x])[..|counted|] == counted;
  }

  /** What the counted sequences come to, as a reader should find it. */
  function TotalOf(order: nat -> nat, counted: seq<nat>): Option<Total> {
    if counted == [] then None else Some(Total(Saturated(order, counted), counted[|counted| - 1]))
  }

  lemma ReadsBack(order: nat -> nat, s: State)
    requires Inv(order, s)
    ensures Existing(s) == TotalOf(order, s.counted)
  {
    if s.counted != [] {
      TotalRoundTrip(Total(Saturated(order, s.counted), s.counted[|s.counted| - 1]));
    }
  }

  /** Another handler's write leaves a handler's facts in place. */
  lemma HandlerFrame(order: nat -> nat, s: State, h: Handler, entry: Entry, x: nat)
    requires HandlerOk(order, s, h) && entry.revision > s.lastRevision
    ensures HandlerOk(order, s.(entry := Some(entry), lastRevision := entry.revision, counted := s.counted + [x]), h)
  {
    match h.phase
    case Writing(read, next, base) => assert (s.counted + [x])[..base] == s.counted[..base];
    case Finished(running, at) => assert (s.counted + [x])[..at] == s.counted[..at];
    case _ =>
  }

  lemma CommitKeepsInv(order: nat -> nat, s: State, h: nat, revision: nat, phase: Phase)
    requires Inv(order, s) && WriteApplies(s, h, revision)
    requires phase == Failed || phase == Finished(s.handlers[h].phase.next.running, |s.counted| + 1)
    ensures Inv(order, SetPhase(Commit(s, h, revision), h, phase))
  {
    var hd, t := s.handlers[h], Commit(s, h, revision);
    CommitHolds(order, s, h, revision);
    forall k | k in s.handlers ensures HandlerOk(order, t, s.handlers[k]) {
      HandlerFrame(order, s, s.handlers[k], t.entry.value, hd.sequence);
    }
    assert t.counted[..|t.counted|] == t.counted;
    PhaseKeepsInv(order, t, h, hd.(phase := phase));
  }

  /** A write applies only to the very entry its writer read. */
  lemma WriterIsCurrent(order: nat -> nat, s: State, h: nat, revision: nat)
    requires Inv(order, s) && WriteApplies(s, h, revision)
    ensures var hd := s.handlers[h];
            && hd.phase.base == |s.counted| && s.entry == hd.phase.read && IsU64(hd.sequence)
            && (s.counted != [] ==> s.counted[|s.counted| - 1] < hd.sequence)
            && hd.phase.next == Total(SaturatingAdd(Saturated(order, s.counted), order(hd.sequence)), hd.sequence)
  {
    assert HandlerOk(order, s, s.handlers[h]);
    assert s.counted[..|s.counted|] == s.counted;
  }

  /** And extends the total it read. */
  lemma CommitHolds(order: nat -> nat, s: State, h: nat, revision: nat)
    requires Inv(order, s) && WriteApplies(s, h, revision)
    ensures s.entry == s.handlers[h].phase.read
    ensures var t := Commit(s, h, revision);
            && Ascending(t.counted) && Holds(order, t.entry, t.counted)
            && s.handlers[h].phase.next.running == Saturated(order, t.counted)
  {
    WriterIsCurrent(order, s, h, revision);
    SumStep(order, s.counted, s.handlers[h].sequence);
    AppendAscending(s.counted, s.handlers[h].sequence);
  }

  lemma AppendAscending(counted: seq<nat>, q: nat)
    requires Ascending(counted) && (counted != [] ==> counted[|counted| - 1] < q)
    ensures Ascending(counted + [q])
  {
    forall i, j | 0 <= i < j < |counted + [q]| ensures (counted + [q])[i] < (counted + [q])[j] {
      if j == |counted| && i < j - 1 {
        assert counted[i] < counted[j - 1];
      }
    }
  }

  /** A handler's facts depend on the shared part of the state alone. */
  lemma HandlersOnly(order: nat -> nat, s: State, t: State)
    requires t == s.(handlers := t.handlers)
    ensures forall h :: HandlerOk(order, s, h) <==> HandlerOk(order, t, h)
  {
  }

  lemma DecideOk(order: nat -> nat, s: State, h: Handler)
    requires Inv(order, s) && HandlerOk(order, s, h)
    ensures HandlerOk(order, s, h.(phase := Decide(order, s, TotalOf(order, s.counted), h.sequence)))
  {
    assert s.counted[..|s.counted|] == s.counted;
  }

  /** Changing one handler's phase keeps the invariant if the phase is in order. */
  lemma PhaseKeepsInv(order: nat -> nat, s: State, h: nat, hd: Handler)
    requires Inv(order, s) && HandlerOk(order, s, hd)
    ensures Inv(order, s.(handlers := s.handlers[h := hd]))
  {
    HandlersOnly(order, s, s.(handlers := s.handlers[h := hd]));
  }

  lemma ReadKeepsInv(order: nat -> nat, s: State, h: nat)
    requires Inv(order, s) && h in s.handlers
    ensures Inv(order, SetPhase(s, h, Decide(order, s, Existing(s), s.handlers[h].sequence)))
  {
    ReadsBack(order, s);
    DecideOk(order, s, s.handlers[h]);
    PhaseKeepsInv(order, s, h, s.handlers[h].(phase := Decide(order, s, Existing(s), s.handlers[h].sequence)));
  }

  lemma WriteKeepsInv(order: nat -> nat, s: State, a: Action)
    requires Inv(order, s) && (a.Write? || a.WriteUnheard?)
    ensures Inv(order, Next(order, s, a))
  {
    if WriteApplies(s, a.h, a.revision) {
      CommitKeepsInv(order, s, a.h, a.revision,
                     if a.Write? then Finished(s.handlers[a.h].phase.next.running, |s.counted| + 1) else Failed);
    }
  }

  lemma FailKeepsInv(order: nat -> nat, s: State, h: nat)
    requires Inv(order, s) && h in s.handlers
    ensures Inv(order, SetPhase(s, h, Failed))
  {
    assert HandlerOk(order, s, s.handlers[h]);
    PhaseKeepsInv(order, s, h, s.handlers[h].(phase := Failed));
  }

  lemma StepKeepsInv(order: nat -> nat, s: State, a: Action)
    requires Inv(order, s)
    ensures Inv(order, Next(order, s, a))
  {
    match a
    case Deliver(h, sequence) =>
      if h !in s.handlers && IsU64(sequence) {
        PhaseKeepsInv(order, s, h, Handler(sequence, 1, Reading, |s.counted|));
      }
    case Read(h) =>
      if h in s.handlers {
        ReadKeepsInv(order, s, h);
      }
    case Write(_, _) => WriteKeepsInv(order, s, a);
    case WriteUnheard(_, _) => WriteKeepsInv(order, s, a);
    case WriteRefused(h, mismatch) =>
      if IsWriting(s, h) && !Unchanged(s, s.handlers[h].phase.read) {
        RefusedKeepsInv(order, s, h, mismatch);
      }
    case _ =>
      if a.h in s.handlers {
        FailKeepsInv(order, s, a.h);
      }
  }

  /** A refusal means that another sequence was counted since this one read. */
  lemma RefusedOk(order: nat -> nat, s: State, h: Handler, mismatch: bool)
    requires HandlerOk(order, s, h) && h.phase.Writing? && !Unchanged(s, h.phase.read)
    ensures h.phase.base < |s.counted| && HandlerOk(order, s, Refused(h, mismatch))
  {
  }

  lemma RefusedKeepsInv(order: nat -> nat, s: State, h: nat, mismatch: bool)
    requires Inv(order, s) && IsWriting(s, h) && !Unchanged(s, s.handlers[h].phase.read)
    ensures Inv(order, s.(handlers := s.handlers[h := Refused(s.handlers[h], mismatch)]))
  {
    assert HandlerOk(order, s, s.handlers[h]);
    RefusedOk(order, s, s.handlers[h], mismatch);
    PhaseKeepsInv(order, s, h, Refused(s.handlers[h], mismatch));
  }

  lemma {:induction false} RunKeepsInv(order: nat -> nat, actions: seq<Action>)
    ensures Inv(order, Run(order, actions))
  {
    if actions != [] {
      RunKeepsInv(order, actions[..|actions| - 1]);
      StepKeepsInv(order, Run(order, actions[..|actions| - 1]), actions[|actions| - 1]);
    }
  }

  // ------------------------------------------------------------- the theorems

  /** In every run the entry parses to the total of what was counted. */
  lemma ReadsBackInRun(order: nat -> nat, actions: seq<Action>)
    ensures Existing(Run(order, actions)) == TotalOf(order, Run(order, actions).counted)
  {
    RunKeepsInv(order, actions);
    ReadsBack(order, Run(order, actions));
  }

  /** After any run the entry is absent when nothing was counted, and otherwise
      reads back as the saturated sum of the amounts of the counted sequences,
      with the newest of them; and no sequence is counted twice. */
  lemma TotalIsExact(order: nat -> nat, actions: seq<Action>)
    ensures var s := Run(order, actions);
            && Existing(s) == TotalOf(order, s.counted)
            && (s.entry.None? <==> s.counted == [])
            && Ascending(s.counted)
            && forall i, j | 0 <= i < j < |s.counted| :: s.counted[i] != s.counted[j]
  {
    RunKeepsInv(order, actions);
    ReadsBackInRun(order, actions);
  }

  /** The entry changes only by a write of the value its writer read, which
      counts its writer's sequence for the first time. */
  ghost predicate OnlyExtends(s: State, t: State, a: Action) {
    if t.entry == s.entry then t.counted == s.counted
    else
      && IsWriting(s, a.h) && s.entry == s.handlers[a.h].phase.read
      && t.counted == s.counted + [s.handlers[a.h].sequence]
      && s.handlers[a.h].sequence !in s.counted
  }

  lemma CommitOnlyExtends(order: nat -> nat, s: State, a: Action)
    requires Inv(order, s) && (a.Write? || a.WriteUnheard?) && WriteApplies(s, a.h, a.revision)
    ensures OnlyExtends(s, Next(order, s, a), a)
  {
    WriterIsCurrent(order, s, a.h, a.revision);
    LastIsNew(s.counted, s.handlers[a.h].sequence);
    assert Next(order, s, a).counted == s.counted + [s.handlers[a.h].sequence];
    assert s.entry.Some? ==> s.entry.value.revision <= s.lastRevision;
  }

  lemma StepOnlyExtends(order: nat -> nat, s: State, a: Action)
    requires Inv(order, s)
    ensures OnlyExtends(s, Next(order, s, a), a)
  {
    if (a.Write? || a.WriteUnheard?) && WriteApplies(s, a.h, a.revision) {
      CommitOnlyExtends(order, s, a);
    }
  }

  lemma LastIsNew(counted: seq<nat>, q: nat)
    requires Ascending(counted + [q])
    ensures q !in counted
  {
    var c := counted + [q];
    assert c[|counted|] == q && forall i | 0 <= i < |counted| :: c[i] == counted[i];
  }

  /** In every run, no write overwrites a value its writer did not read. */
  lemma NoWriteClobbers(order: nat -> nat, actions: seq<Action>, a: Action)
    ensures OnlyExtends(Run(order, actions), Run(order, actions + [a]), a)
  {
    RunOne(order, actions, a);
    RunKeepsInv(order, actions);
    StepOnlyExtends(order, Run(order, actions), a);
  }

  lemma RunOne(order: nat -> nat, actions: seq<Action>, a: Action)
    ensures Run(order, actions + [a]) == Next(order, Run(order, actions), a)
  {
    assert (actions + [a])[..|actions|] == actions;
  }

  /** A delivery that starts a handler. */
  predicate Starts(s: State, a: Action) {
    a.Deliver? && a.h !in s.handlers && IsU64(a.sequence)
  }

  /** What any action keeps: counted sequences stay counted, and handlers stay,
      each with its sequence. */
  ghost predicate Keeps(s: State, t: State) {
    && s.counted <= t.counted
    && forall k | k in s.handlers :: k in t.handlers && t.handlers[k].sequence == s.handlers[k].sequence
  }

  lemma StepKeeps(order: nat -> nat, s: State, a: Action)
    ensures var t := Next(order, s, a);
            && Keeps(s, t)
            && (forall k | k in t.handlers && k !in s.handlers :: Starts(s, a) && t.handlers[k].sequence == a.sequence)
            && (t.counted == s.counted || (a.h in s.handlers && t.counted == s.counted + [s.handlers[a.h].sequence]))
  {
  }

  lemma {:induction false} CountedGrows(order: nat -> nat, actions: seq<Action>, n: nat)
    requires n <= |actions|
    ensures Run(order, actions[..n]).counted <= Run(order, actions).counted
    decreases |actions| - n
  {
    if n == |actions| {
      assert actions[..n] == actions;
    } else {
      CountedGrows(order, actions, n + 1);
      assert actions[..n + 1] == actions[..n] + [actions[n]];
      RunOne(order, actions[..n], actions[n]);
      StepKeeps(order, Run(order, actions[..n]), actions[n]);
    }
  }

  /** Only delivered sequences are counted. */
  lemma {:induction false} CountedWereDelivered(order: nat -> nat, actions: seq<Action>, q: nat) returns (h: nat)
    requires q in Run(order, actions).counted
    ensures h in Run(order, actions).handlers && Run(order, actions).handlers[h].sequence == q
  {
    var n := |actions| - 1;
    var init, a := actions[..n], actions[n];
    StepKeeps(order, Run(order, init), a);
    if q in Run(order, init).counted {
      h := CountedWereDelivered(order, init, q);
    } else {
      h := a.h;
    }
  }

  /** Handler `h` reports the total of the sequences counted up to some point,
      the newest of which is not older than its own. */
  ghost predicate ReportsATotal(order: nat -> nat, s: State, h: Handler) {
    h.phase.Finished? ==>
      && 0 < h.phase.at <= |s.counted|
      && h.phase.running == Saturated(order, s.counted[..h.phase.at])
      && h.sequence <= s.counted[h.phase.at - 1]
  }

  /** Handler `h` gives up only after five other sequences were counted while it tried. */
  predicate GaveUpUnderContention(s: State, h: Handler) {
    h.phase.GaveUp? ==> |s.counted| >= h.since + MAX_ATTEMPTS
  }

  lemma OutcomesFollow(order: nat -> nat, s: State, h: nat)
    requires Inv(order, s) && h in s.handlers
    ensures ReportsATotal(order, s, s.handlers[h]) && GaveUpUnderContention(s, s.handlers[h])
  {
    assert HandlerOk(order, s, s.handlers[h]);
  }

  /** What every handler's outcome means, in every run. */
  lemma OutcomesMeanWhatTheySay(order: nat -> nat, actions: seq<Action>, h: nat)
    requires h in Run(order, actions).handlers
    ensures ReportsATotal(order, Run(order, actions), Run(order, actions).handlers[h])
    ensures GaveUpUnderContention(Run(order, actions), Run(order, actions).handlers[h])
  {
    RunKeepsInv(order, actions);
    OutcomesFollow(order, Run(order, actions), h);
  }

  /** Some step counted a higher sequence while `q` was uncounted. */
  ghost predicate Overtaken(order: nat -> nat, actions: seq<Action>, q: nat) {
    exists n: nat | n < |actions| ::
      OvertakenBy(Run(order, actions[..n]).counted, Run(order, actions[..n + 1]).counted, q)
  }

  predicate OvertakenBy(before: seq<nat>, after: seq<nat>, q: nat) {
    q !in before && |after| == |before| + 1 && before < after && after[|before|] > q
  }

  /** `q` is below the newest sequence counted and is not counted itself. */
  predicate Passed(counted: seq<nat>, q: nat) {
    q !in counted && counted != [] && counted[|counted| - 1] > q
  }

  lemma EarlierCountIsNotPassed(c: seq<nat>, counted: seq<nat>, q: nat)
    requires c <= counted && Ascending(counted) && q in counted
    ensures !Passed(c, q)
  {
    if c != [] && q !in c {
      var i :| 0 <= i < |counted| && counted[i] == q;
      assert forall j | 0 <= j < |c| :: c[j] == counted[j];
      assert counted[|c| - 1] == c[|c| - 1];
    }
  }

  lemma {:induction false} PassedWasOvertaken(order: nat -> nat, actions: seq<Action>, q: nat)
    requires Passed(Run(order, actions).counted, q)
    ensures Overtaken(order, actions, q)
  {
    var m := |actions| - 1;
    var s := Run(order, actions[..m]);
    StepKeeps(order, s, actions[m]);
    assert actions[..m + 1] == actions;
    if Passed(s.counted, q) {
      PassedWasOvertaken(order, actions[..m], q);
      var n: nat :| n < m && OvertakenBy(Run(order, actions[..m][..n]).counted, Run(order, actions[..m][..n + 1]).counted, q);
      assert actions[..m][..n] == actions[..n] && actions[..m][..n + 1] == actions[..n + 1];
    } else {
      assert OvertakenBy(s.counted, Run(order, actions[..m + 1]).counted, q);
    }
  }

  /** An order whose handler returned Ok was counted, exactly once, if and only
      if no step counted a higher sequence before it. */
  lemma CountedIffNotOvertaken(order: nat -> nat, actions: seq<Action>, h: nat)
    requires h in Run(order, actions).handlers && Run(order, actions).handlers[h].phase.Finished?
    ensures var s := Run(order, actions);
            s.handlers[h].sequence in s.counted <==> !Overtaken(order, actions, s.handlers[h].sequence)
  {
    var q := Run(order, actions).handlers[h].sequence;
    RunKeepsInv(order, actions);
    if q !in Run(order, actions).counted {
      OutcomesMeanWhatTheySay(order, actions, h);
      UncountedIsPassed(Run(order, actions).counted, Run(order, actions).handlers[h]);
      PassedWasOvertaken(order, actions, q);
    } else {
      CountedIsNotOvertaken(order, actions, q);
    }
  }

  lemma CountedIsNotOvertaken(order: nat -> nat, actions: seq<Action>, q: nat)
    requires q in Run(order, actions).counted
    ensures !Overtaken(order, actions, q)
  {
    if Overtaken(order, actions, q) {
      var n: nat :| n < |actions| && OvertakenBy(Run(order, actions[..n]).counted, Run(order, actions[..n + 1]).counted, q);
      CountedGrows(order, actions, n + 1);
      RunKeepsInv(order, actions);
      NotOvertaken(Run(order, actions[..n]).counted, Run(order, actions[..n + 1]).counted, Run(order, actions).counted, q);
    }
  }

  lemma NotOvertaken(before: seq<nat>, after: seq<nat>, counted: seq<nat>, q: nat)
    requires Ascending(counted) && q in counted && after <= counted
    ensures !OvertakenBy(before, after, q)
  {
    EarlierCountIsNotPassed(after, counted, q);
    OvertakenIsPassed(before, after, q);
  }

  lemma OvertakenIsPassed(before: seq<nat>, after: seq<nat>, q: nat)
    ensures OvertakenBy(before, after, q) ==> Passed(after, q)
  {
    if OvertakenBy(before, after, q) {
      assert after == before + [after[|before|]];
    }
  }

  lemma UncountedIsPassed(counted: seq<nat>, h: Handler)
    requires Ascending(counted) && h.sequence !in counted && h.phase.Finished?
    requires 0 < h.phase.at <= |counted| && h.sequence <= counted[h.phase.at - 1]
    ensures Passed(counted, h.sequence)
  {
    assert counted[h.phase.at - 1] <= counted[|counted| - 1];
  }
}
