/** Extra trust roots, installed once per process.  Any number of callers race
    through reading the store, loading their bundles, and claiming it; a run is
    any interleaving of their steps, and an impossible step changes nothing. */
module TrustStore {
  import opened Text

  datatype Outcome = Ok | Conflict(installed: set<string>) | LoadFailed

  datatype Phase =
    | Called
    | Loading                     // found the store empty
    | Loaded
    | Rejected                    // lost the race to claim it
    | Returned(outcome: Outcome)

  datatype Call = Call(paths: seq<string>, phase: Phase)

  /** `store` is the set of paths in force; once set it cannot be set again. */
  datatype State = State(store: Option<set<string>>, calls: map<nat, Call>)

  datatype Action =
    | Begin(c: nat, paths: seq<string>)
    | Get(c: nat)
    | Load(c: nat, ok: bool)
    | Set(c: nat)
    | GetAfterRejection(c: nat)

  /** Listed order and duplicates do not matter. */
  function Requested(paths: seq<string>): set<string> {
    set p | p in paths
  }

  /** What a caller is told once some set is in force. */
  function ConflictingTrust(installed: set<string>, requested: set<string>): Outcome {
    if installed == requested then Ok else Conflict(installed)
  }

  function SetPhase(s: State, c: nat, phase: Phase): State
    requires c in s.calls
  {
    s.(calls := s.calls[c := s.calls[c].(phase := phase)])
  }

  function Next(s: State, a: Action): State {
    if a.Begin? then
      if a.c in s.calls then s else s.(calls := s.calls[a.c := Call(a.paths, Called)])
    else if a.c !in s.calls then s
    else
      var call := s.calls[a.c];
      var requested := Requested(call.paths);
      match (a, call.phase)
      case (Get(c), Called) =>
        if requested == {} then SetPhase(s, c, Returned(Ok))
        else if s.store.Some? then SetPhase(s, c, Returned(ConflictingTrust(s.store.value, requested)))
        else SetPhase(s, c, Loading)
      case (Load(c, ok), Loading) => SetPhase(s, c, if ok then Loaded else Returned(LoadFailed))
      case (Set(c), Loaded) =>
        if s.store.Some? then SetPhase(s, c, Rejected)
        else SetPhase(s.(store := Some(requested)), c, Returned(Ok))
      case (GetAfterRejection(c), Rejected) =>
        if s.store.Some? then SetPhase(s, c, Returned(ConflictingTrust(s.store.value, requested)))
        else SetPhase(s, c, Returned(Ok))
      case _ => s
  }

  function Run(actions: seq<Action>): State {
    if actions == [] then State(None, map[])
    else Next(Run(actions[..|actions| - 1]), actions[|actions| - 1])
  }

  // ------------------------------------------------------------ the invariant

  /** What a call's phase says about the store. */
  predicate CallOk(store: Option<set<string>>, call: Call) {
    var requested := Requested(call.paths);
    match call.phase
    case Called => true
    case Loading => requested != {}
    case Loaded => requested != {}
    case Rejected => requested != {} && store.Some?
    case Returned(Ok) => requested == {} || store == Some(requested)
    case Returned(Conflict(p)) => requested != {} && store == Some(p) && p != requested
    case Returned(LoadFailed) => requested != {}
  }

  ghost predicate ClaimedBySome(s: State)
    requires s.store.Some?
  {
    exists c :: c in s.calls && Requested(s.calls[c].paths) == s.store.value && s.calls[c].phase == Returned(Ok)
  }

  ghost predicate Inv(s: State) {
    && (forall c | c in s.calls :: CallOk(s.store, s.calls[c]))
    && (s.store.Some? ==> s.store.value != {} && ClaimedBySome(s))
  }

  lemma StepKeepsStore(s: State, a: Action)
    ensures s.store.Some? ==> Next(s, a).store == s.store
    ensures forall c | c in s.calls ::
              c in Next(s, a).calls && Next(s, a).calls[c].paths == s.calls[c].paths
              && (s.calls[c].phase.Returned? ==> Next(s, a).calls[c] == s.calls[c])
  {
  }

  lemma StepKeepsInv(s: State, a: Action)
    requires Inv(s)
    ensures Inv(Next(s, a))
  {
    var t := Next(s, a);
    StepKeepsStore(s, a);
    if s.store.Some? {
      var c :| c in s.calls && Requested(s.calls[c].paths) == s.store.value && s.calls[c].phase == Returned(Ok);
      assert t.calls[c] == s.calls[c];
    } else if t.store.Some? {
      assert Requested(t.calls[a.c].paths) == t.store.value && t.calls[a.c].phase == Returned(Ok);
    }
    forall c | c in t.calls ensures CallOk(t.store, t.calls[c]) {
      if c in s.calls {
        assert CallOk(s.store, s.calls[c]);
      }
    }
  }

  lemma {:induction false} RunKeepsInv(actions: seq<Action>)
    ensures Inv(Run(actions))
  {
    if actions != [] {
      RunKeepsInv(actions[..|actions| - 1]);
      StepKeepsInv(Run(actions[..|actions| - 1]), actions[|actions| - 1]);
    }
  }

  // ------------------------------------------------------------- the theorems

  /** The store is claimed at most once: what is in force stays in force. */
  lemma {:induction false} ClaimedOnce(actions: seq<Action>, n: nat)
    requires n <= |actions| && Run(actions[..n]).store.Some?
    ensures Run(actions).store == Run(actions[..n]).store
    decreases |actions|
  {
    if n == |actions| {
      assert actions[..n] == actions;
    } else {
      var m := |actions| - 1;
      assert actions[..m][..n] == actions[..n];
      ClaimedOnce(actions[..m], n);
      StepKeepsStore(Run(actions[..m]), actions[m]);
    }
  }

  /** The store is never claimed by an empty set, and only by a caller that asked
      for exactly that set and was told so. */
  lemma {:induction false} ClaimIsSomeCallers(actions: seq<Action>)
    requires Run(actions).store.Some?
    ensures Run(actions).store.value != {} && ClaimedBySome(Run(actions))
  {
    RunKeepsInv(actions);
  }

  lemma {:induction false} ReturnedStays(actions: seq<Action>, n: nat, c: nat)
    requires n <= |actions| && c in Run(actions[..n]).calls && Run(actions[..n]).calls[c].phase.Returned?
    ensures c in Run(actions).calls && Run(actions).calls[c] == Run(actions[..n]).calls[c]
    decreases |actions|
  {
    if n == |actions| {
      assert actions[..n] == actions;
    } else {
      var m := |actions| - 1;
      assert actions[..m][..n] == actions[..n];
      ReturnedStays(actions[..m], n, c);
      StepKeepsStore(Run(actions[..m]), actions[m]);
    }
  }

  /** What a caller that asked for something is told is true then and ever
      after: success if and only if its set is the one in force, a conflict only
      if a different one is, unless its own bundles failed to load. */
  lemma {:induction false} AnswersStayTrue(actions: seq<Action>, n: nat, c: nat)
    requires n <= |actions| && c in Run(actions[..n]).calls && Run(actions[..n]).calls[c].phase.Returned?
    requires Requested(Run(actions[..n]).calls[c].paths) != {}
    ensures var call, store := Run(actions[..n]).calls[c], Run(actions).store;
            match call.phase.outcome
            case Ok => store == Some(Requested(call.paths))
            case Conflict(p) => store == Some(p) && p != Requested(call.paths)
            case LoadFailed => true
  {
    ReturnedStays(actions, n, c);
    RunKeepsInv(actions);
    assert CallOk(Run(actions).store, Run(actions).calls[c]);
  }

  /** A caller that lost the race always finds the winner's set: the branch for
      an empty store after a rejected claim is never taken. */
  lemma {:induction false} RejectedFindsWinner(actions: seq<Action>, c: nat)
    requires c in Run(actions).calls && Run(actions).calls[c].phase == Rejected
    ensures Run(actions).store.Some?
  {
    RunKeepsInv(actions);
    assert CallOk(Run(actions).store, Run(actions).calls[c]);
  }

  /** A caller that asked for nothing is always told Ok and never claims the store. */
  lemma {:induction false} EmptyRequestIsHarmless(actions: seq<Action>, c: nat)
    requires c in Run(actions).calls && Requested(Run(actions).calls[c].paths) == {}
    ensures Run(actions).calls[c].phase in {Called, Returned(Ok)}
  {
    RunKeepsInv(actions);
    assert CallOk(Run(actions).store, Run(actions).calls[c]);
  }

  /** A caller that nobody interrupts is told Ok when its set is, or through it
      comes to be, in force; and a bundle that does not load claims nothing. */
  lemma CallAlone(s: State, c: nat, loads: bool)
    requires c in s.calls && s.calls[c].phase == Called
    ensures var t := Next(Next(Next(s, Get(c)), Load(c, loads)), Set(c));
            var requested := Requested(s.calls[c].paths);
            && c in t.calls
            && (t.calls[c].phase == Returned(Ok) <==>
                requested == {} || s.store == Some(requested) || (s.store == None && loads))
            && (t.calls[c].phase == Returned(LoadFailed) <==> requested != {} && s.store == None && !loads)
            && t.store == if s.store == None && requested != {} && loads then Some(requested) else s.store
  {
    var s1 := Next(s, Get(c));
    var s2 := Next(s1, Load(c, loads));
    assert s2.store == s.store;
  }
}
