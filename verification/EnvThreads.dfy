/** `with_vars` on many threads.  A run is any interleaving of the threads'
    steps; a step that is not possible changes nothing.  A panic may end a call
    while it is still setting variables, between logging a value and changing
    it, or anywhere in its body, and may be caught at any level. */
module EnvThreads {
  import opened Text
  import opened EnvScopes

  datatype Stage =
    | Setting(done: nat, logged: bool)  // `done` variables set; the next one's old value logged or not
    | InBody
    | Restoring                         // in the guard's drop

  /** One call in progress.  `entry`, the environment it found, is history. */
  datatype Frame = Frame(vars: seq<Binding>, saved: seq<Binding>, holdsLock: bool, stage: Stage, entry: Env)

  /** A thread's counter of bodies it is inside, and its calls, outermost first. */
  datatype Thread = Thread(depth: nat, frames: seq<Frame>)

  datatype State = State(env: Env, lock: Option<nat>, threads: map<nat, Thread>)

  datatype Action =
    | Enter(t: nat, vars: seq<Binding>)
    | Log(t: nat)
    | Change(t: nat)
    | StartBody(t: nat)
    | Leave(t: nat)     // the body returns, or a panic unwinds this call
    | Restore(t: nat)
    | Finish(t: nat)

  function ThreadOf(s: State, t: nat): Thread {
    if t in s.threads then s.threads[t] else Thread(0, [])
  }

  predicate Active(s: State, t: nat) {
    ThreadOf(s, t).frames != []
  }

  function Top(s: State, t: nat): Frame
    requires Active(s, t)
  {
    var frames := ThreadOf(s, t).frames;
    frames[|frames| - 1]
  }

  /** The thread is at a point where its code may call `with_vars`. */
  predicate MayCall(s: State, t: nat) {
    Active(s, t) ==> Top(s, t).stage.InBody?
  }

  /** A call made now would wait for the lock. */
  predicate WouldWait(s: State, t: nat) {
    ThreadOf(s, t).depth == 0 && s.lock.Some?
  }

  function SetTop(s: State, t: nat, f: Frame): State
    requires Active(s, t)
  {
    var th := ThreadOf(s, t);
    s.(threads := s.threads[t := th.(frames := th.frames[..|th.frames| - 1] + [f])])
  }

  predicate Enabled(s: State, a: Action) {
    match a
    case Enter(t, vars) => MayCall(s, t) && !WouldWait(s, t)
    case Log(t) => Active(s, t) && Top(s, t).stage.Setting? && !Top(s, t).stage.logged && Top(s, t).stage.done < |Top(s, t).vars|
    case Change(t) => Active(s, t) && Top(s, t).stage.Setting? && Top(s, t).stage.logged && Top(s, t).stage.done < |Top(s, t).vars|
    case StartBody(t) => Active(s, t) && Top(s, t).stage == Setting(|Top(s, t).vars|, false)
    case Leave(t) => Active(s, t) && !Top(s, t).stage.Restoring? && ThreadOf(s, t).depth > 0
    case Restore(t) => Active(s, t) && Top(s, t).stage.Restoring? && Top(s, t).saved != []
    case Finish(t) => Active(s, t) && Top(s, t).stage.Restoring? && Top(s, t).saved == []
  }

  function Next(s: State, a: Action): State {
    if !Enabled(s, a) then s
    else
      var th := ThreadOf(s, a.t);
      match a
      case Enter(t, vars) =>
        var outermost := th.depth == 0;
        s.(lock := if outermost then Some(t) else s.lock,
           threads := s.threads[t := Thread(th.depth + 1,
             th.frames + [Frame(vars, [], outermost, Setting(0, false), s.env)])])
      case Log(t) =>
        var f := Top(s, t);
        SetTop(s, t, f.(saved := f.saved + [Current(s.env, f.vars[f.stage.done].0)], stage := f.stage.(logged := true)))
      case Change(t) =>
        var f := Top(s, t);
        SetTop(s.(env := Put(s.env, f.vars[f.stage.done])), t, f.(stage := Setting(f.stage.done + 1, false)))
      case StartBody(t) => SetTop(s, t, Top(s, t).(stage := InBody))
      case Leave(t) =>
        var u := SetTop(s, t, Top(s, t).(stage := Restoring));
        u.(threads := u.threads[t := u.threads[t].(depth := th.depth - 1)])
      case Restore(t) =>
        var f := Top(s, t);
        var n := |f.saved| - 1;
        SetTop(s.(env := Put(s.env, f.saved[n])), t, f.(saved := f.saved[..n]))
      case Finish(t) =>
        s.(lock := if Top(s, t).holdsLock then None else s.lock,
           threads := s.threads[t := th.(frames := th.frames[..|th.frames| - 1])])
  }

  function Run(env: Env, actions: seq<Action>): State {
    if actions == [] then State(env, None, map[])
    else Next(Run(env, actions[..|actions| - 1]), actions[|actions| - 1])
  }

  // ------------------------------------------------------------ the invariant

  /** What the environment holds while a call is setting its variables. */
  function SoFar(f: Frame): Env {
    match f.stage
    case Setting(done, _) => if done <= |f.vars| then PutAll(f.entry, f.vars[..done]) else f.entry
    case _ => PutAll(f.entry, f.vars)
  }

  /** Call `f`, with the environment at `env`: undoing its log gives back what it
      found, and until it restores, its variables are set. */
  ghost predicate FrameOk(f: Frame, env: Env) {
    && Undo(env, f.saved) == f.entry
    && (f.stage.Setting? ==> f.stage.done <= |f.vars| && (f.stage.logged ==> JustLogged(f, env)))
    && (!f.stage.Restoring? ==> env == SoFar(f))
  }

  predicate JustLogged(f: Frame, env: Env)
    requires f.stage.Setting?
  {
    f.stage.done < |f.vars| && f.saved != [] && f.saved[|f.saved| - 1] == Current(env, f.vars[f.stage.done].0)
  }

  /** A thread's calls: each was made from the body of the one outside it, in
      the environment that one had set up; only the outermost holds the lock. */
  ghost predicate FramesOk(frames: seq<Frame>, env0: Env, env: Env) {
    && (forall i | 0 <= i < |frames| :: frames[i].holdsLock == (i == 0))
    && (frames != [] ==> frames[0].entry == env0)
    && (forall i | 0 <= i < |frames| - 1 :: frames[i].stage.InBody? && FrameOk(frames[i], frames[i + 1].entry))
    && (frames != [] ==> FrameOk(frames[|frames| - 1], env))
  }

  predicate DepthOk(th: Thread) {
    th.depth == if th.frames != [] && th.frames[|th.frames| - 1].stage.Restoring? then |th.frames| - 1 else |th.frames|
  }

  ghost predicate Inv(env0: Env, s: State) {
    && (forall t | t in s.threads :: DepthOk(s.threads[t]))
    && (forall t | t in s.threads :: s.threads[t].frames != [] ==> s.lock == Some(t))
    && (match s.lock
        case None => s.env == env0
        case Some(t) => t in s.threads && s.threads[t].frames != [] && FramesOk(s.threads[t].frames, env0, s.env))
  }

  lemma EnterFrames(frames: seq<Frame>, env0: Env, env: Env, f: Frame)
    requires FramesOk(frames, env0, env)
    requires if frames == [] then env == env0 else frames[|frames| - 1].stage.InBody?
    requires f.entry == env && FrameOk(f, env) && f.holdsLock == (frames == [])
    ensures FramesOk(frames + [f], env0, env)
  {
  }

  lemma ReplaceTop(frames: seq<Frame>, env0: Env, env: Env, f: Frame, env': Env)
    requires frames != [] && FramesOk(frames, env0, env)
    requires var top := frames[|frames| - 1]; f.entry == top.entry && f.holdsLock == top.holdsLock
    requires FrameOk(f, env')
    ensures FramesOk(frames[..|frames| - 1] + [f], env0, env')
  {
  }

  lemma PopFrame(frames: seq<Frame>, env0: Env, env: Env)
    requires frames != [] && FramesOk(frames, env0, env)
    requires frames[|frames| - 1].stage.Restoring? && frames[|frames| - 1].saved == []
    ensures FramesOk(frames[..|frames| - 1], env0, env)
    ensures env == frames[|frames| - 1].entry && (|frames| == 1 ==> env == env0)
  {
  }

  lemma LoggedOk(f: Frame, env: Env)
    requires FrameOk(f, env) && f.stage.Setting? && f.stage.done < |f.vars|
    ensures FrameOk(f.(saved := f.saved + [Current(env, f.vars[f.stage.done].0)], stage := f.stage.(logged := true)), env)
  {
    UndoSaved(env, f.saved, f.vars[f.stage.done]);
  }

  lemma ChangedOk(f: Frame, env: Env)
    requires FrameOk(f, env) && f.stage.Setting? && f.stage.logged
    ensures FrameOk(f.(stage := Setting(f.stage.done + 1, false)), Put(env, f.vars[f.stage.done]))
  {
    var n, b := f.stage.done, f.vars[f.stage.done];
    var rest := f.saved[..|f.saved| - 1];
    assert f.saved == rest + [Current(env, b.0)];
    UndoSaved(env, rest, b);
    assert f.vars[..n + 1][..n] == f.vars[..n] && f.vars[..n + 1][n] == b;
  }

  lemma BodyOk(f: Frame, env: Env)
    requires FrameOk(f, env) && f.stage == Setting(|f.vars|, false)
    ensures FrameOk(f.(stage := InBody), env)
  {
    assert f.vars[..|f.vars|] == f.vars;
  }

  /** A step that replaces the top call of the thread that holds the lock. */
  lemma TopStepKeepsInv(env0: Env, s: State, t: nat, f: Frame, env: Env, depth: nat)
    requires Inv(env0, s) && Active(s, t)
    requires f.entry == Top(s, t).entry && f.holdsLock == Top(s, t).holdsLock && FrameOk(f, env)
    requires var n := |s.threads[t].frames|; depth == if f.stage.Restoring? then n - 1 else n
    ensures var th := s.threads[t];
            Inv(env0, s.(env := env, threads := s.threads[t := Thread(depth, th.frames[..|th.frames| - 1] + [f])]))
  {
    ReplaceTop(s.threads[t].frames, env0, s.env, f, env);
  }

  lemma EnterKeepsInv(env0: Env, s: State, t: nat, vars: seq<Binding>)
    requires Inv(env0, s) && Enabled(s, Enter(t, vars))
    ensures Inv(env0, Next(s, Enter(t, vars)))
  {
    var th := ThreadOf(s, t);
    assert DepthOk(th);
    var f := Frame(vars, [], th.depth == 0, Setting(0, false), s.env);
    assert vars[..0] == [];
    assert th.frames != [] ==> s.lock == Some(t);
    EnterFrames(th.frames, env0, s.env, f);
  }

  lemma FinishKeepsInv(env0: Env, s: State, t: nat)
    requires Inv(env0, s) && Enabled(s, Finish(t))
    ensures Inv(env0, Next(s, Finish(t)))
  {
    PopFrame(s.threads[t].frames, env0, s.env);
  }

  lemma LogKeepsInv(env0: Env, s: State, t: nat)
    requires Inv(env0, s) && Enabled(s, Log(t))
    ensures Inv(env0, Next(s, Log(t)))
  {
    var f, th := Top(s, t), s.threads[t];
    assert DepthOk(th) && FrameOk(f, s.env);
    LoggedOk(f, s.env);
    TopStepKeepsInv(env0, s, t, Top(Next(s, Log(t)), t), s.env, th.depth);
  }

  lemma ChangeKeepsInv(env0: Env, s: State, t: nat)
    requires Inv(env0, s) && Enabled(s, Change(t))
    ensures Inv(env0, Next(s, Change(t)))
  {
    var f, th := Top(s, t), s.threads[t];
    assert DepthOk(th) && FrameOk(f, s.env);
    ChangedOk(f, s.env);
    TopStepKeepsInv(env0, s, t, Top(Next(s, Change(t)), t), Next(s, Change(t)).env, th.depth);
  }

  lemma StartBodyKeepsInv(env0: Env, s: State, t: nat)
    requires Inv(env0, s) && Enabled(s, StartBody(t))
    ensures Inv(env0, Next(s, StartBody(t)))
  {
    var f, th := Top(s, t), s.threads[t];
    assert DepthOk(th) && FrameOk(f, s.env);
    BodyOk(f, s.env);
    TopStepKeepsInv(env0, s, t, f.(stage := InBody), s.env, th.depth);
  }

  lemma LeavingKeepsInv(env0: Env, s: State, a: Action)
    requires Inv(env0, s) && Enabled(s, a) && (a.Leave? || a.Restore?)
    ensures Inv(env0, Next(s, a))
  {
    var f, th, u := Top(s, a.t), s.threads[a.t], Next(s, a);
    assert DepthOk(th) && FrameOk(f, s.env);
    TopStepKeepsInv(env0, s, a.t, Top(u, a.t), u.env, u.threads[a.t].depth);
  }

  lemma StepKeepsInv(env0: Env, s: State, a: Action)
    requires Inv(env0, s)
    ensures Inv(env0, Next(s, a))
  {
    if Enabled(s, a) {
      match a
      case Enter(t, vars) => EnterKeepsInv(env0, s, t, vars);
      case Finish(t) => FinishKeepsInv(env0, s, t);
      case Leave(_) => LeavingKeepsInv(env0, s, a);
      case Restore(_) => LeavingKeepsInv(env0, s, a);
      case Log(t) => LogKeepsInv(env0, s, t);
      case Change(t) => ChangeKeepsInv(env0, s, t);
      case StartBody(t) => StartBodyKeepsInv(env0, s, t);
    }
  }

  lemma {:induction false} RunKeepsInv(env0: Env, actions: seq<Action>)
    ensures Inv(env0, Run(env0, actions))
  {
    if actions != [] {
      RunKeepsInv(env0, actions[..|actions| - 1]);
      StepKeepsInv(env0, Run(env0, actions[..|actions| - 1]), actions[|actions| - 1]);
    }
  }

  // ------------------------------------------------------------- the theorems

  /** In every interleaving: no two threads are inside calls at once, and
      whenever the lock is free the environment is the initial one. */
  lemma CallsNeverOverlap(env0: Env, actions: seq<Action>, t: nat, u: nat)
    ensures var s := Run(env0, actions);
            && (Active(s, t) && Active(s, u) ==> t == u)
            && (s.lock == Some(t) <==> Active(s, t))
            && (s.lock == None ==> s.env == env0)
  {
    RunKeepsInv(env0, actions);
  }

  /** A nested call never waits for the lock its own thread holds. */
  lemma NestedCallsNeverWait(env0: Env, actions: seq<Action>, t: nat, vars: seq<Binding>)
    requires Active(Run(env0, actions), t) && MayCall(Run(env0, actions), t)
    ensures Enabled(Run(env0, actions), Enter(t, vars))
  {
    RunKeepsInv(env0, actions);
    assert DepthOk(ThreadOf(Run(env0, actions), t));
  }

  /** A body always sees its own variables over what its caller had, however
      many calls it has made and seen panic. */
  lemma BodySeesItsVariables(env0: Env, actions: seq<Action>, t: nat)
    requires Active(Run(env0, actions), t) && Top(Run(env0, actions), t).stage.InBody?
    ensures var s := Run(env0, actions); s.env == PutAll(Top(s, t).entry, Top(s, t).vars)
  {
    RunKeepsInv(env0, actions);
    BodySees(env0, Run(env0, actions), t);
  }

  lemma BodySees(env0: Env, s: State, t: nat)
    requires Inv(env0, s) && Active(s, t) && Top(s, t).stage.InBody?
    ensures s.env == PutAll(Top(s, t).entry, Top(s, t).vars)
  {
  }

  /** A call that finishes, by return or by panic, leaves what it found. */
  lemma FinishedCallRestored(env0: Env, actions: seq<Action>, t: nat)
    requires Enabled(Run(env0, actions), Finish(t))
    ensures Run(env0, actions + [Finish(t)]).env == Top(Run(env0, actions), t).entry
  {
    RunKeepsInv(env0, actions);
    assert (actions + [Finish(t)])[..|actions|] == actions;
    PopFrame(Run(env0, actions).threads[t].frames, env0, Run(env0, actions).env);
  }

  /** A call records the environment it finds, and nothing rewrites the record. */
  lemma EntryIsWhatWasFound(s: State, a: Action, t: nat)
    ensures a.Enter? && a.t == t && Enabled(s, a) ==> Active(Next(s, a), t) && Top(Next(s, a), t).entry == s.env
    ensures var frames, frames' := ThreadOf(s, t).frames, ThreadOf(Next(s, a), t).frames;
            forall i | 0 <= i < |frames| && i < |frames'| :: frames'[i].entry == frames[i].entry
  {
  }

  /** While a thread is inside a call, no other thread's step changes the
      environment or its calls. */
  lemma OthersDoNotInterfere(env0: Env, actions: seq<Action>, t: nat, a: Action)
    requires Active(Run(env0, actions), t) && a.t != t
    ensures var s, u := Run(env0, actions), Run(env0, actions + [a]);
            u.env == s.env && u.lock == s.lock && ThreadOf(u, t) == ThreadOf(s, t)
  {
    RunKeepsInv(env0, actions);
    assert (actions + [a])[..|actions|] == actions;
    var s := Run(env0, actions);
    assert !Active(s, a.t);
    assert DepthOk(ThreadOf(s, a.t));
  }

  // ------------------------------------------------------------ no deadlock

  function RunFrom(s: State, actions: seq<Action>): State
    decreases |actions|
  {
    if actions == [] then s else RunFrom(Next(s, actions[0]), actions[1..])
  }

  /** What a thread has yet to unwind. */
  function Pending(frames: seq<Frame>): nat {
    if frames == [] then 0
    else
      var f := frames[|frames| - 1];
      Pending(frames[..|frames| - 1]) + |f.saved| + if f.stage.Restoring? then 1 else 2
  }

  /** The thread that holds the lock can always unwind its calls by steps of its
      own and release it, with the environment back to the initial one. */
  lemma {:induction false} HolderCanRelease(env0: Env, s: State, t: nat) returns (actions: seq<Action>)
    requires Inv(env0, s) && s.lock == Some(t)
    ensures forall i | 0 <= i < |actions| :: actions[i].t == t
    ensures RunFrom(s, actions).lock == None && RunFrom(s, actions).env == env0
    decreases Pending(ThreadOf(s, t).frames)
  {
    var a := UnwindStep(env0, s, t);
    var u := Next(s, a);
    StepKeepsInv(env0, s, a);
    var rest := [];
    if u.lock != None {
      rest := HolderCanRelease(env0, u, t);
    }
    actions := [a] + rest;
    RunFromCons(s, a, rest);
  }

  lemma RunFromCons(s: State, a: Action, rest: seq<Action>)
    ensures RunFrom(s, [a] + rest) == RunFrom(Next(s, a), rest)
  {
    assert ([a] + rest)[1..] == rest;
  }

  lemma UnwindStep(env0: Env, s: State, t: nat) returns (a: Action)
    requires Inv(env0, s) && s.lock == Some(t)
    ensures a.t == t
    ensures Next(s, a).lock in {None, Some(t)}
    ensures Pending(ThreadOf(Next(s, a), t).frames) < Pending(ThreadOf(s, t).frames)
  {
    var frames := s.threads[t].frames;
    var n := |frames| - 1;
    assert DepthOk(s.threads[t]);
    if !frames[n].stage.Restoring? {
      a := Leave(t);
    } else if frames[n].saved != [] {
      a := Restore(t);
    } else {
      a := Finish(t);
    }
    var frames' := ThreadOf(Next(s, a), t).frames;
    if !a.Finish? {
      assert frames'[..n] == frames[..n];
    } else {
      assert frames' == frames[..n];
    }
  }
}
