/** Environment variables set for the duration of a body and put back after,
    by an undo log.  A tree of nested calls, on one thread, observes exactly
    what lexically scoped bindings would show it. */
module EnvScopes {
  import opened Text

  type Env = map<string, string>

  /** A key, and the value to give it; `None` removes it. */
  type Binding = (string, Option<string>)

  function Put(env: Env, b: Binding): Env {
    match b.1
    case Some(value) => env[b.0 := value]
    case None => env - {b.0}
  }

  function Current(env: Env, key: string): Binding {
    (key, if key in env then Some(env[key]) else None)
  }

  function PutAll(env: Env, vars: seq<Binding>): Env {
    if vars == [] then env else Put(PutAll(env, vars[..|vars| - 1]), vars[|vars| - 1])
  }

  /** A variable has the last value bound to it, or is unset if that binding says
      so; one that is not bound is as it was. */
  lemma {:induction false} LastBindingWins(env: Env, vars: seq<Binding>, i: nat)
    requires i < |vars| && forall j | i < j < |vars| :: vars[j].0 != vars[i].0
    ensures Current(PutAll(env, vars), vars[i].0) == vars[i]
  {
    var n := |vars| - 1;
    if i < n {
      LastBindingWins(env, vars[..n], i);
      assert vars[n].0 != vars[i].0;
    }
  }

  lemma {:induction false} UnboundIsUntouched(env: Env, vars: seq<Binding>, key: string)
    requires forall j | 0 <= j < |vars| :: vars[j].0 != key
    ensures Current(PutAll(env, vars), key) == Current(env, key)
  {
    if vars != [] {
      UnboundIsUntouched(env, vars[..|vars| - 1], key);
    }
  }

  /** Restore a log of displaced values, newest first. */
  function Undo(env: Env, saved: seq<Binding>): Env
    decreases |saved|
  {
    if saved == [] then env else Undo(Put(env, saved[|saved| - 1]), saved[..|saved| - 1])
  }

  /** Logging what a key holds and then changing it is undone by the log. */
  lemma UndoSaved(env: Env, saved: seq<Binding>, b: Binding)
    ensures Undo(env, saved + [Current(env, b.0)]) == Undo(env, saved)
    ensures Undo(Put(env, b), saved + [Current(env, b.0)]) == Undo(env, saved)
  {
    var log := saved + [Current(env, b.0)];
    assert log[..|saved|] == saved;
    assert Put(env, Current(env, b.0)) == env;
    assert Put(Put(env, b), Current(env, b.0)) == env;
  }

  /** What a body does, then does next: look at the environment, call
      `with_vars` with an inner body, with or without catching its panic, or panic. */
  datatype Body =
    | Done
    | Panic
    | Look(rest: Body)
    | Nested(vars: seq<Binding>, inner: Body, caught: bool, rest: Body)

  datatype Outcome = Returned | Panicked

  // ------------------------------------- the meaning, with scoped bindings

  function EndOf(body: Body): Outcome {
    match body
    case Done => Returned
    case Panic => Panicked
    case Look(rest) => EndOf(rest)
    case Nested(_, inner, caught, rest) => if EndOf(inner) == Panicked && !caught then Panicked else EndOf(rest)
  }

  /** The environments a body looks at, in order, when run in scope `env`. */
  function Seen(env: Env, body: Body): seq<Env>
    decreases body
  {
    match body
    case Done => []
    case Panic => []
    case Look(rest) => [env] + Seen(env, rest)
    case Nested(vars, inner, caught, rest) =>
      Seen(PutAll(env, vars), inner) + if EndOf(inner) == Panicked && !caught then [] else Seen(env, rest)
  }

  // ------------------------------------------------------ the undo log

  /** The process environment, as the one thread inside it sees it. */
  class Process {
    var env: Env
    var depth: nat
    var locked: bool

    ghost predicate Valid()
      reads this
    {
      locked <==> depth > 0
    }

    constructor (env: Env)
      ensures Valid() && this.env == env && depth == 0
    {
      this.env, depth, locked := env, 0, false;
    }

    /** Everything is as it was, whether the body returned or panicked; and the
        body, at every level, saw its own bindings over its caller's. */
    method WithVars(vars: seq<Binding>, body: Body) returns (outcome: Outcome, seen: seq<Env>)
      requires Valid()
      modifies this
      ensures Valid() && env == old(env) && depth == old(depth) && locked == old(locked)
      ensures outcome == EndOf(body) && seen == Seen(PutAll(old(env), vars), body)
      decreases body, 1
    {
      var outermost := depth == 0;
      if outermost {
        assert !locked;  // taking the lock does not wait
        locked := true;
      }
      depth := depth + 1;
      var saved: seq<Binding> := [];
      for i := 0 to |vars|
        invariant Undo(env, saved) == old(env) && env == PutAll(old(env), vars[..i])
        invariant locked && depth == old(depth) + 1
      {
        var (key, value) := vars[i];
        assert vars[..i + 1][..i] == vars[..i] && vars[..i + 1][i] == vars[i];
        UndoSaved(env, saved, vars[i]);
        saved := saved + [(key, if key in env then Some(env[key]) else None)];
        env := match value case Some(v) => env[key := v] case None => env - {key};
      }
      assert vars[..|vars|] == vars;
      outcome, seen := Run(body);
      // the guard is dropped
      depth := depth - 1;
      assert saved[..|saved|] == saved;
      for i := |saved| downto 0
        invariant Undo(env, saved[..i]) == old(env)
        invariant depth == old(depth) && locked
      {
        var (key, value) := saved[i];
        assert saved[..i + 1][..i] == saved[..i] && saved[..i + 1][i] == saved[i];
        env := match value case Some(v) => env[key := v] case None => env - {key};
      }
      if outermost {
        locked := false;
      }
    }

    method Run(body: Body) returns (outcome: Outcome, seen: seq<Env>)
      requires Valid() && depth > 0
      modifies this
      ensures Valid() && env == old(env) && depth == old(depth)
      ensures outcome == EndOf(body) && seen == Seen(old(env), body)
      decreases body, 0
    {
      match body
      case Done =>
        return Returned, [];
      case Panic =>
        return Panicked, [];
      case Look(rest) =>
        outcome, seen := Run(rest);
        seen := [env] + seen;
      case Nested(vars, inner, caught, rest) =>
        outcome, seen := WithVars(vars, inner);
        if outcome == Returned || caught {
          var after: seq<Env>;
          outcome, after := Run(rest);
          seen := seen + after;
        }
    }
  }
}
