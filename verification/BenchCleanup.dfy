/** Removing every journaled workload, and the evidence needed before one is
    reported removed. */
module BenchCleanup {
  import opened Text
  import opened BenchStart

  /** One round with the host: the answers to a stop and then a status request,
      `None` when there was no usable answer. */
  datatype Poll = Poll(stop: Option<WorkloadState>, status: Option<WorkloadState>)

  /** A stop reply that shows the host had the workload. */
  predicate StopShowsIt(r: Option<WorkloadState>) {
    r in {Some(Starting), Some(Running), Some(Stopping), Some(Completed)}
  }

  /** A status reply that shows the host has the workload. */
  predicate StatusShowsIt(r: Option<WorkloadState>) {
    r in {Some(Starting), Some(Running), Some(Stopping), Some(Error)}
  }

  predicate SaysGone(r: Option<WorkloadState>) {
    r in {Some(NotFound), Some(Completed)}
  }

  /** By the status reply of round `i`: the start was acknowledged, or some reply
      so far showed the workload. */
  ghost predicate KnownBy(acknowledged: bool, polls: seq<Poll>, i: int)
    requires i < |polls|
  {
    || acknowledged
    || (exists j :: 0 <= j <= i && StopShowsIt(polls[j].stop))
    || (exists j :: 0 <= j < i && StatusShowsIt(polls[j].status))
  }

  /** In some round a status reply says the workload is gone, and by then it was
      known to have been there. */
  ghost predicate Confirmed(acknowledged: bool, polls: seq<Poll>) {
    exists i :: 0 <= i < |polls| && SaysGone(polls[i].status) && KnownBy(acknowledged, polls, i)
  }

  /** The rounds with the host that fit before the deadline. */
  method CleanupOne(acknowledged: bool, polls: seq<Poll>) returns (removed: bool)
    ensures removed <==> Confirmed(acknowledged, polls)
  {
    var seen := acknowledged;
    for i := 0 to |polls|
      invariant seen <==> (acknowledged || (exists j :: 0 <= j < i && StopShowsIt(polls[j].stop))
                                        || (exists j :: 0 <= j < i && StatusShowsIt(polls[j].status)))
      invariant forall k | 0 <= k < i :: !(SaysGone(polls[k].status) && KnownBy(acknowledged, polls, k))
    {
      if polls[i].stop.Some? {
        seen := seen || polls[i].stop.value in {Starting, Running, Stopping, Completed};
      }
      assert seen <==> KnownBy(acknowledged, polls, i);
      if polls[i].status.Some? && polls[i].status.value in {NotFound, Completed} && seen {
        return true;
      }
      if polls[i].status.Some? && polls[i].status.value in {Starting, Running, Stopping, Error} {
        seen := true;
      }
    }
    return false;
  }

  /** The journaled IDs not confirmed removed, in some order, each once. */
  method Cleanup(entries: Journal, replies: string -> seq<Poll>) returns (residual: seq<string>)
    ensures forall id :: id in residual <==> id in entries && !Confirmed(entries[id], replies(id))
    ensures forall i, j | 0 <= i < j < |residual| :: residual[i] != residual[j]
  {
    residual := [];
    var ids := entries.Keys;
    while ids != {}
      invariant ids <= entries.Keys
      invariant forall id :: id in residual <==> id in entries.Keys - ids && !Confirmed(entries[id], replies(id))
      invariant forall i, j | 0 <= i < j < |residual| :: residual[i] != residual[j]
    {
      var id :| id in ids;
      ids := ids - {id};
      var removed := CleanupOne(entries[id], replies(id));
      if !removed {
        residual := residual + [id];
      }
    }
  }

  /** An unanswered start that is only ever answered with not-found is reported. */
  lemma OnlyNotFoundIsResidual(polls: seq<Poll>)
    requires forall i | 0 <= i < |polls| :: polls[i].stop in {None, Some(NotFound)} && polls[i].status in {None, Some(NotFound)}
    ensures !Confirmed(false, polls)
  {
  }

  // ------------------------------------------------------- the run's result

  datatype Result<+T, +E> = Ok(value: T) | Err(error: E)

  datatype RunError<+E> = RunFailed(error: E) | Uncleaned(residual: seq<string>, error: E)

  /** The run's result beside the IDs that could not be confirmed removed. */
  function Combine<T, E>(result: Result<T, E>, residual: seq<string>): Result<(T, Option<seq<string>>), RunError<E>> {
    match result
    case Ok(value) => Ok((value, if residual == [] then None else Some(residual)))
    case Err(e) => if residual == [] then Err(RunFailed(e)) else Err(Uncleaned(residual, e))
  }

  /** Neither form of result mentions an unconfirmed ID. */
  predicate ReportsClean<T, E>(r: Result<(T, Option<seq<string>>), RunError<E>>) {
    match r
    case Ok((_, cleanup)) => cleanup.None?
    case Err(e) => e.RunFailed?
  }

  /** The IDs that a result reports as possibly left behind. */
  function Unconfirmed<T, E>(r: Result<(T, Option<seq<string>>), RunError<E>>): seq<string> {
    match r
    case Ok((_, Some(ids))) => ids
    case Err(Uncleaned(ids, _)) => ids
    case _ => []
  }

  method WithCleanup<T, E>(result: Result<T, E>, journal: Journal, replies: string -> seq<Poll>)
      returns (r: Result<(T, Option<seq<string>>), RunError<E>>)
    ensures result.Ok? <==> r.Ok?
    ensures result.Ok? ==> r.value.0 == result.value
    ensures result.Err? ==> r.error.error == result.error
    ensures ReportsClean(r) <==> forall id | id in journal :: Confirmed(journal[id], replies(id))
    ensures forall id :: id in Unconfirmed(r) <==> id in journal && !Confirmed(journal[id], replies(id))
  {
    var residual := Cleanup(journal, replies);
    r := Combine(result, residual);
    assert residual == [] <==> forall id :: id !in residual by {
      if residual != [] { assert residual[0] in residual; }
    }
  }

  // ------------------------------------------------ nothing sent goes unnoticed

  /** No start goes out, and none is acknowledged, before its ID is journaled. */
  ghost predicate JournaledFirst(es: seq<Event>) {
    forall i | 0 <= i < |es| && (es[i].Sent? || es[i].Acknowledged?) :: Submitted(es[i].id) in es[..i]
  }

  lemma StartIsJournaledFirst(w: World, id: string, retries: nat)
    ensures JournaledFirst(StartTrace(w, id, retries))
  {
    var es := StartTrace(w, id, retries);
    TraceIsAbout(w, id, retries, 0);
    forall i | 0 <= i < |es| && (es[i].Sent? || es[i].Acknowledged?) ensures Submitted(es[i].id) in es[..i] {
      assert es[i] == TraceFrom(w, id, retries, 0)[i - 1];
      assert es[..i][0] == Submitted(id);
    }
  }

  lemma {:induction false} TraceIsAbout(w: World, id: string, retries: nat, a: nat)
    ensures forall e | e in TraceFrom(w, id, retries, a) :: e.id == id
    decreases retries - a
  {
    SettleTraceIsReplies(w, id, a, 0);
    if Resolve(w, a).None? && a < retries {
      TraceIsAbout(w, id, retries, a + 1);
    }
  }

  /** The traces with the last event of trace `t` taken off. */
  function Shorten(traces: seq<seq<Event>>, t: nat): seq<seq<Event>>
    requires t < |traces| && traces[t] != []
  {
    traces[t := traces[t][..|traces[t]| - 1]]
  }

  /** `gs` interleaves `traces`, which may be any number. */
  ghost predicate Interleaves(gs: seq<Event>, traces: seq<seq<Event>>)
    decreases |gs|
  {
    if gs == [] then forall t | 0 <= t < |traces| :: traces[t] == []
    else exists t: nat :: EndsWith(traces, t, gs[|gs| - 1]) && Interleaves(gs[..|gs| - 1], Shorten(traces, t))
  }

  predicate EndsWith(traces: seq<seq<Event>>, t: nat, e: Event) {
    t < |traces| && traces[t] != [] && traces[t][|traces[t]| - 1] == e
  }

  lemma {:induction false} InterleavingKeepsAll(gs: seq<Event>, traces: seq<seq<Event>>, t: nat, e: Event)
    requires Interleaves(gs, traces) && t < |traces| && e in traces[t]
    ensures e in gs
    decreases |gs|
  {
    var n := |gs| - 1;
    var u: nat :| EndsWith(traces, u, gs[n]) && Interleaves(gs[..n], Shorten(traces, u));
    if e in Shorten(traces, u)[t] {
      InterleavingKeepsAll(gs[..n], Shorten(traces, u), t, e);
    }
  }

  /** Traces that journal first do so however they are interleaved. */
  lemma {:induction false} InterleavingIsJournaledFirst(gs: seq<Event>, traces: seq<seq<Event>>)
    requires Interleaves(gs, traces) && forall t | 0 <= t < |traces| :: JournaledFirst(traces[t])
    ensures JournaledFirst(gs)
    decreases |gs|
  {
    if gs != [] {
      var n, e := |gs| - 1, gs[|gs| - 1];
      var u: nat :| EndsWith(traces, u, e) && Interleaves(gs[..n], Shorten(traces, u));
      PrefixIsJournaledFirst(traces[u], |traces[u]| - 1);
      InterleavingIsJournaledFirst(gs[..n], Shorten(traces, u));
      if e.Sent? || e.Acknowledged? {
        InterleavingKeepsAll(gs[..n], Shorten(traces, u), u, Submitted(e.id));
      }
      OneMoreJournaledFirst(gs);
    }
  }

  lemma OneMoreJournaledFirst(gs: seq<Event>)
    requires gs != [] && JournaledFirst(gs[..|gs| - 1])
    requires var e := gs[|gs| - 1]; e.Sent? || e.Acknowledged? ==> Submitted(e.id) in gs[..|gs| - 1]
    ensures JournaledFirst(gs)
  {
    var n := |gs| - 1;
    forall i | 0 <= i < |gs| && (gs[i].Sent? || gs[i].Acknowledged?) ensures Submitted(gs[i].id) in gs[..i] {
      if i < n {
        assert gs[..n][..i] == gs[..i] && gs[..n][i] == gs[i];
      }
    }
  }

  lemma PrefixIsJournaledFirst(es: seq<Event>, n: nat)
    requires JournaledFirst(es) && n <= |es|
    ensures JournaledFirst(es[..n])
  {
    forall i | 0 <= i < n && (es[..n][i].Sent? || es[..n][i].Acknowledged?) ensures Submitted(es[..n][i].id) in es[..n][..i] {
      assert es[..n][..i] == es[..i];
    }
  }

  /** The journal holds the submitted IDs, and marks the acknowledged ones. */
  lemma {:induction false} JournalIsExact(es: seq<Event>, id: string)
    requires JournaledFirst(es)
    ensures var j := RecordAll(map[], es);
            (id in j <==> Submitted(id) in es) && (id in j ==> (j[id] <==> Acknowledged(id) in es))
  {
    if es != [] {
      var n := |es| - 1;
      PrefixIsJournaledFirst(es, n);
      JournalIsExact(es[..n], id);
      InLast(es, Submitted(id));
      InLast(es, Acknowledged(id));
      if es[n] == Submitted(id) {
        AcknowledgedWasSubmitted(es[..n], id);
      }
    }
  }

  lemma InLast(es: seq<Event>, e: Event)
    requires es != []
    ensures e in es <==> e in es[..|es| - 1] || e == es[|es| - 1]
  {
    assert es == es[..|es| - 1] + [es[|es| - 1]];
  }

  lemma AcknowledgedWasSubmitted(es: seq<Event>, id: string)
    requires JournaledFirst(es)
    ensures Acknowledged(id) in es ==> Submitted(id) in es
  {
    if Acknowledged(id) in es {
      var i :| 0 <= i < |es| && es[i] == Acknowledged(id);
      assert Submitted(id) in es[..i];
    }
  }

  /** One start of the run; a skipped one does nothing. */
  datatype Launch = Launch(world: World, id: string, retries: nat, skipped: bool)

  function TraceOf(launch: Launch): seq<Event> {
    if launch.skipped then [] else StartTrace(launch.world, launch.id, launch.retries)
  }

  /** Any launches, batched or not, interleaved in any way. */
  lemma LaunchesAreJournaledFirst(launches: seq<Launch>, es: seq<Event>)
    requires Interleaves(es, seq(|launches|, i requires 0 <= i < |launches| => TraceOf(launches[i])))
    ensures JournaledFirst(es)
  {
    var traces := seq(|launches|, i requires 0 <= i < |launches| => TraceOf(launches[i]));
    forall t | 0 <= t < |traces| ensures JournaledFirst(traces[t]) {
      if !launches[t].skipped {
        StartIsJournaledFirst(launches[t].world, launches[t].id, launches[t].retries);
      }
    }
    InterleavingIsJournaledFirst(es, traces);
  }

  /** A run and its cleanup, wherever the run is cut short and however it ended:
      a result that mentions no unconfirmed ID means that every ID whose start
      was ever sent was confirmed removed, and conversely that is all it takes
      of the IDs that were journaled. */
  method CleanUpAfter<T, E>(launches: seq<Launch>, es: seq<Event>, n: nat, result: Result<T, E>, replies: string -> seq<Poll>)
      returns (r: Result<(T, Option<seq<string>>), RunError<E>>)
    requires Interleaves(es, seq(|launches|, i requires 0 <= i < |launches| => TraceOf(launches[i]))) && n <= |es|
    ensures ReportsClean(r) ==> forall id | Sent(id) in es[..n] :: Confirmed(Acknowledged(id) in es[..n], replies(id))
    ensures ReportsClean(r) <==> forall id | Submitted(id) in es[..n] :: Confirmed(Acknowledged(id) in es[..n], replies(id))
  {
    LaunchesAreJournaledFirst(launches, es);
    PrefixIsJournaledFirst(es, n);
    forall id {
      JournalIsExact(es[..n], id);
    }
    r := WithCleanup(result, RecordAll(map[], es[..n]), replies);
    forall id | Sent(id) in es[..n] ensures Submitted(id) in es[..n] {
      var i :| 0 <= i < n && es[i] == Sent(id);
      assert Submitted(id) in es[..i] && es[..i] <= es[..n];
    }
  }
}
