/** Starting one workload over a lossy host API: retries, status polling, the
    journal of submitted IDs, and the flag that halts further starts. */
module BenchStart {
  import opened Text

  datatype WorkloadState = Unspecified | Starting | Running | Completed | Stopping | Error | NotFound

  /** What a request comes back with. */
  datatype Reply = Status(state: WorkloadState) | Timeout | NoResponders | OtherError

  datatype Started = Live | Refused | Unanswered | Failed | Skipped

  /** An arbitrary host and clock: the reply to attempt `a`, the reply to the
      `p`th status query of attempt `a`, and how many of those polls leave the
      deadline still ahead. */
  datatype World = World(start: nat -> Reply, status: (nat, nat) -> Reply, patience: nat -> nat)

  datatype Event =
    | Submitted(id: string)                     // entered in the journal
    | Sent(id: string)                          // a start request goes out
    | StartReply(id: string, reply: Reply)
    | Acknowledged(id: string)                  // marked in the journal
    | StatusReply(id: string, reply: Reply)

  // ------------------------------------------------------------ one status loop

  /** What a status reply settles: an outcome, "the host never saw it", or
      nothing yet. */
  datatype Verdict = Outcome(result: Started) | NeverSeen | NotYet

  function Judge(r: Reply): Verdict {
    match r
    case Status(Running) => Outcome(Live)
    case Status(Error) => Outcome(Refused)
    case Status(NotFound) => NeverSeen
    case Status(Starting) => NotYet
    case Status(Unspecified) => NotYet
    case Status(_) => Outcome(Failed)
    case NoResponders => NeverSeen
    case _ => NotYet
  }

  /** The outcome the status replies lead to; none when the start has to be sent
      again because it did not reach the host. */
  function Settle(w: World, a: nat, p: nat): Option<Started>
    decreases w.patience(a) - p
  {
    match Judge(w.status(a, p))
    case Outcome(r) => Some(r)
    case NeverSeen => None
    case NotYet => if p >= w.patience(a) then Some(Unanswered) else Settle(w, a, p + 1)
  }

  function SettleTrace(w: World, id: string, a: nat, p: nat): (es: seq<Event>)
    ensures es != [] && es[0] == StatusReply(id, w.status(a, p))
    decreases w.patience(a) - p
  {
    var e := StatusReply(id, w.status(a, p));
    if Judge(w.status(a, p)).NotYet? && p < w.patience(a) then [e] + SettleTrace(w, id, a, p + 1) else [e]
  }

  // ---------------------------------------------------------------- one start

  predicate AsksStatus(r: Reply, a: nat) {
    match r
    case Status(Error) => a > 0
    case Status(Starting) => true
    case Status(Unspecified) => true
    case Timeout => true
    case _ => false
  }

  function Resolve(w: World, a: nat): Option<Started> {
    match w.start(a)
    case Status(Running) => Some(Live)
    case Status(Error) => if a > 0 && Settle(w, a, 0) == Some(Live) then Some(Live) else Some(Refused)
    case Status(Starting) => Settle(w, a, 0)
    case Status(Unspecified) => Settle(w, a, 0)
    case Status(_) => Some(Failed)
    case Timeout => Settle(w, a, 0)
    case NoResponders => None
    case OtherError => Some(Failed)
  }

  function StartFrom(w: World, retries: nat, a: nat): Started
    decreases retries - a
  {
    match Resolve(w, a)
    case Some(r) => r
    case None => if a >= retries then Unanswered else StartFrom(w, retries, a + 1)
  }

  function AttemptTrace(w: World, id: string, a: nat): seq<Event> {
    [Sent(id), StartReply(id, w.start(a))]
    + (if w.start(a).Status? then [Acknowledged(id)] else [])
    + if AsksStatus(w.start(a), a) then SettleTrace(w, id, a, 0) else []
  }

  function TraceFrom(w: World, id: string, retries: nat, a: nat): seq<Event>
    decreases retries - a
  {
    AttemptTrace(w, id, a) +
    if Resolve(w, a).None? && a < retries then TraceFrom(w, id, retries, a + 1) else []
  }

  /** Everything one start does, in order. */
  function StartTrace(w: World, id: string, retries: nat): seq<Event> {
    [Submitted(id)] + TraceFrom(w, id, retries, 0)
  }

  // -------------------------------------------------------------- the journal

  /** Submitted IDs, and whether the host acknowledged each. */
  type Journal = map<string, bool>

  function Record(j: Journal, e: Event): Journal {
    match e
    case Submitted(id) => if id in j then j else j[id := false]
    case Acknowledged(id) => if id in j then j[id := true] else j
    case _ => j
  }

  function RecordAll(j: Journal, es: seq<Event>): Journal {
    if es == [] then j else Record(RecordAll(j, es[..|es| - 1]), es[|es| - 1])
  }

  lemma {:induction false} RecordAppend(j: Journal, es: seq<Event>, fs: seq<Event>)
    ensures RecordAll(j, es + fs) == RecordAll(RecordAll(j, es), fs)
  {
    if fs == [] {
      assert es + fs == es;
    } else {
      var n := |fs| - 1;
      RecordAppend(j, es, fs[..n]);
      assert (es + fs)[..|es + fs| - 1] == es + fs[..n];
    }
  }

  class Bench {
    var halt: bool
    var journal: Journal

    constructor ()
      ensures !halt && journal == map[]
    {
      halt, journal := false, map[];
    }

    /** `events` is what happened, in order. */
    method Start(w: World, id: string, retries: nat) returns (r: Started, ghost events: seq<Event>)
      modifies this
      ensures old(halt) ==> r == Skipped && events == [] && halt && journal == old(journal)
      ensures !old(halt) ==>
        && r == StartFrom(w, retries, 0)
        && events == StartTrace(w, id, retries)
        && journal == RecordAll(old(journal), events)
        && (halt <==> r == Refused || r == Unanswered)
    {
      events := [];
      if halt {
        return Skipped, [];
      }
      if id !in journal {
        journal := journal[id := false];
      }
      events := [Submitted(id)];
      OneRecord(old(journal), Submitted(id));
      var attempt := 0;
      var resolved: Option<Started> := None;
      while true
        invariant attempt <= retries
        invariant StartFrom(w, retries, 0) == StartFrom(w, retries, attempt)
        invariant StartTrace(w, id, retries) == events + TraceFrom(w, id, retries, attempt)
        invariant journal == RecordAll(old(journal), events)
        invariant !halt
        decreases retries - attempt
      {
        ghost var turn, before;
        before := events;
        resolved, turn := Attempt(w, id, attempt);
        events := before + turn;
        RecordAppend(old(journal), before, turn);
        if resolved.Some? {
          r := resolved.value;
          assert turn + [] == turn;
          break;
        }
        if attempt >= retries {
          r := Unanswered;
          assert turn + [] == turn;
          break;
        }
        Associative(before, turn, TraceFrom(w, id, retries, attempt + 1));
        attempt := attempt + 1;
      }
      if r == Refused || r == Unanswered {
        halt := true;
      }
    }

    /** One turn of the retry loop. */
    method Attempt(w: World, id: string, attempt: nat) returns (resolved: Option<Started>, ghost events: seq<Event>)
      modifies this`journal
      ensures resolved == Resolve(w, attempt)
      ensures events == AttemptTrace(w, id, attempt)
      ensures journal == RecordAll(old(journal), events)
    {
      AttemptRecord(old(journal), w, id, attempt);
      events := [Sent(id), StartReply(id, w.start(attempt))];
      match w.start(attempt) {
        case Status(state) =>
          if id in journal {
            journal := journal[id := true];
          }
          events := events + [Acknowledged(id)];
          match state {
            case Running => resolved := Some(Live);
            case Error =>
              resolved := Some(Refused);
              if attempt > 0 {
                var settled;
                settled, events := SettleLoop(w, id, attempt, events);
                if settled == Some(Live) {
                  resolved := settled;
                }
              }
            case Starting => resolved, events := SettleLoop(w, id, attempt, events);
            case Unspecified => resolved, events := SettleLoop(w, id, attempt, events);
            case _ => resolved := Some(Failed);
          }
        case Timeout => resolved, events := SettleLoop(w, id, attempt, events);
        case NoResponders => resolved := None;
        case OtherError => resolved := Some(Failed);
      }
    }

    method SettleLoop(w: World, id: string, attempt: nat, ghost before: seq<Event>)
      returns (r: Option<Started>, ghost events: seq<Event>)
      ensures r == Settle(w, attempt, 0)
      ensures events == before + SettleTrace(w, id, attempt, 0)
    {
      events := before;
      var poll := 0;
      while true
        invariant Settle(w, attempt, 0) == Settle(w, attempt, poll)
        invariant before + SettleTrace(w, id, attempt, 0) == events + SettleTrace(w, id, attempt, poll)
        decreases w.patience(attempt) - poll
      {
        var reply := w.status(attempt, poll);
        events := events + [StatusReply(id, reply)];
        match reply {
          case Status(Running) => return Some(Live), events;
          case Status(Error) => return Some(Refused), events;
          case Status(NotFound) => return None, events;
          case Status(Starting) =>
          case Status(Unspecified) =>
          case Status(_) => return Some(Failed), events;
          case NoResponders => return None, events;
          case _ =>
        }
        if poll >= w.patience(attempt) {
          return Some(Unanswered), events;
        }
        poll := poll + 1;
      }
    }
  }

  lemma OneRecord(j: Journal, e: Event)
    ensures RecordAll(j, [e]) == Record(j, e)
  {
    assert [e][..|[e]| - 1] == [];
  }

  lemma Associative<T>(a: seq<T>, b: seq<T>, c: seq<T>)
    ensures a + (b + c) == a + b + c
  {
  }

  lemma {:induction false} StatusRepliesRecordNothing(j: Journal, w: World, id: string, a: nat, p: nat)
    ensures RecordAll(j, SettleTrace(w, id, a, p)) == j
    decreases w.patience(a) - p
  {
    var e := StatusReply(id, w.status(a, p));
    OneRecord(j, e);
    if Judge(w.status(a, p)).NotYet? && p < w.patience(a) {
      RecordAppend(j, [e], SettleTrace(w, id, a, p + 1));
      StatusRepliesRecordNothing(j, w, id, a, p + 1);
    }
  }

  lemma AttemptRecord(j: Journal, w: World, id: string, a: nat)
    ensures RecordAll(j, AttemptTrace(w, id, a)) == if w.start(a).Status? then Record(j, Acknowledged(id)) else j
  {
    var sent, reply := Sent(id), StartReply(id, w.start(a));
    var ack := if w.start(a).Status? then [Acknowledged(id)] else [];
    var tail := if AsksStatus(w.start(a), a) then SettleTrace(w, id, a, 0) else [];
    assert [sent, reply] == [sent] + [reply];
    RecordAppend(j, [sent], [reply]);
    OneRecord(j, sent);
    OneRecord(j, reply);
    RecordAppend(j, [sent, reply], ack);
    OneRecord(j, Acknowledged(id));
    var k := RecordAll(j, ack);
    RecordAppend(j, [sent, reply] + ack, tail);
    StatusRepliesRecordNothing(k, w, id, a, 0);
  }

  // --------------------------------------------------- what every start does

  function CountSent(es: seq<Event>): nat {
    if es == [] then 0 else CountSent(es[..|es| - 1]) + if es[|es| - 1].Sent? then 1 else 0
  }

  lemma {:induction false} CountSentAppend(es: seq<Event>, fs: seq<Event>)
    ensures CountSent(es + fs) == CountSent(es) + CountSent(fs)
  {
    if fs == [] {
      assert es + fs == es;
    } else {
      var n := |fs| - 1;
      CountSentAppend(es, fs[..n]);
      assert (es + fs)[..|es + fs| - 1] == es + fs[..n];
    }
  }

  lemma {:induction false} NothingSent(es: seq<Event>)
    requires forall i | 0 <= i < |es| :: !es[i].Sent?
    ensures CountSent(es) == 0
  {
    if es != [] {
      NothingSent(es[..|es| - 1]);
    }
  }

  lemma {:induction false} SettleTraceIsReplies(w: World, id: string, a: nat, p: nat)
    ensures forall i | 0 <= i < |SettleTrace(w, id, a, p)| :: SettleTrace(w, id, a, p)[i].StatusReply? && SettleTrace(w, id, a, p)[i].id == id
    decreases w.patience(a) - p
  {
    if Judge(w.status(a, p)).NotYet? && p < w.patience(a) {
      SettleTraceIsReplies(w, id, a, p + 1);
    }
  }

  lemma AttemptSendsOnce(w: World, id: string, a: nat)
    ensures CountSent(AttemptTrace(w, id, a)) == 1
    ensures forall i | 0 < i < |AttemptTrace(w, id, a)| :: !AttemptTrace(w, id, a)[i].Sent?
  {
    var es := AttemptTrace(w, id, a);
    SettleTraceIsReplies(w, id, a, 0);
    assert es == [Sent(id)] + es[1..];
    CountSentAppend([Sent(id)], es[1..]);
    NothingSent(es[1..]);
    assert [Sent(id)][..|[Sent(id)]| - 1] == [];
  }

  /** At most `retries + 1` start requests go out. */
  lemma {:induction false} BoundedStarts(w: World, id: string, retries: nat, a: nat)
    requires a <= retries
    ensures CountSent(TraceFrom(w, id, retries, a)) <= retries + 1 - a
    decreases retries - a
  {
    AttemptSendsOnce(w, id, a);
    if Resolve(w, a).None? && a < retries {
      CountSentAppend(AttemptTrace(w, id, a), TraceFrom(w, id, retries, a + 1));
      BoundedStarts(w, id, retries, a + 1);
    } else {
      assert AttemptTrace(w, id, a) + [] == AttemptTrace(w, id, a);
    }
  }

  /** The host says it never saw the start, or is not listening. */
  predicate SaysUnseen(e: Event) {
    || (e.StartReply? && e.reply == NoResponders)
    || (e.StatusReply? && e.reply in {NoResponders, Status(NotFound)})
  }

  /** The replies that decide a start: the workload runs; there was an error; or
      it is in a state that is neither, or the request itself went wrong. */
  datatype Report = Up | Erred | Broken

  predicate Reports(e: Event, report: Report) {
    match report
    case Up => (e.StartReply? || e.StatusReply?) && e.reply == Status(Running)
    case Erred => (e.StartReply? || e.StatusReply?) && e.reply == Status(Error)
    case Broken =>
      || ((e.StartReply? || e.StatusReply?) && e.reply in {Status(Stopping), Status(Completed)})
      || (e.StartReply? && e.reply in {Status(NotFound), OtherError})
  }

  ghost predicate Reported(es: seq<Event>, report: Report) {
    exists i :: 0 <= i < |es| && Reports(es[i], report)
  }

  lemma ReportedAppend(es: seq<Event>, fs: seq<Event>, report: Report)
    ensures Reported(es + fs, report) <==> Reported(es, report) || Reported(fs, report)
  {
    if i :| 0 <= i < |es| && Reports(es[i], report) {
      assert (es + fs)[i] == es[i];
    }
    if i :| 0 <= i < |fs| && Reports(fs[i], report) {
      assert (es + fs)[|es| + i] == fs[i];
    }
  }

  lemma ReportedOne(e: Event, report: Report)
    ensures Reported([e], report) <==> Reports(e, report)
  {
    assert [e][0] == e;
  }

  /** `r` is what was heard in `es`; nothing decisive was if it is none or unanswered. */
  ghost predicate MatchesReplies(r: Option<Started>, es: seq<Event>) {
    && (r == Some(Live) <==> Reported(es, Up))
    && (r == Some(Refused) <==> Reported(es, Erred) && !Reported(es, Up))
    && (r == Some(Failed) <==> Reported(es, Broken) && !Reported(es, Erred))
    && r != Some(Skipped)
  }

  lemma {:induction false} SettleEnds(w: World, id: string, a: nat, p: nat)
    ensures var es, r := SettleTrace(w, id, a, p), Settle(w, a, p);
            && (r == None ==> SaysUnseen(es[|es| - 1]))
            && MatchesReplies(r, es)
            && (Reported(es, Up) ==> !Reported(es, Erred) && !Reported(es, Broken))
    decreases w.patience(a) - p
  {
    var e := StatusReply(id, w.status(a, p));
    ReportedOne(e, Up);
    ReportedOne(e, Erred);
    ReportedOne(e, Broken);
    if Judge(w.status(a, p)).NotYet? && p < w.patience(a) {
      SettleEnds(w, id, a, p + 1);
      var rest := SettleTrace(w, id, a, p + 1);
      ReportedAppend([e], rest, Up);
      ReportedAppend([e], rest, Erred);
      ReportedAppend([e], rest, Broken);
    }
  }

  lemma AttemptParts(w: World, id: string, a: nat, report: Report)
    ensures Reported(AttemptTrace(w, id, a), report) <==>
            || Reports(StartReply(id, w.start(a)), report)
            || (AsksStatus(w.start(a), a) && Reported(SettleTrace(w, id, a, 0), report))
  {
    var first := [Sent(id)] + [StartReply(id, w.start(a))];
    var ack := if w.start(a).Status? then [Acknowledged(id)] else [];
    var rest := if AsksStatus(w.start(a), a) then SettleTrace(w, id, a, 0) else [];
    ReportedOne(Sent(id), report);
    ReportedOne(StartReply(id, w.start(a)), report);
    ReportedAppend([Sent(id)], [StartReply(id, w.start(a))], report);
    ReportedOne(Acknowledged(id), report);
    assert !Reported([], report);
    ReportedAppend(first, ack, report);
    ReportedAppend(first + ack, rest, report);
    assert AttemptTrace(w, id, a) == first + ack + rest;
  }

  lemma AttemptEnds(w: World, id: string, a: nat)
    ensures var es := AttemptTrace(w, id, a);
            MatchesReplies(Resolve(w, a), es) && (Resolve(w, a) == None ==> SaysUnseen(es[|es| - 1]))
  {
    SettleEnds(w, id, a, 0);
    AttemptParts(w, id, a, Up);
    AttemptParts(w, id, a, Erred);
    AttemptParts(w, id, a, Broken);
  }

  /** A start is sent again only right after the host said it never saw it. */
  ghost predicate ResendsJustified(es: seq<Event>) {
    forall i | 0 < i < |es| && es[i].Sent? :: es[i - 1].Submitted? || SaysUnseen(es[i - 1])
  }

  lemma {:induction false} ResendOnlyUnseen(w: World, id: string, retries: nat, a: nat)
    ensures TraceFrom(w, id, retries, a) != [] && ResendsJustified(TraceFrom(w, id, retries, a))
    decreases retries - a
  {
    var es := AttemptTrace(w, id, a);
    AttemptSendsOnce(w, id, a);
    AttemptEnds(w, id, a);
    if Resolve(w, a).None? && a < retries {
      ResendOnlyUnseen(w, id, retries, a + 1);
      var fs := TraceFrom(w, id, retries, a + 1);
      var all := es + fs;
      forall i | 0 < i < |all| && all[i].Sent? ensures SaysUnseen(all[i - 1]) || all[i - 1].Submitted? {
        if i > |es| {
          assert all[i] == fs[i - |es|] && all[i - 1] == fs[i - |es| - 1];
        }
      }
    } else {
      assert es + [] == es;
    }
  }

  /** What a start comes back with follows from what was heard. */
  lemma {:induction false} ResultWasReported(w: World, id: string, retries: nat, a: nat)
    ensures MatchesReplies(Some(StartFrom(w, retries, a)), TraceFrom(w, id, retries, a))
    decreases retries - a
  {
    var es := AttemptTrace(w, id, a);
    AttemptEnds(w, id, a);
    if Resolve(w, a).None? && a < retries {
      var fs := TraceFrom(w, id, retries, a + 1);
      ResultWasReported(w, id, retries, a + 1);
      ReportedAppend(es, fs, Up);
      ReportedAppend(es, fs, Erred);
      ReportedAppend(es, fs, Broken);
    } else {
      assert es + [] == es;
    }
  }

  /** For every host, clock and number of retries: a start sends at most
      `retries + 1` requests; sends again only right after a reply that the host
      never saw it or is not listening; and comes back live if and only if some
      reply reported it running, else refused if and only if some reply was an
      error, else failed if and only if some reply named another state or the
      request went wrong, and unanswered otherwise. */
  lemma StartRetries(w: World, id: string, retries: nat)
    ensures CountSent(StartTrace(w, id, retries)) <= retries + 1
    ensures ResendsJustified(StartTrace(w, id, retries))
    ensures StartFrom(w, retries, 0) ==
            var es := StartTrace(w, id, retries);
            if Reported(es, Up) then Live else if Reported(es, Erred) then Refused else if Reported(es, Broken) then Failed else Unanswered
  {
    var es := TraceFrom(w, id, retries, 0);
    BoundedStarts(w, id, retries, 0);
    ResendOnlyUnseen(w, id, retries, 0);
    ResultFromTrace(w, id, retries);
    CountSentAppend([Submitted(id)], es);
    assert [Submitted(id)][..|[Submitted(id)]| - 1] == [];
    assert forall i | 0 < i < |StartTrace(w, id, retries)| :: StartTrace(w, id, retries)[i] == es[i - 1];
  }

  lemma ResultFromTrace(w: World, id: string, retries: nat)
    ensures MatchesReplies(Some(StartFrom(w, retries, 0)), StartTrace(w, id, retries))
  {
    var es, first := TraceFrom(w, id, retries, 0), [Submitted(id)];
    ResultWasReported(w, id, retries, 0);
    ReportedOne(Submitted(id), Up);
    ReportedOne(Submitted(id), Erred);
    ReportedOne(Submitted(id), Broken);
    ReportedAppend(first, es, Up);
    ReportedAppend(first, es, Erred);
    ReportedAppend(first, es, Broken);
  }

  /** The deadline passes with nothing decided exactly when every reply left it
      open: still on the way up, or no answer. */
  lemma {:induction false} DeadlineIffUndecided(w: World, a: nat, p: nat)
    requires p <= w.patience(a)
    ensures Settle(w, a, p) == Some(Unanswered) <==>
            forall q: nat | p <= q <= w.patience(a) ::
              w.status(a, q) in {Status(Starting), Status(Unspecified), Timeout, OtherError}
    decreases w.patience(a) - p
  {
    if p < w.patience(a) {
      DeadlineIffUndecided(w, a, p + 1);
    }
  }

  ghost predicate AsksFor(es: seq<Event>) {
    exists i :: 0 <= i < |es| && es[i].StatusReply?
  }

  /** An attempt asks for the status exactly when its request went unanswered, when
      the workload is on its way up, or when a repeated request was an error, which
      may be because the first one did start. */
  lemma StatusIsAskedIff(w: World, id: string, a: nat)
    ensures AsksFor(AttemptTrace(w, id, a)) <==>
            || w.start(a) in {Timeout, Status(Starting), Status(Unspecified)}
            || (w.start(a) == Status(Error) && a > 0)
  {
    SettleTraceIsReplies(w, id, a, 0);
    if AsksStatus(w.start(a), a) {
      var es, n := AttemptTrace(w, id, a), if w.start(a).Status? then 3 else 2;
      assert es[n] == SettleTrace(w, id, a, 0)[0];
    }
  }

  /** A first request that is answered with an error is not tried again. */
  lemma FirstErrorIsFinal(w: World, id: string, retries: nat)
    requires w.start(0) == Status(Error)
    ensures StartFrom(w, retries, 0) == Refused
    ensures StartTrace(w, id, retries) == [Submitted(id), Sent(id), StartReply(id, Status(Error)), Acknowledged(id)]
  {
    assert AttemptTrace(w, id, 0) == [Sent(id), StartReply(id, Status(Error)), Acknowledged(id)];
  }

  /** A start that comes back unanswered with the host not having seen it was sent
      as often as it may be. */
  lemma {:induction false} GivesUpOnlyAfterAllRetries(w: World, id: string, retries: nat, a: nat)
    requires a <= retries
    ensures var es := TraceFrom(w, id, retries, a);
            && es != []
            && (StartFrom(w, retries, a) == Unanswered && SaysUnseen(es[|es| - 1]) ==> CountSent(es) == retries + 1 - a)
    decreases retries - a
  {
    var es := AttemptTrace(w, id, a);
    AttemptSendsOnce(w, id, a);
    UnseenIsUnresolved(w, id, a);
    if Resolve(w, a).None? && a < retries {
      var fs := TraceFrom(w, id, retries, a + 1);
      GivesUpOnlyAfterAllRetries(w, id, retries, a + 1);
      CountSentAppend(es, fs);
      assert (es + fs)[|es + fs| - 1] == fs[|fs| - 1];
    } else {
      assert es + [] == es;
    }
  }

  lemma UnseenIsUnresolved(w: World, id: string, a: nat)
    ensures var es := AttemptTrace(w, id, a);
            SaysUnseen(es[|es| - 1]) && w.start(a) != Status(Error) ==> Resolve(w, a).None?
    ensures w.start(a) == Status(Error) ==> Resolve(w, a).Some?
  {
    var es := AttemptTrace(w, id, a);
    if AsksStatus(w.start(a), a) {
      var fs := SettleTrace(w, id, a, 0);
      assert es[|es| - 1] == fs[|fs| - 1];
      UnseenIsUnsettled(w, id, a, 0);
    }
  }

  lemma {:induction false} UnseenIsUnsettled(w: World, id: string, a: nat, p: nat)
    ensures var fs := SettleTrace(w, id, a, p); SaysUnseen(fs[|fs| - 1]) ==> Settle(w, a, p).None?
    decreases w.patience(a) - p
  {
    if Judge(w.status(a, p)).NotYet? && p < w.patience(a) {
      UnseenIsUnsettled(w, id, a, p + 1);
    }
  }
}
