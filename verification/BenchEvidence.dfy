/** What the evidence that a workload is gone is worth.  One workload's start
    requests reach a host that may answer late or not at all; the bench sees
    replies, and cleans up.  A run is any sequence of steps, and a step that is
    not possible changes nothing. */
module BenchEvidence {
  import opened Text
  import opened BenchStart
  import opened BenchCleanup

  /** The host's table entry for the workload's ID: none, a start that holds it
      while it starts or runs, or one that failed or is being torn down. */
  datatype Entry = Free | Held(owner: nat) | Ending(owner: nat)

  /** Start requests are numbered as they are sent: those that wait at the host,
      those it has handled, and which of these it accepted.  On the bench's side:
      what happened while starting, then the stop reply of the round under way
      and the finished rounds.  `accounted` is history: the handled requests that
      the replies heard so far give away. */
  datatype Site = Site(
    queued: set<nat>, handled: set<nat>, accepted: set<nat>, entry: Entry, accounted: set<nat>,
    events: seq<Event>, stop: Option<Option<WorkloadState>>, polls: seq<Poll>)

  const EMPTY_SITE := Site({}, {}, {}, Free, {}, [], None, [])

  datatype Action =
    | Observe(event: Event)                 // the next thing the bench does or hears
    | Handle(request: nat, accept: bool)    // start it, or refuse to; an ID in use is always refused
    | Lose(request: nat)
    | Fail                                  // the start, or what it started, fails
    | Forget                                // a failed start gives the ID back, or the host restarts
    | Stop(reply: Option<WorkloadState>, removes: bool)
    | Query(reply: Option<WorkloadState>)

  /** What a named state says about the entry. */
  datatype Sense = Holding | Leaving | Missing | Unclear

  function SenseOf(state: WorkloadState): Sense {
    match state
    case Starting => Holding
    case Running => Holding
    case Stopping => Leaving
    case Error => Leaving
    case NotFound => Missing
    case Completed => Missing
    case Unspecified => Unclear
  }

  /** A status names the state of the entry. */
  predicate Agrees(entry: Entry, state: WorkloadState) {
    match SenseOf(state)
    case Holding => entry.Held?
    case Leaving => entry.Ending?
    case Missing => entry.Free?
    case Unclear => true
  }

  /** Cleanup takes exactly what names an entry for evidence that there was one,
      and exactly what names none for evidence that it is gone. */
  lemma EvidenceNamesTheEntry(state: WorkloadState)
    ensures StatusShowsIt(Some(state)) <==> SenseOf(state) in {Holding, Leaving}
    ensures SaysGone(Some(state)) <==> SenseOf(state) == Missing
    ensures StopShowsIt(Some(state)) <==> state == Completed || (SenseOf(state) in {Holding, Leaving} && state != Error)
  {
  }

  predicate BeforeCleanup(s: Site) {
    s.stop == None && s.polls == []
  }

  predicate JustSent(es: seq<Event>) {
    es != [] && es[|es| - 1].Sent?
  }

  /** The request last sent. */
  function Latest(es: seq<Event>): nat {
    var n := CountSent(es);
    if n == 0 then 0 else n - 1
  }

  /** A host answers a start once it has handled it: that it is starting or
      running if it accepted it, and with an error or a denial only if that start
      does not hold the ID. */
  predicate Answers(s: Site, request: nat, state: WorkloadState) {
    && request in s.handled
    && match SenseOf(state)
       case Holding => request in s.accepted
       case Leaving => s.entry != Held(request)
       case Missing => s.entry != Held(request) && s.entry != Ending(request)
       case Unclear => true
  }

  /** That nobody responds means that the request reached no host. */
  predicate Possible(s: Site, e: Event) {
    match e
    case Submitted(_) => s.events == []
    case Sent(_) => !JustSent(s.events)
    case StartReply(_, r) =>
      && JustSent(s.events)
      && (r.Status? ==> Answers(s, Latest(s.events), r.state))
      && (r == NoResponders ==> Latest(s.events) in s.queued)
    case Acknowledged(_) => s.events != [] && s.events[|s.events| - 1].StartReply? && s.events[|s.events| - 1].reply.Status?
    case StatusReply(_, r) => !JustSent(s.events) && (r.Status? ==> Agrees(s.entry, r.state))
  }

  function Queue(s: Site, e: Event): set<nat> {
    match e
    case Sent(_) => s.queued + {CountSent(s.events)}
    case StartReply(_, r) => if r == NoResponders then s.queued - {Latest(s.events)} else s.queued
    case _ => s.queued
  }

  function Owner(entry: Entry): set<nat> {
    if entry.Free? then {} else {entry.owner}
  }

  // ------------------------------------------------- what the bench can tell

  /** How many requests the host must have handled; whether one of those may hold
      the ID now, and whether one of those may be in the entry at all. */
  datatype Tally = Tally(count: nat, held: bool, present: bool)

  /** Each answered request was handled.  A state that no request counted so far
      can account for, because it was refused, or failed, or was denied since,
      gives away one more. */
  function Hear(t: Tally, e: Event): Tally {
    match e
    case StartReply(_, Status(state)) =>
      (match SenseOf(state)
       case Holding => Tally(t.count + 1, true, true)
       case Unclear => Tally(t.count + 1, true, true)
       case Leaving => Tally(t.count + 1, t.held, true)
       case Missing => Tally(t.count + 1, t.held, t.present))
    case StatusReply(_, Status(state)) =>
      (match SenseOf(state)
       case Holding => Tally(if t.held then t.count else t.count + 1, true, true)
       case Leaving => Tally(if t.present then t.count else t.count + 1, false, true)
       case Missing => Tally(t.count, false, false)
       case Unclear => t)
    case _ => t
  }

  function TallyOf(es: seq<Event>): Tally {
    if es == [] then Tally(0, false, false) else Hear(TallyOf(es[..|es| - 1]), es[|es| - 1])
  }

  /** The requests that may have reached the host. */
  function Delivered(es: seq<Event>): set<nat> {
    if es == [] then {}
    else
      var init, e := es[..|es| - 1], es[|es| - 1];
      match e
      case Sent(_) => Delivered(init) + {CountSent(init)}
      case StartReply(_, r) => if r == NoResponders then Delivered(init) - {Latest(init)} else Delivered(init)
      case _ => Delivered(init)
  }

  /** At no point do the replies give away more requests than may have reached
      the host. */
  predicate Answerable(es: seq<Event>) {
    es == [] || (Answerable(es[..|es| - 1]) && TallyOf(es).count <= |Delivered(es)|)
  }

  predicate IsAcknowledged(es: seq<Event>) {
    exists i :: 0 <= i < |es| && es[i].Acknowledged?
  }

  /** If a host can have given these replies: it handled every request that may
      have reached it, or all but one, and that one is the only thing that
      cleanup could come to see. */
  predicate Conclusive(es: seq<Event>) {
    Answerable(es) ==>
      || |Delivered(es)| <= TallyOf(es).count
      || (|Delivered(es)| == TallyOf(es).count + 1 && !IsAcknowledged(es) && !TallyOf(es).present)
  }

  // --------------------------------------------------------------- the machine

  function Account(s: Site, e: Event): set<nat> {
    match e
    case StartReply(_, Status(_)) => s.accounted + {Latest(s.events)}
    case StatusReply(_, Status(_)) =>
      if TallyOf(s.events + [e]).count > TallyOf(s.events).count then s.accounted + Owner(s.entry) else s.accounted
    case _ => s.accounted
  }

  function Heard(s: Site, e: Event): Site {
    s.(queued := Queue(s, e), accounted := Account(s, e), events := s.events + [e])
  }

  function Next(s: Site, a: Action): Site {
    match a
    case Observe(e) => if BeforeCleanup(s) && Possible(s, e) then Heard(s, e) else s
    case Handle(i, accept) =>
      if i !in s.queued then s
      else
        var t := s.(queued := s.queued - {i}, handled := s.handled + {i});
        if accept && s.entry.Free? then t.(accepted := s.accepted + {i}, entry := Held(i)) else t
    case Lose(i) => s.(queued := s.queued - {i})
    case Fail => if s.entry.Held? then s.(entry := Ending(s.entry.owner)) else s
    case Forget => s.(entry := Free)
    case Stop(reply, removes) =>
      if s.stop.Some? || (StopShowsIt(reply) && s.entry.Free?) || (reply == Some(NotFound) && !s.entry.Free?) then s
      else s.(stop := Some(reply), entry := if removes || s.entry.Free? then Free else Ending(s.entry.owner))
    case Query(reply) =>
      if s.stop.None? || (reply.Some? && !Agrees(s.entry, reply.value)) then s
      else s.(stop := None, polls := s.polls + [Poll(s.stop.value, reply)])
  }

  function Run(actions: seq<Action>): Site {
    if actions == [] then EMPTY_SITE else Next(Run(actions[..|actions| - 1]), actions[|actions| - 1])
  }

  // ------------------------------------------------------------ the invariant

  predicate HostOk(s: Site) {
    && s.queued !! s.handled
    && s.queued + s.handled <= Delivered(s.events)
    && s.accepted <= s.handled && Owner(s.entry) <= s.accepted
    && (forall i | i in Delivered(s.events) :: i < CountSent(s.events))
  }

  /** What is known of the accounted requests is true of the entry. */
  predicate EntryOk(entry: Entry, accounted: set<nat>, t: Tally) {
    && (t.held ==> t.present)
    && (entry.Held? && !t.held ==> entry.owner !in accounted)
    && (entry.Ending? && !t.present ==> entry.owner !in accounted)
  }

  /** The accounted requests are as many as the bench can tell, and what it knows
      of them is true of the entry. */
  predicate TallyOk(s: Site) {
    var t := TallyOf(s.events);
    && s.accounted <= s.handled && |s.accounted| == t.count && Answerable(s.events)
    && (JustSent(s.events) ==> Latest(s.events) !in s.accounted)
    && EntryOk(s.entry, s.accounted, t)
  }

  lemma EventSnoc(es: seq<Event>, e: Event)
    ensures Delivered(es + [e]) ==
            match e
            case Sent(_) => Delivered(es) + {CountSent(es)}
            case StartReply(_, r) => if r == NoResponders then Delivered(es) - {Latest(es)} else Delivered(es)
            case _ => Delivered(es)
    ensures CountSent(es + [e]) == CountSent(es) + if e.Sent? then 1 else 0
    ensures TallyOf(es + [e]) == Hear(TallyOf(es), e)
    ensures Answerable(es + [e]) <==> Answerable(es) && TallyOf(es + [e]).count <= |Delivered(es + [e])|
    ensures JustSent(es + [e]) <==> e.Sent?
  {
    assert (es + [e])[..|es|] == es && (es + [e])[|es|] == e;
  }

  lemma Smaller(a: set<nat>, b: set<nat>)
    requires a <= b
    ensures |a| <= |b|
    ensures |a| == |b| ==> a == b
  {
    assert b == a + (b - a);
    assert |b| == |a| + |b - a|;
  }

  lemma TakeOut(a: set<nat>, i: nat)
    ensures |a - {i}| == |a| - if i in a then 1 else 0
  {
    if i in a {
      assert a == (a - {i}) + {i};
    } else {
      assert a - {i} == a;
    }
  }

  lemma ObserveKeepsHost(s: Site, e: Event)
    requires HostOk(s) && Possible(s, e)
    ensures HostOk(Heard(s, e))
  {
    EventSnoc(s.events, e);
  }

  lemma AnswerKeepsTally(s: Site, e: Event)
    requires HostOk(s) && TallyOk(s) && Possible(s, e) && e.StartReply?
    ensures Heard(s, e).accounted <= s.handled && |Heard(s, e).accounted| == Hear(TallyOf(s.events), e).count
    ensures EntryOk(s.entry, Heard(s, e).accounted, Hear(TallyOf(s.events), e))
  {
    if e.reply.Status? {
      AnswerIsCounted(s.entry, s.accounted, TallyOf(s.events), Latest(s.events), e.reply.state, e);
    }
  }

  lemma AnswerIsCounted(entry: Entry, accounted: set<nat>, t: Tally, k: nat, state: WorkloadState, e: Event)
    requires EntryOk(entry, accounted, t) && |accounted| == t.count && k !in accounted
    requires e.StartReply? && e.reply == Status(state)
    requires SenseOf(state) == Leaving ==> entry != Held(k)
    requires SenseOf(state) == Missing ==> entry != Held(k) && entry != Ending(k)
    ensures |accounted + {k}| == Hear(t, e).count && EntryOk(entry, accounted + {k}, Hear(t, e))
  {
  }

  lemma StatusKeepsTally(s: Site, e: Event)
    requires HostOk(s) && TallyOk(s) && Possible(s, e) && e.StatusReply?
    ensures Heard(s, e).accounted <= s.handled && |Heard(s, e).accounted| == Hear(TallyOf(s.events), e).count
    ensures EntryOk(s.entry, Heard(s, e).accounted, Hear(TallyOf(s.events), e))
  {
    EventSnoc(s.events, e);
    assert Owner(s.entry) <= s.handled;
  }

  lemma ObserveKeepsTally(s: Site, e: Event)
    requires HostOk(s) && TallyOk(s) && Possible(s, e)
    ensures TallyOk(Heard(s, e))
  {
    EventSnoc(s.events, e);
    ObserveKeepsHost(s, e);
    if e.StartReply? {
      AnswerKeepsTally(s, e);
    } else if e.StatusReply? {
      StatusKeepsTally(s, e);
    }
    Smaller(Heard(s, e).accounted, Delivered(s.events + [e]));
  }

  lemma StepKeepsHost(s: Site, a: Action)
    requires HostOk(s)
    ensures HostOk(Next(s, a))
  {
    if a.Observe? && BeforeCleanup(s) && Possible(s, a.event) {
      ObserveKeepsHost(s, a.event);
    }
  }

  lemma StepKeepsTally(s: Site, a: Action)
    requires HostOk(s) && TallyOk(s)
    ensures TallyOk(Next(s, a))
  {
    if a.Observe? && BeforeCleanup(s) && Possible(s, a.event) {
      ObserveKeepsTally(s, a.event);
    }
  }

  // ------------------------------------------------------- what cleanup can know

  /** Known to have been there, by the end of what the bench has heard. */
  ghost predicate Known(s: Site) {
    || IsAcknowledged(s.events)
    || (s.stop.Some? && StopShowsIt(s.stop.value))
    || (exists j :: 0 <= j < |s.polls| && (StopShowsIt(s.polls[j].stop) || StatusShowsIt(s.polls[j].status)))
  }

  /** Something besides the replies to the starts accounts for it. */
  predicate SeenMore(s: Site) {
    s.accounted < s.handled
  }

  ghost predicate BenchOk(s: Site) {
    && (Known(s) ==> IsAcknowledged(s.events) || TallyOf(s.events).present || SeenMore(s))
    && (Conclusive(s.events) && Confirmed(IsAcknowledged(s.events), s.polls) ==> s.queued == {} && s.entry.Free?)
  }

  /** When the replies are conclusive and the workload is known to have been
      there, nothing waits at the host. */
  lemma NothingWaits(s: Site)
    requires HostOk(s) && TallyOk(s) && BenchOk(s) && Conclusive(s.events) && Known(s)
    ensures s.queued == {}
  {
    var d := Delivered(s.events);
    Smaller(s.accounted, s.handled);
    Smaller(s.handled, d);
    assert |s.handled| == |d|;
    assert s.handled == d;
  }

  lemma PresentIsSeen(s: Site)
    requires HostOk(s) && TallyOk(s) && !s.entry.Free? && !TallyOf(s.events).present
    ensures SeenMore(s)
  {
    assert s.entry.owner in s.handled && s.entry.owner !in s.accounted;
  }

  lemma ObserveKeepsBench(s: Site, e: Event)
    requires BeforeCleanup(s) && Possible(s, e)
    ensures BenchOk(Heard(s, e))
  {
  }

  lemma ConfirmedSnoc(acknowledged: bool, polls: seq<Poll>, p: Poll)
    ensures Confirmed(acknowledged, polls + [p]) <==>
            Confirmed(acknowledged, polls) || (SaysGone(p.status) && KnownBy(acknowledged, polls + [p], |polls|))
  {
    var all := polls + [p];
    assert all[|polls|] == p;
    forall i | 0 <= i < |polls| ensures KnownBy(acknowledged, all, i) <==> KnownBy(acknowledged, polls, i) {
      assert forall j | 0 <= j <= i :: all[j] == polls[j];
    }
    if Confirmed(acknowledged, polls) {
      var i :| 0 <= i < |polls| && SaysGone(polls[i].status) && KnownBy(acknowledged, polls, i);
      assert all[i] == polls[i];
    }
    if i :| 0 <= i < |all| && SaysGone(all[i].status) && KnownBy(acknowledged, all, i) {
      assert i < |polls| ==> all[i] == polls[i];
    }
  }

  /** What a round adds to what is known, and what it may conclude from. */
  lemma QueryKeepsKnown(s: Site, reply: Option<WorkloadState>)
    requires HostOk(s) && TallyOk(s) && BenchOk(s) && s.stop.Some? && (reply.Some? ==> Agrees(s.entry, reply.value))
    ensures var p := Poll(s.stop.value, reply);
            && (Known(s.(stop := None, polls := s.polls + [p])) ==> Known(s) || TallyOf(s.events).present || SeenMore(s))
            && (KnownBy(IsAcknowledged(s.events), s.polls + [p], |s.polls|) ==> Known(s))
  {
    var p := Poll(s.stop.value, reply);
    var all := s.polls + [p];
    assert all[|s.polls|] == p && forall j | 0 <= j < |s.polls| :: all[j] == s.polls[j];
    if StatusShowsIt(reply) && !TallyOf(s.events).present {
      PresentIsSeen(s);
    }
  }

  lemma QueryKeepsBench(s: Site, reply: Option<WorkloadState>)
    requires HostOk(s) && TallyOk(s) && BenchOk(s)
    ensures BenchOk(Next(s, Query(reply)))
  {
    var t := Next(s, Query(reply));
    if t != s {
      QueryKeepsKnown(s, reply);
      ConfirmedSnoc(IsAcknowledged(s.events), s.polls, Poll(s.stop.value, reply));
      if Conclusive(s.events) && Known(s) {
        NothingWaits(s);
      }
    }
  }

  lemma StopKeepsBench(s: Site, reply: Option<WorkloadState>, removes: bool)
    requires HostOk(s) && TallyOk(s) && BenchOk(s)
    ensures BenchOk(Next(s, Stop(reply, removes)))
  {
    if StopShowsIt(reply) && !s.entry.Free? && !TallyOf(s.events).present {
      PresentIsSeen(s);
    }
  }

  lemma HandleKeepsBench(s: Site, i: nat, accept: bool)
    requires HostOk(s) && TallyOk(s) && BenchOk(s)
    ensures BenchOk(Next(s, Handle(i, accept)))
  {
    if i in s.queued {
      assert i !in s.accounted;
    }
  }

  lemma StepKeepsBench(s: Site, a: Action)
    requires HostOk(s) && TallyOk(s) && BenchOk(s)
    ensures BenchOk(Next(s, a))
  {
    match a
    case Observe(e) =>
      if BeforeCleanup(s) && Possible(s, e) {
        ObserveKeepsBench(s, e);
      }
    case Handle(i, accept) => HandleKeepsBench(s, i, accept);
    case Stop(reply, removes) => StopKeepsBench(s, reply, removes);
    case Query(reply) => QueryKeepsBench(s, reply);
    case _ =>
  }

  lemma {:induction false} RunKeepsInv(actions: seq<Action>)
    ensures HostOk(Run(actions)) && TallyOk(Run(actions)) && BenchOk(Run(actions))
  {
    if actions != [] {
      var s, a := Run(actions[..|actions| - 1]), actions[|actions| - 1];
      RunKeepsInv(actions[..|actions| - 1]);
      StepKeepsHost(s, a);
      StepKeepsTally(s, a);
      StepKeepsBench(s, a);
    }
  }

  /** Whatever the host does: if what the bench heard while starting is
      conclusive, a workload that cleanup confirms removed is gone, and as this
      holds of every longer run too, it stays gone. */
  lemma ConfirmedIsGone(actions: seq<Action>)
    requires var s := Run(actions); Conclusive(s.events) && Confirmed(IsAcknowledged(s.events), s.polls)
    ensures Run(actions).entry.Free? && Run(actions).queued == {}
  {
    RunKeepsInv(actions);
  }

  // ------------------------------------------------ which traces can be realised

  /** Whether `e` can come right after what came before when a bench starts a
      workload. */
  predicate Follows(before: Option<Event>, e: Event) {
    match e
    case Submitted(_) => before.None?
    case Sent(_) => before.Some? ==> !before.value.Sent?
    case StartReply(_, _) => before.Some? && before.value.Sent?
    case Acknowledged(_) => before.Some? && before.value.StartReply? && before.value.reply.Status?
    case StatusReply(_, _) => before.Some? && !before.value.Sent?
  }

  function LastOf(es: seq<Event>): Option<Event> {
    if es == [] then None else Some(es[|es| - 1])
  }

  predicate FollowsAt(es: seq<Event>, i: nat)
    requires i < |es|
  {
    Follows(if i == 0 then None else Some(es[i - 1]), es[i])
  }

  predicate WellFormed(es: seq<Event>) {
    forall i: nat | i < |es| :: FollowsAt(es, i)
  }

  lemma PrefixIsWellFormed(es: seq<Event>, n: nat)
    requires WellFormed(es) && n <= |es|
    ensures WellFormed(es[..n])
  {
    forall i: nat | i < n ensures FollowsAt(es[..n], i) {
      assert FollowsAt(es, i);
    }
  }

  lemma LastFollows(es: seq<Event>, e: Event)
    requires WellFormed(es + [e])
    ensures WellFormed(es) && Follows(LastOf(es), e)
  {
    assert FollowsAt(es + [e], |es|);
    PrefixIsWellFormed(es + [e], |es|);
    assert (es + [e])[..|es|] == es;
  }

  lemma AttemptIsWellFormed(w: World, id: string, a: nat)
    ensures var es := AttemptTrace(w, id, a);
            WellFormed(es) && es[0].Sent? && !es[|es| - 1].Sent?
  {
    var es := AttemptTrace(w, id, a);
    SettleTraceIsReplies(w, id, a, 0);
    forall i: nat | i < |es| ensures FollowsAt(es, i) {
    }
  }

  lemma AppendIsWellFormed(es: seq<Event>, fs: seq<Event>)
    requires WellFormed(es) && WellFormed(fs) && es != [] && fs != []
    requires !es[|es| - 1].Sent? && fs[0].Sent?
    ensures WellFormed(es + fs)
  {
    var all, n := es + fs, |es|;
    forall i: nat | i < |all| ensures FollowsAt(all, i) {
      if i < n {
        assert FollowsAt(es, i);
      } else if i > n {
        assert FollowsAt(fs, i - n) && all[i] == fs[i - n] && all[i - 1] == fs[i - n - 1];
      }
    }
  }

  lemma {:induction false} TraceIsWellFormed(w: World, id: string, retries: nat, a: nat)
    ensures var es := TraceFrom(w, id, retries, a); es != [] && WellFormed(es) && es[0].Sent?
    decreases retries - a
  {
    var es := AttemptTrace(w, id, a);
    AttemptIsWellFormed(w, id, a);
    if Resolve(w, a).None? && a < retries {
      TraceIsWellFormed(w, id, retries, a + 1);
      AppendIsWellFormed(es, TraceFrom(w, id, retries, a + 1));
    } else {
      assert es + [] == es;
    }
  }

  lemma StartIsWellFormed(w: World, id: string, retries: nat)
    ensures WellFormed(StartTrace(w, id, retries))
  {
    TraceIsWellFormed(w, id, retries, 0);
    AppendIsWellFormed([Submitted(id)], TraceFrom(w, id, retries, 0));
  }

  lemma {:induction false} DeliveredWereSent(es: seq<Event>)
    ensures forall i | i in Delivered(es) :: i < CountSent(es)
  {
    if es != [] {
      DeliveredWereSent(es[..|es| - 1]);
    }
  }

  /** The entry is what the bench's tally allows it to be. */
  predicate Matches(entry: Entry, t: Tally) {
    (entry.Held? <==> t.held) && (entry.Free? <==> !t.present)
  }

  /** `s` has heard `es`, and handled no more requests than that gives away. */
  predicate Lazy(s: Site, es: seq<Event>) {
    && s.events == es && BeforeCleanup(s)
    && s.accounted == s.handled && |s.handled| == TallyOf(es).count
    && s.handled <= Delivered(es) && s.queued == Delivered(es) - s.handled
    && Matches(s.entry, TallyOf(es))
    && (JustSent(es) ==> Latest(es) in s.queued)
  }

  /** `s` is about to hear `e`, and hearing it gives away all it has handled. */
  predicate Ready(s: Site, es: seq<Event>, e: Event) {
    && s.events == es && BeforeCleanup(s) && Possible(s, e)
    && s.handled == Account(s, e) && |s.handled| == Hear(TallyOf(es), e).count
    && s.handled <= Delivered(es) && s.queued == Delivered(es) - s.handled
    && Matches(s.entry, Hear(TallyOf(es), e))
  }

  lemma LazyOnceHeard(s: Site, e: Event)
    requires Ready(s, s.events, e)
    ensures Lazy(Next(s, Observe(e)), s.events + [e])
  {
    EventSnoc(s.events, e);
    DeliveredWereSent(s.events);
    if e.Sent? {
      assert CountSent(s.events) !in s.handled;
    }
  }

  lemma Do(before: seq<Action>, a: Action) returns (after: seq<Action>)
    ensures Run(after) == Next(Run(before), a)
  {
    after := before + [a];
    assert after[..|before|] == before;
  }

  /** The host takes up request `k`, giving up what it held. */
  lemma TakeUp(before: seq<Action>, k: nat) returns (after: seq<Action>)
    requires k in Run(before).queued
    ensures var s := Run(before);
            Run(after) == s.(queued := s.queued - {k}, handled := s.handled + {k}, accepted := s.accepted + {k}, entry := Held(k))
  {
    after := Do(before, Forget);
    after := Do(after, Handle(k, true));
  }

  /** Before it answers the start that was sent last. */
  lemma PrepareAnswer(before: seq<Action>, e: Event) returns (after: seq<Action>)
    requires var s := Run(before); Lazy(s, s.events) && JustSent(s.events)
    requires e.StartReply? && e.reply.Status?
    ensures Ready(Run(after), Run(before).events, e)
  {
    var s := Run(before);
    var k := Latest(s.events);
    RunKeepsInv(before);
    if SenseOf(e.reply.state) in {Holding, Unclear} {
      after := TakeUp(before, k);
      TakenUpIsReady(s, e, Held(k));
    } else if SenseOf(e.reply.state) == Leaving && s.entry.Free? {
      after := TakeUp(before, k);
      after := Do(after, Fail);
      TakenUpIsReady(s, e, Ending(k));
    } else {
      after := Do(before, Handle(k, false));
      RefusalIsReady(s, e);
    }
  }

  lemma TakenUpIsReady(s: Site, e: Event, entry: Entry)
    requires Lazy(s, s.events) && JustSent(s.events) && e.StartReply? && e.reply.Status?
    requires (entry == Held(Latest(s.events)) && SenseOf(e.reply.state) in {Holding, Unclear})
             || (entry == Ending(Latest(s.events)) && SenseOf(e.reply.state) == Leaving && s.entry.Free?)
    ensures var k := Latest(s.events);
            Ready(s.(queued := s.queued - {k}, handled := s.handled + {k}, accepted := s.accepted + {k}, entry := entry), s.events, e)
  {
  }

  lemma RefusalIsReady(s: Site, e: Event)
    requires Lazy(s, s.events) && JustSent(s.events) && Owner(s.entry) <= s.handled
    requires e.StartReply? && e.reply.Status?
    requires SenseOf(e.reply.state) == Missing || (SenseOf(e.reply.state) == Leaving && !s.entry.Free?)
    ensures Ready(Next(s, Handle(Latest(s.events), false)), s.events, e)
  {
    assert Latest(s.events) !in Owner(s.entry);
  }

  /** Before it names a state that nothing it handled so far accounts for. */
  lemma PrepareSight(before: seq<Action>, e: Event, k: nat) returns (after: seq<Action>)
    requires var s := Run(before); Lazy(s, s.events) && !JustSent(s.events) && k in s.queued
    requires e.StatusReply? && e.reply.Status?
    requires Hear(TallyOf(Run(before).events), e).count > TallyOf(Run(before).events).count
    ensures Ready(Run(after), Run(before).events, e)
  {
    var s := Run(before);
    after := TakeUp(before, k);
    if SenseOf(e.reply.state) == Leaving {
      after := Do(after, Fail);
    }
    SightIsReady(s, e, k, if SenseOf(e.reply.state) == Leaving then Ending(k) else Held(k));
  }

  lemma SightIsReady(s: Site, e: Event, k: nat, entry: Entry)
    requires Lazy(s, s.events) && !JustSent(s.events) && k in s.queued
    requires e.StatusReply? && e.reply.Status?
    requires Hear(TallyOf(s.events), e).count > TallyOf(s.events).count
    requires entry == if SenseOf(e.reply.state) == Leaving then Ending(k) else Held(k)
    ensures Ready(s.(queued := s.queued - {k}, handled := s.handled + {k}, accepted := s.accepted + {k}, entry := entry),
                  s.events, e)
  {
    EventSnoc(s.events, e);
  }

  /** Before it says anything else. */
  lemma PrepareOther(before: seq<Action>, e: Event) returns (after: seq<Action>)
    requires var s := Run(before); Lazy(s, s.events) && Follows(LastOf(s.events), e)
    requires !(e.StartReply? && e.reply.Status?)
    requires Hear(TallyOf(Run(before).events), e).count == TallyOf(Run(before).events).count
    ensures Ready(Run(after), Run(before).events, e)
  {
    EventSnoc(Run(before).events, e);
    after := before;
    if e.StatusReply? && e.reply.Status? {
      if SenseOf(e.reply.state) == Missing {
        after := Do(before, Forget);
      } else if SenseOf(e.reply.state) == Leaving {
        after := Do(before, Fail);
      }
    }
  }

  lemma RealiseOneMore(before: seq<Action>, e: Event) returns (actions: seq<Action>)
    requires var s := Run(before); Lazy(s, s.events) && WellFormed(s.events + [e]) && Answerable(s.events + [e])
    ensures Lazy(Run(actions), Run(before).events + [e])
  {
    var s := Run(before);
    LastFollows(s.events, e);
    EventSnoc(s.events, e);
    if e.StartReply? && e.reply.Status? {
      actions := PrepareAnswer(before, e);
    } else if Hear(TallyOf(s.events), e).count > TallyOf(s.events).count {
      assert Delivered(s.events) == s.handled + s.queued;
      assert |s.queued| > 0;
      var k :| k in s.queued;
      actions := PrepareSight(before, e, k);
    } else {
      actions := PrepareOther(before, e);
    }
    LazyOnceHeard(Run(actions), e);
    actions := Do(actions, Observe(e));
  }

  /** Every well-formed trace that does not give away too much can be heard. */
  lemma {:induction false} Realise(es: seq<Event>) returns (actions: seq<Action>)
    requires WellFormed(es) && Answerable(es)
    ensures Lazy(Run(actions), es)
  {
    if es == [] {
      actions := [];
    } else {
      var n := |es| - 1;
      PrefixIsWellFormed(es, n);
      assert es == es[..n] + [es[n]];
      EventSnoc(es[..n], es[n]);
      var before := Realise(es[..n]);
      actions := RealiseOneMore(before, es[n]);
    }
  }

  predicate HeardIn(es: seq<Event>, actions: seq<Action>) {
    Run(actions).events == es
  }

  /** What a start can hear from a host is exactly what gives away no more
      requests than may have reached one. */
  lemma AnswerableIff(w: World, id: string, retries: nat, m: nat)
    requires m <= |StartTrace(w, id, retries)|
    ensures var es := StartTrace(w, id, retries)[..m];
            (exists actions :: HeardIn(es, actions)) <==> Answerable(es)
  {
    var es := StartTrace(w, id, retries)[..m];
    StartIsWellFormed(w, id, retries);
    PrefixIsWellFormed(StartTrace(w, id, retries), m);
    if actions :| HeardIn(es, actions) {
      RunKeepsInv(actions);
    }
    if Answerable(es) {
      var actions := Realise(es);
      assert HeardIn(es, actions);
    }
  }

  // ------------------------------------------------------ the exact condition

  /** A round of cleanup that concludes, and then another request is taken up. */
  lemma ConcludeTooEarly(before: seq<Action>, waiting: nat) returns (after: seq<Action>)
    requires var s := Run(before); BeforeCleanup(s) && waiting in s.queued
    requires var s := Run(before); IsAcknowledged(s.events) || !s.entry.Free?
    ensures var s := Run(after);
            s.events == Run(before).events && s.entry == Held(waiting) && Confirmed(IsAcknowledged(s.events), s.polls)
  {
    var s := Run(before);
    var p := Poll(if s.entry.Free? then None else Some(Stopping), Some(NotFound));
    after := Do(before, Stop(p.stop, true));
    after := Do(after, Query(p.status));
    assert Run(after) == s.(entry := Free, polls := [p]);
    assert SaysGone([p][0].status) && KnownBy(IsAcknowledged(s.events), [p], 0) by {
      assert s.entry.Free? || StopShowsIt([p][0].stop);
    }
    after := Do(after, Handle(waiting, true));
  }

  /** Without it, some host that gives exactly these replies comes to hold the
      workload after cleanup confirmed it removed. */
  lemma InconclusiveCanBeWrong(es: seq<Event>) returns (actions: seq<Action>)
    requires WellFormed(es) && !Conclusive(es)
    ensures var s := Run(actions); s.events == es && s.entry.Held? && Confirmed(IsAcknowledged(es), s.polls)
  {
    actions := Realise(es);
    var s := Run(actions);
    assert Delivered(es) == s.handled + s.queued;
    assert |s.queued| > 0;
    if !IsAcknowledged(es) && s.entry.Free? {
      var k :| k in s.queued;
      TakeOut(s.queued, k);
      actions := TakeUp(actions, k);
    }
    assert |Run(actions).queued| > 0;
    var waiting :| waiting in Run(actions).queued;
    actions := ConcludeTooEarly(actions, waiting);
  }

  /** If the bench heard `es` and cleanup confirmed the workload removed, the host
      has no entry for it. */
  ghost predicate RightAbout(es: seq<Event>, actions: seq<Action>) {
    var s := Run(actions);
    s.events == es && Confirmed(IsAcknowledged(es), s.polls) ==> s.entry.Free?
  }

  /** For every start, wherever it is cut short: whatever the host does, then and
      ever after, a workload that cleanup confirms removed is gone, if and only if
      the replies to the start are conclusive. */
  lemma EvidenceIsConclusiveIff(w: World, id: string, retries: nat, m: nat)
    requires m <= |StartTrace(w, id, retries)|
    ensures var es := StartTrace(w, id, retries)[..m];
            (forall actions :: RightAbout(es, actions)) <==> Conclusive(es)
  {
    var es := StartTrace(w, id, retries)[..m];
    StartIsWellFormed(w, id, retries);
    PrefixIsWellFormed(StartTrace(w, id, retries), m);
    if Conclusive(es) {
      forall actions ensures RightAbout(es, actions) {
        RunKeepsInv(actions);
      }
    } else {
      var actions := InconclusiveCanBeWrong(es);
      assert !RightAbout(es, actions);
    }
  }

  /** So a start that is sent at most once can be cleaned up for sure. */
  lemma OneRequestIsConclusive(es: seq<Event>)
    requires WellFormed(es) && CountSent(es) <= 1
    ensures Conclusive(es)
  {
    DeliveredWereSent(es);
    Smaller(Delivered(es), {0});
    KnownIsCounted(es);
  }

  lemma {:induction false} KnownIsCounted(es: seq<Event>)
    requires WellFormed(es)
    ensures IsAcknowledged(es) || TallyOf(es).present || TallyOf(es).held ==> TallyOf(es).count > 0
  {
    if es != [] {
      var n := |es| - 1;
      PrefixIsWellFormed(es, n);
      KnownIsCounted(es[..n]);
      assert FollowsAt(es, n);
      if es[n].Acknowledged? {
        assert es[..n][n - 1] == es[n - 1];
        assert TallyOf(es[..n]) == Hear(TallyOf(es[..n][..n - 1]), es[n - 1]);
      } else if IsAcknowledged(es) {
        var i :| 0 <= i < |es| && es[i].Acknowledged?;
        assert es[..n][i].Acknowledged?;
      }
    }
  }

  // ----------------------------------------------------- a start sent twice

  /** A first request that times out and that the host does not know of, and a
      second that is answered `second`, with the status `after` if it is asked. */
  function Twice(second: WorkloadState, after: WorkloadState): World {
    World(a => if a == 0 then Timeout else Status(second), (a, p) => Status(if a == 0 then NotFound else after), a => 0)
  }

  function SentOnce(id: string): seq<Event> {
    [] + [Submitted(id)] + [Sent(id)]
  }

  function SentTwice(id: string): seq<Event> {
    SentOnce(id) + [StartReply(id, Timeout)] + [StatusReply(id, Status(NotFound))] + [Sent(id)]
  }

  predicate Quiet(e: Event) {
    || e.Submitted? || e.Sent? || (e.StartReply? && e.reply == Timeout)
    || (e.StatusReply? && e.reply == Status(NotFound))
  }

  predicate Counts(es: seq<Event>, sent: nat, delivered: set<nat>) {
    CountSent(es) == sent && Delivered(es) == delivered && TallyOf(es) == Tally(0, false, false)
  }

  /** An event that adds no request and gives none away. */
  lemma CountsSame(es: seq<Event>, e: Event, sent: nat, delivered: set<nat>)
    requires Counts(es, sent, delivered) && Quiet(e) && !e.Sent?
    ensures Counts(es + [e], sent, delivered)
  {
    EventSnoc(es, e);
  }

  lemma CountsOneMore(es: seq<Event>, id: string, sent: nat, delivered: set<nat>)
    requires Counts(es, sent, delivered)
    ensures Counts(es + [Sent(id)], sent + 1, delivered + {sent})
  {
    EventSnoc(es, Sent(id));
  }

  lemma SentTwiceCounts(id: string)
    ensures Counts(SentTwice(id), 2, {0, 1})
  {
    var none: set<nat> := {};
    CountsSame([], Submitted(id), 0, none);
    CountsOneMore([] + [Submitted(id)], id, 0, none);
    var once := SentOnce(id);
    CountsSame(once, StartReply(id, Timeout), 1, none + {0});
    CountsSame(once + [StartReply(id, Timeout)], StatusReply(id, Status(NotFound)), 1, none + {0});
    CountsOneMore(once + [StartReply(id, Timeout)] + [StatusReply(id, Status(NotFound))], id, 1, none + {0});
    assert none + {0} + {1} == {0, 1};
  }

  lemma TwiceTrace(id: string, second: WorkloadState, after: WorkloadState)
    ensures var answer := SentTwice(id) + [StartReply(id, Status(second))] + [Acknowledged(id)];
            && (second == Running ==> StartTrace(Twice(second, after), id, 1) == answer)
            && (second == Error && after == Running ==>
                  StartTrace(Twice(second, after), id, 1) == answer + [StatusReply(id, Status(after))])
  {
    var w := Twice(second, after);
    assert AttemptTrace(w, id, 0) == [Sent(id), StartReply(id, Timeout), StatusReply(id, Status(NotFound))];
    assert TraceFrom(w, id, 1, 1) == AttemptTrace(w, id, 1);
    assert AttemptTrace(w, id, 1) == [Sent(id), StartReply(id, Status(second)), Acknowledged(id)]
                                     + if AsksStatus(w.start(1), 1) then SettleTrace(w, id, 1, 0) else [];
    if second == Error && after == Running {
      assert SettleTrace(w, id, 1, 0) == [StatusReply(id, Status(after))];
    }
  }

  /** When the second request comes up, the first may still be on its way. */
  lemma RetryIsInconclusive(id: string)
    ensures !Conclusive(StartTrace(Twice(Running, Running), id, 1))
  {
    var es := SentTwice(id);
    var answered := es + [StartReply(id, Status(Running))];
    SentTwiceCounts(id);
    SentTwiceIsAnswerable(id);
    TwiceTrace(id, Running, Running);
    EventSnoc(es, StartReply(id, Status(Running)));
    EventSnoc(answered, Acknowledged(id));
    assert (answered + [Acknowledged(id)])[6].Acknowledged?;
  }

  /** But when it is refused and the workload is then seen running, the first has
      arrived, and cleanup can be trusted. */
  lemma RefusedRetryIsConclusive(id: string)
    ensures Conclusive(StartTrace(Twice(Error, Running), id, 1))
    ensures StartFrom(Twice(Error, Running), 1, 0) == Live
  {
    SentTwiceCounts(id);
    TwiceTrace(id, Error, Running);
    RefusedThenRunning(SentTwice(id), id);
  }

  lemma RefusedThenRunning(es: seq<Event>, id: string)
    requires Counts(es, 2, {0, 1})
    ensures Conclusive(es + [StartReply(id, Status(Error))] + [Acknowledged(id)] + [StatusReply(id, Status(Running))])
  {
    var answered := es + [StartReply(id, Status(Error))] + [Acknowledged(id)];
    EventSnoc(es, StartReply(id, Status(Error)));
    EventSnoc(es + [StartReply(id, Status(Error))], Acknowledged(id));
    assert TallyOf(answered) == Tally(1, false, true) && Delivered(answered) == {0, 1};
    EventSnoc(answered, StatusReply(id, Status(Running)));
  }

  lemma {:induction false} NothingGivenAway(es: seq<Event>)
    requires forall i | 0 <= i < |es| :: Hear(Tally(0, false, false), es[i]) == Tally(0, false, false)
    ensures TallyOf(es) == Tally(0, false, false) && Answerable(es)
  {
    if es != [] {
      NothingGivenAway(es[..|es| - 1]);
    }
  }

  lemma SentTwiceIsAnswerable(id: string)
    ensures Answerable(SentTwice(id))
  {
    NothingGivenAway(SentTwice(id));
  }

  // A run in which it happens, step by step.

  lemma RunOne(actions: seq<Action>, a: Action)
    ensures Run(actions + [a]) == Next(Run(actions), a)
  {
    assert (actions + [a])[..|actions|] == actions;
  }

  function ObserveAll(es: seq<Event>): seq<Action> {
    if es == [] then [] else ObserveAll(es[..|es| - 1]) + [Observe(es[|es| - 1])]
  }

  /** A host that does nothing yet can be heard to deny the workload. */
  lemma {:induction false} DoNothing(es: seq<Event>)
    requires WellFormed(es) && forall i | 0 <= i < |es| :: Quiet(es[i])
    ensures Run(ObserveAll(es)) == EMPTY_SITE.(queued := Delivered(es), events := es)
  {
    if es != [] {
      var n := |es| - 1;
      PrefixIsWellFormed(es, n);
      DoNothing(es[..n]);
      assert es == es[..n] + [es[n]];
      QuietStep(es[..n], es[n]);
      RunOne(ObserveAll(es[..n]), Observe(es[n]));
    }
  }

  lemma QuietStep(es: seq<Event>, e: Event)
    requires WellFormed(es + [e]) && Quiet(e)
    ensures Next(EMPTY_SITE.(queued := Delivered(es), events := es), Observe(e))
            == EMPTY_SITE.(queued := Delivered(es + [e]), events := es + [e])
  {
    var s := EMPTY_SITE.(queued := Delivered(es), events := es);
    LastFollows(es, e);
    assert Possible(s, e);
    QuietIsHeard(s, e);
  }

  lemma QuietIsHeard(s: Site, e: Event)
    requires Quiet(e) && s.queued == Delivered(s.events)
    ensures Queue(s, e) == Delivered(s.events + [e]) && Account(s, e) == s.accounted
  {
    EventSnoc(s.events, e);
    if e.StatusReply? {
      assert Hear(TallyOf(s.events), e).count == TallyOf(s.events).count;
    }
  }

  function UpActions(id: string): seq<Action> {
    ObserveAll(SentTwice(id)) + [Handle(1, true)] + [Observe(StartReply(id, Status(Running)))] + [Observe(Acknowledged(id))]
  }

  lemma SentTwiceIsQuiet(id: string)
    ensures WellFormed(SentTwice(id)) && forall i | 0 <= i < |SentTwice(id)| :: Quiet(SentTwice(id)[i])
  {
    var es := SentTwice(id);
    forall i: nat | i < |es| ensures FollowsAt(es, i) {
    }
  }

  lemma SecondIsTakenUp(id: string)
    ensures Run(ObserveAll(SentTwice(id)) + [Handle(1, true)]) == Site({0}, {1}, {1}, Held(1), {}, SentTwice(id), None, [])
  {
    SentTwiceCounts(id);
    SentTwiceIsQuiet(id);
    DoNothing(SentTwice(id));
    RunOne(ObserveAll(SentTwice(id)), Handle(1, true));
    SecondHandled(SentTwice(id));
  }

  lemma SecondHandled(es: seq<Event>)
    ensures Next(EMPTY_SITE.(queued := {0, 1}, events := es), Handle(1, true)) == Site({0}, {1}, {1}, Held(1), {}, es, None, [])
  {
    assert {0, 1} - {1} == {0};
  }

  lemma SecondComesUp(id: string)
    ensures Run(UpActions(id)) == Site({0}, {1}, {1}, Held(1), {1}, StartTrace(Twice(Running, Running), id, 1), None, [])
  {
    var a := ObserveAll(SentTwice(id)) + [Handle(1, true)];
    SentTwiceCounts(id);
    SecondIsTakenUp(id);
    TwiceTrace(id, Running, Running);
    AnswerIsHeard(Site({0}, {1}, {1}, Held(1), {}, SentTwice(id), None, []), id);
    RunOne(a, Observe(StartReply(id, Status(Running))));
    RunOne(a + [Observe(StartReply(id, Status(Running)))], Observe(Acknowledged(id)));
  }

  lemma AnswerIsHeard(s: Site, id: string)
    requires BeforeCleanup(s) && JustSent(s.events) && CountSent(s.events) == 2 && 1 in s.handled && 1 in s.accepted
    ensures Next(Next(s, Observe(StartReply(id, Status(Running)))), Observe(Acknowledged(id)))
            == s.(accounted := s.accounted + {1}, events := s.events + [StartReply(id, Status(Running))] + [Acknowledged(id)])
  {
  }

  /** A start that timed out, was not found, was sent again and came up, can be
      stopped, confirmed removed, and then be running: the first request was
      still on its way. */
  lemma RetryOutlivesCleanup(id: string)
    ensures var s := Run(UpActions(id) + [Stop(Some(Stopping), true)] + [Query(Some(NotFound))] + [Handle(0, true)]);
            && s.events == StartTrace(Twice(Running, Running), id, 1) && StartFrom(Twice(Running, Running), 1, 0) == Live
            && s.polls == [Poll(Some(Stopping), Some(NotFound))]
            && Confirmed(IsAcknowledged(s.events), s.polls) && s.entry == Held(0)
  {
    var a, es := UpActions(id), StartTrace(Twice(Running, Running), id, 1);
    SecondComesUp(id);
    FirstOutlives(Site({0}, {1}, {1}, Held(1), {1}, es, None, []));
    RunOne(a, Stop(Some(Stopping), true));
    RunOne(a + [Stop(Some(Stopping), true)], Query(Some(NotFound)));
    RunOne(a + [Stop(Some(Stopping), true)] + [Query(Some(NotFound))], Handle(0, true));
  }

  lemma FirstOutlives(s: Site)
    requires BeforeCleanup(s) && s.entry == Held(1) && 0 in s.queued
    ensures var t := Next(Next(Next(s, Stop(Some(Stopping), true)), Query(Some(NotFound))), Handle(0, true));
            && t.events == s.events && t.polls == [Poll(Some(Stopping), Some(NotFound))] && t.entry == Held(0)
            && Confirmed(IsAcknowledged(t.events), t.polls)
  {
    var polls := [Poll(Some(Stopping), Some(NotFound))];
    assert SaysGone(polls[0].status) && StopShowsIt(polls[0].stop) && KnownBy(IsAcknowledged(s.events), polls, 0);
  }
}
