/** The two reconcilers that drive the routing tables from the cluster's Host
    and Workload objects, and what repeated reconciling converges to. */
module GatewayReconciler {
  import opened Text
  import opened RoutingTables
  import opened RoutingLedger
  import opened RoutingRuns

  /** The status of a condition; a condition that is not set is unknown. */
  datatype Condition = ConditionTrue | ConditionFalse | ConditionUnknown

  datatype HostInterface = HostInterface(
    namespace: string, package: string, interfaces: seq<string>, config: map<string, string>)

  datatype Workload = Workload(
    deleting: bool, placement: Condition, ready: Condition,
    hostID: string, workloadID: string, interfaces: seq<HostInterface>)

  datatype Host = Host(deleting: bool, ready: Condition, hostID: string, hostname: string, httpPort: nat)

  datatype Cluster = Cluster(hosts: map<Key, Host>, workloads: map<Key, Workload>)

  /** An HTTP entrypoint that names the host it wants to be reached by. */
  predicate Advertises(i: HostInterface) {
    && i.namespace == "wasi" && i.package == "http"
    && ("incoming-handler" in i.interfaces || "handler" in i.interfaces)
    && "host" in i.config
  }

  /** The host of the first interface that advertises one, else empty. */
  function HostnameOf(interfaces: seq<HostInterface>): string {
    if interfaces == [] then ""
    else if Advertises(interfaces[0]) then interfaces[0].config["host"]
    else HostnameOf(interfaces[1..])
  }

  lemma {:induction false} HostnameIsFirst(interfaces: seq<HostInterface>)
    ensures (forall i | 0 <= i < |interfaces| :: !Advertises(interfaces[i])) ==> HostnameOf(interfaces) == ""
    ensures forall i | 0 <= i < |interfaces| && Advertises(interfaces[i]) ::
              (forall j | 0 <= j < i :: !Advertises(interfaces[j])) ==> HostnameOf(interfaces) == interfaces[i].config["host"]
  {
    if interfaces != [] && !Advertises(interfaces[0]) {
      HostnameIsFirst(interfaces[1..]);
      assert forall i | 0 < i < |interfaces| :: interfaces[i] == interfaces[1..][i - 1];
    }
  }

  method WorkloadHostname(w: Workload) returns (h: string)
    ensures h == HostnameOf(w.interfaces)
  {
    for n := 0 to |w.interfaces|
      invariant HostnameOf(w.interfaces) == HostnameOf(w.interfaces[n..])
    {
      var i := w.interfaces[n];
      assert w.interfaces[n..][0] == i && w.interfaces[n..][1..] == w.interfaces[n + 1..];
      if i.namespace != "wasi" || i.package != "http" {
        continue;
      }
      if "incoming-handler" !in i.interfaces && "handler" !in i.interfaces {
        continue;
      }
      if "host" in i.config {
        return i.config["host"];
      }
    }
    return "";
  }

  /** The registry call a Workload reconcile makes, if it makes one. */
  function WorkloadCall(c: Cluster, key: Key): Option<Call> {
    if key !in c.workloads || c.workloads[key].deleting then Some(DeregisterWorkload(key))
    else
      var w := c.workloads[key];
      var hostname := HostnameOf(w.interfaces);
      if !w.placement.ConditionTrue? then None
      else if hostname == "" || !w.ready.ConditionTrue? then Some(DeregisterWorkload(key))
      else Some(RegisterWorkload(key, Route(w.hostID, w.workloadID, hostname)))
  }

  /** The registry call a Host reconcile makes; none while readiness is unknown. */
  function HostCall(c: Cluster, key: Key): Option<Call> {
    if key !in c.hosts || c.hosts[key].deleting then Some(DeregisterHost(key))
    else
      var h := c.hosts[key];
      match h.ready
      case ConditionTrue => Some(RegisterHost(key, HostReg(h.hostID, JoinHostPort(h.hostname, h.httpPort))))
      case ConditionUnknown => None
      case ConditionFalse => Some(DeregisterHost(key))
  }

  function ApplyIfAny(t: Tables, call: Option<Call>): Tables {
    if call.Some? then ApplyTables(t, call.value) else t
  }

  /** `getFails` and `patchFails` are errors other than not-found from reading
      the object and from removing the gateway's finalizer. */
  method ReconcileWorkload(registry: HostTracker, c: Cluster, key: Key, getFails: bool, patchFails: bool) returns (ok: bool)
    modifies registry
    ensures ok <==> !(getFails || (patchFails && key in c.workloads))
    ensures registry.View() == ApplyIfAny(old(registry.View()), if ok then WorkloadCall(c, key) else None)
  {
    if getFails {
      return false;
    }
    if key !in c.workloads {
      registry.DeregisterWorkload(key);
      return true;
    }
    if patchFails {
      return false;
    }
    var w := c.workloads[key];
    if w.deleting {
      registry.DeregisterWorkload(key);
      return true;
    }
    if w.placement != ConditionTrue {
      return true;
    }
    var hostname := WorkloadHostname(w);
    if hostname == "" {
      registry.DeregisterWorkload(key);
    } else if w.ready == ConditionTrue {
      registry.RegisterWorkload(key, w.hostID, w.workloadID, hostname);
    } else {
      registry.DeregisterWorkload(key);
    }
    return true;
  }

  method ReconcileHost(registry: HostTracker, c: Cluster, key: Key, getFails: bool, patchFails: bool) returns (ok: bool)
    modifies registry
    ensures ok <==> !(getFails || (patchFails && key in c.hosts))
    ensures registry.View() == ApplyIfAny(old(registry.View()), if ok then HostCall(c, key) else None)
  {
    if getFails {
      return false;
    }
    if key !in c.hosts {
      registry.DeregisterHost(key);
      return true;
    }
    if patchFails {
      return false;
    }
    var h := c.hosts[key];
    if h.deleting {
      registry.DeregisterHost(key);
    } else if h.ready == ConditionTrue {
      registry.RegisterHost(key, h.hostID, h.hostname, h.httpPort);
    } else if h.ready == ConditionUnknown {
      // keep whatever is registered
    } else {
      registry.DeregisterHost(key);
    }
    return true;
  }

  // ------------------------------------------------------------- event runs

  /** One reconcile; a failed one is retried later and changes nothing. */
  datatype Event = HostEvent(key: Key) | WorkloadEvent(key: Key) | FailedAttempt

  function CallOf(c: Cluster, e: Event): Option<Call> {
    match e
    case HostEvent(key) => HostCall(c, key)
    case WorkloadEvent(key) => WorkloadCall(c, key)
    case FailedAttempt => None
  }

  /** The registry calls that reconciling `events` against `c` makes. */
  function Calls(c: Cluster, events: seq<Event>): seq<Call> {
    if events == [] then []
    else
      var call := CallOf(c, events[|events| - 1]);
      Calls(c, events[..|events| - 1]) + if call.Some? then [call.value] else []
  }

  function WantedHost(c: Cluster, key: Key): Option<HostReg> {
    match HostCall(c, key) case Some(RegisterHost(_, reg)) => Some(reg) case _ => None
  }

  function WantedRoute(c: Cluster, key: Key): Option<Route> {
    match WorkloadCall(c, key) case Some(RegisterWorkload(_, route)) => Some(route) case _ => None
  }

  /** The registrations the cluster calls for: its Ready hosts, and its placed,
      available workloads that advertise a hostname. */
  function Desired(c: Cluster): Ledger {
    Ledger(map k | k in c.hosts && WantedHost(c, k).Some? :: WantedHost(c, k).value,
           map k | k in c.workloads && WantedRoute(c, k).Some? :: WantedRoute(c, k).value)
  }

  /** A host is wanted exactly when its object is there, is not being deleted and
      is Ready; under its own ID, at its own address. */
  lemma DesiredHostIff(c: Cluster, k: Key, reg: HostReg)
    ensures k in Desired(c).hosts && Desired(c).hosts[k] == reg <==>
            && k in c.hosts && !c.hosts[k].deleting && c.hosts[k].ready == ConditionTrue
            && reg.hostID == c.hosts[k].hostID && reg.endpoint == JoinHostPort(c.hosts[k].hostname, c.hosts[k].httpPort)
  {
  }

  /** A route is wanted exactly when its workload's object is there, is not being
      deleted, is placed and available, and advertises a hostname; it is for that
      hostname, to that workload on the host it is placed on. */
  lemma DesiredRouteIff(c: Cluster, k: Key, r: Route)
    ensures k in Desired(c).routes && Desired(c).routes[k] == r <==>
            && k in c.workloads && !c.workloads[k].deleting
            && c.workloads[k].placement == ConditionTrue && c.workloads[k].ready == ConditionTrue
            && r.hostname == HostnameOf(c.workloads[k].interfaces) && r.hostname != ""
            && r.workloadID == c.workloads[k].workloadID && r.hostID == c.workloads[k].hostID
  {
  }

  /** Reconciling a workload leaves the tables alone exactly while its placement
      is pending, and registers it exactly when its route is wanted. */
  lemma WorkloadCallIff(c: Cluster, k: Key)
    ensures WorkloadCall(c, k) == None <==>
            k in c.workloads && !c.workloads[k].deleting && c.workloads[k].placement != ConditionTrue
    ensures forall r :: WorkloadCall(c, k) == Some(RegisterWorkload(k, r)) <==> k in Desired(c).routes && Desired(c).routes[k] == r
    ensures WorkloadCall(c, k) == Some(DeregisterWorkload(k)) <==>
            || k !in c.workloads || c.workloads[k].deleting
            || (c.workloads[k].placement == ConditionTrue && k !in Desired(c).routes)
  {
  }

  /** Reconciling a host leaves the tables alone exactly while its readiness is
      unknown, and registers it exactly when it is wanted. */
  lemma HostCallIff(c: Cluster, k: Key)
    ensures HostCall(c, k) == None <==>
            k in c.hosts && !c.hosts[k].deleting && c.hosts[k].ready == ConditionUnknown
    ensures forall reg :: HostCall(c, k) == Some(RegisterHost(k, reg)) <==> k in Desired(c).hosts && Desired(c).hosts[k] == reg
    ensures HostCall(c, k) == Some(DeregisterHost(k)) <==>
            k !in c.hosts || c.hosts[k].deleting || c.hosts[k].ready == ConditionFalse
  {
  }

  predicate Covers(c: Cluster, events: seq<Event>) {
    && (forall k | k in c.hosts :: HostEvent(k) in events)
    && (forall k | k in c.workloads :: WorkloadEvent(k) in events)
  }

  /** Objects that share an ID agree on what it stands for. */
  ghost predicate Consistent(c: Cluster) {
    var d := Desired(c);
    && (forall j, k | j in d.hosts && k in d.hosts && d.hosts[j].hostID == d.hosts[k].hostID ::
          d.hosts[j].endpoint == d.hosts[k].endpoint)
    && (forall j, k | j in d.routes && k in d.routes && d.routes[j].workloadID == d.routes[k].workloadID ::
          d.routes[j].hostID == d.routes[k].hostID)
  }

  lemma CallsStep(c: Cluster, events: seq<Event>, e: Event)
    ensures var call := CallOf(c, e);
            Calls(c, events + [e]) == Calls(c, events) + if call.Some? then [call.value] else []
  {
    assert (events + [e])[..|events|] == events;
  }

  lemma RunStep(calls: seq<Call>, call: Call)
    ensures RunTables(calls + [call]) == ApplyTables(RunTables(calls), call)
    ensures RunLedger(calls + [call]) == RunLedger(calls).Apply(call)
  {
    assert (calls + [call])[..|calls|] == calls;
  }

  /** The wanted registrations of the objects `events` reconciles. */
  function DesiredOf(c: Cluster, events: seq<Event>): Ledger {
    var d := Desired(c);
    Ledger(map k | k in d.hosts && HostEvent(k) in events :: d.hosts[k],
           map k | k in d.routes && WorkloadEvent(k) in events :: d.routes[k])
  }

  function ApplyIfAnyLedger(l: Ledger, call: Option<Call>): Ledger {
    if call.Some? then l.Apply(call.value) else l
  }

  lemma HostDesired(c: Cluster, events: seq<Event>, key: Key)
    ensures DesiredOf(c, events + [HostEvent(key)]) == ApplyIfAnyLedger(DesiredOf(c, events), HostCall(c, key))
  {
    var l, m := DesiredOf(c, events), DesiredOf(c, events + [HostEvent(key)]);
    assert m.routes == l.routes;
    if WantedHost(c, key).Some? {
      assert m.hosts == l.hosts[key := WantedHost(c, key).value];
    } else {
      assert key !in l.hosts && m.hosts == l.hosts;
    }
  }

  lemma WorkloadDesired(c: Cluster, events: seq<Event>, key: Key)
    ensures DesiredOf(c, events + [WorkloadEvent(key)]) == ApplyIfAnyLedger(DesiredOf(c, events), WorkloadCall(c, key))
  {
    var l, m := DesiredOf(c, events), DesiredOf(c, events + [WorkloadEvent(key)]);
    assert m.hosts == l.hosts;
    SeenRoutes(Desired(c).routes, events, key);
    WantedRouteIsDesired(c, key);
  }

  lemma SeenRoutes(routes: map<Key, Route>, events: seq<Event>, key: Key)
    ensures var l := map k | k in routes && WorkloadEvent(k) in events :: routes[k];
            (map k | k in routes && WorkloadEvent(k) in events + [WorkloadEvent(key)] :: routes[k])
            == if key in routes then l[key := routes[key]] else l - {key}
  {
  }

  lemma WantedRouteIsDesired(c: Cluster, key: Key)
    ensures Lookup(Desired(c).routes, key) == WantedRoute(c, key)
    ensures WantedRoute(c, key).None? ==> WorkloadCall(c, key) in {None, Some(DeregisterWorkload(key))}
    ensures WantedRoute(c, key).None? && WorkloadCall(c, key) == None ==> key !in Desired(c).routes
  {
  }

  lemma DesiredOfStep(c: Cluster, events: seq<Event>, e: Event)
    ensures DesiredOf(c, events + [e]) == ApplyIfAnyLedger(DesiredOf(c, events), CallOf(c, e))
  {
    match e
    case HostEvent(key) => HostDesired(c, events, key);
    case WorkloadEvent(key) => WorkloadDesired(c, events, key);
    case FailedAttempt =>
      var l, m := DesiredOf(c, events), DesiredOf(c, events + [e]);
      assert m.hosts == l.hosts && m.routes == l.routes;
  }

  lemma NothingReconciled(c: Cluster)
    ensures DesiredOf(c, []) == EMPTY_LEDGER
  {
    assert DesiredOf(c, []).hosts == map[] && DesiredOf(c, []).routes == map[];
  }

  /** From a fresh tracker and a fixed cluster, the registrations are always the
      wanted ones of the objects reconciled so far, whatever the order. */
  lemma {:induction false} LedgerOfEvents(c: Cluster, events: seq<Event>)
    ensures RunLedger(Calls(c, events)) == DesiredOf(c, events)
  {
    if events == [] {
      NothingReconciled(c);
    } else {
      var init, e := events[..|events| - 1], events[|events| - 1];
      LedgerOfEvents(c, init);
      assert events == init + [e];
      CallsStep(c, init, e);
      DesiredOfStep(c, init, e);
      if CallOf(c, e).Some? {
        RunStep(Calls(c, init), CallOf(c, e).value);
      } else {
        assert Calls(c, events) == Calls(c, init);
      }
    }
  }

  lemma EventIsCompatible(c: Cluster, events: seq<Event>, e: Event)
    requires Consistent(c) && CallOf(c, e).Some?
    ensures Compatible(DesiredOf(c, events), CallOf(c, e).value)
  {
    var l, d := DesiredOf(c, events), Desired(c);
    match e
    case HostEvent(key) =>
      if WantedHost(c, key).Some? {
        assert d.hosts[key] == WantedHost(c, key).value;
        forall k | k in l.hosts && k != key ensures HostsTolerate(Lookup(l.hosts, key), d.hosts[key], l.hosts[k]) {
          assert k in d.hosts && l.hosts[k] == d.hosts[k];
        }
      }
    case WorkloadEvent(key) =>
      if WantedRoute(c, key).Some? {
        assert d.routes[key] == WantedRoute(c, key).value;
        forall k | k in l.routes && k != key ensures RoutesTolerate(Lookup(l.routes, key), d.routes[key], l.routes[k]) {
          assert k in d.routes && l.routes[k] == d.routes[k];
        }
      }
  }

  lemma {:induction false} EventsAreExact(c: Cluster, events: seq<Event>)
    requires Consistent(c)
    ensures Exact(RunTables(Calls(c, events)), DesiredOf(c, events))
  {
    if events == [] {
      NothingReconciled(c);
    } else {
      var init, e := events[..|events| - 1], events[|events| - 1];
      EventsAreExact(c, init);
      assert events == init + [e];
      EventIsExact(c, init, e);
    }
  }

  lemma EventIsExact(c: Cluster, events: seq<Event>, e: Event)
    requires Consistent(c) && Exact(RunTables(Calls(c, events)), DesiredOf(c, events))
    ensures Exact(RunTables(Calls(c, events + [e])), DesiredOf(c, events + [e]))
  {
    CallsStep(c, events, e);
    DesiredOfStep(c, events, e);
    var call := CallOf(c, e);
    if call.Some? {
      RunStep(Calls(c, events), call.value);
      EventIsCompatible(c, events, e);
      StepExactIff(RunTables(Calls(c, events)), DesiredOf(c, events), call.value);
    } else {
      assert Calls(c, events + [e]) == Calls(c, events);
    }
  }

  lemma CoveredIsDesired(c: Cluster, events: seq<Event>)
    requires Covers(c, events)
    ensures DesiredOf(c, events) == Desired(c)
  {
    assert DesiredOf(c, events).hosts == Desired(c).hosts;
    assert DesiredOf(c, events).routes == Desired(c).routes;
  }

  /** Any covering sequence of reconciles ends in the tables computed directly
      from the cluster. */
  lemma ReconcilesReachDesired(c: Cluster, events: seq<Event>)
    requires Consistent(c) && Covers(c, events)
    ensures Exact(RunTables(Calls(c, events)), Desired(c))
  {
    EventsAreExact(c, events);
    CoveredIsDesired(c, events);
  }

  ghost predicate SameTables(c: Cluster, es: seq<Event>, fs: seq<Event>) {
    RunTables(Calls(c, es)) == RunTables(Calls(c, fs))
  }

  /** All covering orders end in the same tables if and only if the objects that
      share an ID agree on it. */
  lemma ConfluenceIff(c: Cluster)
    ensures (forall es, fs | Covers(c, es) && Covers(c, fs) :: SameTables(c, es, fs)) <==> Consistent(c)
  {
    if Consistent(c) {
      forall es, fs | Covers(c, es) && Covers(c, fs) ensures SameTables(c, es, fs) {
        ReconcilesReachDesired(c, es);
        ReconcilesReachDesired(c, fs);
        IndexIsUnique(RunTables(Calls(c, es)), RunTables(Calls(c, fs)), Desired(c));
      }
    }
    if forall es, fs | Covers(c, es) && Covers(c, fs) :: SameTables(c, es, fs) {
      ConfluentIsConsistent(c);
    }
  }

  lemma ConfluentIsConsistent(c: Cluster)
    requires forall es, fs | Covers(c, es) && Covers(c, fs) :: SameTables(c, es, fs)
    ensures Consistent(c)
  {
    var es := CoveringEvents(c);
    forall e, f ensures SameTables(c, es + [e], es + [f]) {
      assert Covers(c, es + [e]) && Covers(c, es + [f]);
    }
    LastEventsAgree(c, es);
  }

  lemma LastEventsAgree(c: Cluster, es: seq<Event>)
    requires Covers(c, es) && forall e, f :: SameTables(c, es + [e], es + [f])
    ensures Consistent(c)
  {
    var d := Desired(c);
    forall j, k | j in d.hosts && k in d.hosts && d.hosts[j].hostID == d.hosts[k].hostID
      ensures d.hosts[j].endpoint == d.hosts[k].endpoint
    {
      HostOrderShows(c, es, j, k);
    }
    forall j, k | j in d.routes && k in d.routes && d.routes[j].workloadID == d.routes[k].workloadID
      ensures d.routes[j].hostID == d.routes[k].hostID
    {
      WorkloadOrderShows(c, es, j, k);
    }
  }

  /** Reconciling `j` last and reconciling `k` last leave their own endpoints. */
  lemma HostOrderShows(c: Cluster, es: seq<Event>, j: Key, k: Key)
    requires Covers(c, es) && j in Desired(c).hosts && k in Desired(c).hosts
    requires Desired(c).hosts[j].hostID == Desired(c).hosts[k].hostID
    requires SameTables(c, es + [HostEvent(j)], es + [HostEvent(k)])
    ensures Desired(c).hosts[j].endpoint == Desired(c).hosts[k].endpoint
  {
    LastHostWins(c, es, j);
    LastHostWins(c, es, k);
  }

  lemma WorkloadOrderShows(c: Cluster, es: seq<Event>, j: Key, k: Key)
    requires Covers(c, es) && j in Desired(c).routes && k in Desired(c).routes
    requires Desired(c).routes[j].workloadID == Desired(c).routes[k].workloadID
    requires SameTables(c, es + [WorkloadEvent(j)], es + [WorkloadEvent(k)])
    ensures Desired(c).routes[j].hostID == Desired(c).routes[k].hostID
  {
    LastWorkloadWins(c, es, j);
    LastWorkloadWins(c, es, k);
  }

  lemma LastHostWins(c: Cluster, es: seq<Event>, k: Key)
    requires k in Desired(c).hosts && Covers(c, es)
    ensures Covers(c, es + [HostEvent(k)])
    ensures var reg, hosts := Desired(c).hosts[k], RunTables(Calls(c, es + [HostEvent(k)])).hosts;
            reg.hostID in hosts && hosts[reg.hostID] == reg.endpoint
  {
    CallsStep(c, es, HostEvent(k));
    RunStep(Calls(c, es), HostCall(c, k).value);
  }

  lemma LastWorkloadWins(c: Cluster, es: seq<Event>, k: Key)
    requires k in Desired(c).routes && Covers(c, es)
    ensures Covers(c, es + [WorkloadEvent(k)])
    ensures var route, workloads := Desired(c).routes[k], RunTables(Calls(c, es + [WorkloadEvent(k)])).workloads;
            route.workloadID in workloads && workloads[route.workloadID] == route.hostID
  {
    CallsStep(c, es, WorkloadEvent(k));
    RunStep(Calls(c, es), WorkloadCall(c, k).value);
  }

  lemma CoveringEvents(c: Cluster) returns (es: seq<Event>)
    ensures Covers(c, es)
  {
    es := [];
    var hs, ws := c.hosts.Keys, c.workloads.Keys;
    while hs != {}
      invariant hs <= c.hosts.Keys
      invariant forall k | k in c.hosts.Keys - hs :: HostEvent(k) in es
    {
      var k :| k in hs;
      es, hs := es + [HostEvent(k)], hs - {k};
    }
    while ws != {}
      invariant ws <= c.workloads.Keys
      invariant forall k | k in c.hosts :: HostEvent(k) in es
      invariant forall k | k in c.workloads.Keys - ws :: WorkloadEvent(k) in es
    {
      var k :| k in ws;
      es, ws := es + [WorkloadEvent(k)], ws - {k};
    }
  }

  // ------------------------------------------------ after the cluster changed

  /** Reconcile `events` against `c`, starting from whatever is registered. */
  function LedgerFrom(l: Ledger, c: Cluster, events: seq<Event>): Ledger {
    if events == [] then l
    else ApplyIfAnyLedger(LedgerFrom(l, c, events[..|events| - 1]), CallOf(c, events[|events| - 1]))
  }

  /** A run of calls followed by reconciles is a run from what the calls left. */
  lemma {:induction false} RunThenEvents(calls: seq<Call>, c: Cluster, events: seq<Event>)
    ensures RunLedger(calls + Calls(c, events)) == LedgerFrom(RunLedger(calls), c, events)
  {
    if events == [] {
      assert calls + [] == calls;
    } else {
      var init, e := events[..|events| - 1], events[|events| - 1];
      RunThenEvents(calls, c, init);
      if CallOf(c, e).Some? {
        RunStep(calls + Calls(c, init), CallOf(c, e).value);
        assert calls + Calls(c, events) == calls + Calls(c, init) + [CallOf(c, e).value];
      } else {
        assert calls + Calls(c, events) == calls + Calls(c, init);
      }
    }
  }

  /** Reconciling `hk` against `c` takes `hostID` from it. */
  predicate Retires(l: Ledger, c: Cluster, hk: Key, hostID: string) {
    && HasHostID(l.hosts, hk, hostID) && HostCall(c, hk).Some?
    && (WantedHost(c, hk).None? || WantedHost(c, hk).value.hostID != hostID)
  }

  /** `e`, reconciled on ledger `l`, drops the host `hostID` and its routes. */
  predicate DropsHost(l: Ledger, c: Cluster, e: Event, hostID: string) {
    e.HostEvent? && Retires(l, c, e.key, hostID)
  }

  /** A reconciled host ends as the cluster wants it, unless its readiness is
      unknown: then, and when it is not reconciled, it stays as registered. */
  lemma {:induction false} HostSettles(l: Ledger, c: Cluster, events: seq<Event>, k: Key)
    ensures Lookup(LedgerFrom(l, c, events).hosts, k) ==
            if HostEvent(k) in events && HostCall(c, k).Some? then WantedHost(c, k) else Lookup(l.hosts, k)
  {
    if events != [] {
      var init, e := events[..|events| - 1], events[|events| - 1];
      HostSettles(l, c, init, k);
      assert events == init + [e];
    }
  }

  /** Event `j` is the first of a key from which it takes `hostID`. */
  predicate DropsAt(l: Ledger, c: Cluster, events: seq<Event>, j: nat, hostID: string) {
    && j < |events| && events[j].HostEvent?
    && Retires(l, c, events[j].key, hostID) && events[j] !in events[..j]
  }

  /** Only a key's first reconcile can drop its host. */
  lemma DropsIff(l: Ledger, c: Cluster, events: seq<Event>, j: nat, hostID: string)
    requires j < |events|
    ensures DropsHost(LedgerFrom(l, c, events[..j]), c, events[j], hostID) <==> DropsAt(l, c, events, j, hostID)
  {
    if events[j].HostEvent? {
      HostSettles(l, c, events[..j], events[j].key);
      assert Lookup(LedgerFrom(l, c, events[..j]).hosts, events[j].key) ==
             if events[j] in events[..j] && HostCall(c, events[j].key).Some? then WantedHost(c, events[j].key)
             else Lookup(l.hosts, events[j].key);
    }
  }

  /** Event `i` reconciled workload `k` and no later event drops `hostID`. */
  ghost predicate PlacedSince(l: Ledger, c: Cluster, events: seq<Event>, i: nat, k: Key, hostID: string) {
    && i < |events| && events[i] == WorkloadEvent(k)
    && forall j: nat | i < j < |events| :: !DropsAt(l, c, events, j, hostID)
  }

  ghost predicate NeverDropped(l: Ledger, c: Cluster, events: seq<Event>, hostID: string) {
    forall j: nat :: !DropsAt(l, c, events, j, hostID)
  }

  lemma DropsPrefix(l: Ledger, c: Cluster, events: seq<Event>, n: nat, hostID: string)
    requires n <= |events|
    ensures forall j: nat | j < n :: DropsAt(l, c, events[..n], j, hostID) <==> DropsAt(l, c, events, j, hostID)
  {
    forall j: nat | j < n ensures DropsAt(l, c, events[..n], j, hostID) <==> DropsAt(l, c, events, j, hostID) {
      assert events[..n][..j] == events[..j];
    }
  }

  lemma PlacedSinceStep(l: Ledger, c: Cluster, events: seq<Event>, k: Key, hostID: string)
    requires events != []
    ensures var n := |events| - 1;
            && (forall i: nat | i < n ::
                  PlacedSince(l, c, events, i, k, hostID) <==>
                  PlacedSince(l, c, events[..n], i, k, hostID) && !DropsAt(l, c, events, n, hostID))
            && (NeverDropped(l, c, events, hostID) <==>
                NeverDropped(l, c, events[..n], hostID) && !DropsAt(l, c, events, n, hostID))
  {
    DropsPrefix(l, c, events, |events| - 1, hostID);
  }

  lemma RouteStep(l: Ledger, c: Cluster, e: Event, k: Key)
    ensures var before, after := Lookup(l.routes, k), Lookup(ApplyIfAnyLedger(l, CallOf(c, e)).routes, k);
            if e == WorkloadEvent(k) && WorkloadCall(c, k).Some? then after == WantedRoute(c, k)
            else if before.Some? && DropsHost(l, c, e, before.value.hostID) then after == None
            else after == before
  {
  }

  /** What the events leave of route `r` for `k`, from `l`, `c` and `events` alone. */
  ghost predicate RouteLeft(l: Ledger, c: Cluster, events: seq<Event>, k: Key, r: Route) {
    if WorkloadEvent(k) in events && WorkloadCall(c, k).Some?
    then WantedRoute(c, k) == Some(r) && exists i: nat :: PlacedSince(l, c, events, i, k, r.hostID)
    else Lookup(l.routes, k) == Some(r) && NeverDropped(l, c, events, r.hostID)
  }

  /** A reconciled workload's route is registered in the end exactly when it is
      wanted and no event after some reconcile of it drops its host.  One that is
      not reconciled, or whose placement is pending, keeps the route it had
      exactly when no event drops that route's host. */
  lemma {:induction false} RouteSettlesIff(l: Ledger, c: Cluster, events: seq<Event>, k: Key, r: Route)
    ensures Lookup(LedgerFrom(l, c, events).routes, k) == Some(r) <==> RouteLeft(l, c, events, k, r)
  {
    if events != [] {
      var n := |events| - 1;
      RouteSettlesIff(l, c, events[..n], k, r);
      RouteStep(LedgerFrom(l, c, events[..n]), c, events[n], k);
      DropsIff(l, c, events, n, r.hostID);
      RouteLeftStep(l, c, events, k, r);
    }
  }

  lemma RouteLeftStep(l: Ledger, c: Cluster, events: seq<Event>, k: Key, r: Route)
    requires events != []
    ensures var n := |events| - 1;
            RouteLeft(l, c, events, k, r) <==>
            if events[n] == WorkloadEvent(k) && WorkloadCall(c, k).Some? then WantedRoute(c, k) == Some(r)
            else RouteLeft(l, c, events[..n], k, r) && !DropsAt(l, c, events, n, r.hostID)
  {
    var n := |events| - 1;
    PlacedSinceStep(l, c, events, k, r.hostID);
    assert events == events[..n] + [events[n]];
    if events[n] == WorkloadEvent(k) {
      assert PlacedSince(l, c, events, n, k, r.hostID);
    } else {
      assert forall i: nat :: PlacedSince(l, c, events, i, k, r.hostID) ==> i < n;
    }
  }

  /** `events` reconciles every object of the cluster and every registered key. */
  predicate CoversAll(l: Ledger, c: Cluster, events: seq<Event>) {
    && Covers(c, events)
    && (forall k | k in l.hosts :: HostEvent(k) in events)
    && (forall k | k in l.routes :: WorkloadEvent(k) in events)
  }

  ghost predicate PendingAreDropped(l: Ledger, c: Cluster) {
    forall k | k in l.routes && WorkloadCall(c, k).None? :: exists hk :: Retires(l, c, hk, l.routes[k].hostID)
  }

  /** What is left undecided can be settled: no registered host is of unknown
      readiness, and the route of every registered workload whose placement is
      pending is on a host that reconciling retires. */
  ghost predicate Settleable(l: Ledger, c: Cluster) {
    && (forall k | k in l.hosts :: HostCall(c, k).Some?)
    && PendingAreDropped(l, c)
  }

  lemma {:induction false} FirstOf(events: seq<Event>, e: Event) returns (j: nat)
    requires e in events
    ensures j < |events| && events[j] == e && e !in events[..j]
  {
    var n := |events| - 1;
    if e in events[..n] {
      j := FirstOf(events[..n], e);
      assert events[..n][..j] == events[..j];
    } else {
      j := n;
    }
  }

  lemma RetiredIsDropped(l: Ledger, c: Cluster, events: seq<Event>, hostID: string)
    requires forall k | k in l.hosts :: HostEvent(k) in events
    ensures NeverDropped(l, c, events, hostID) <==> forall hk :: !Retires(l, c, hk, hostID)
  {
    if hk :| Retires(l, c, hk, hostID) {
      var j := FirstOf(events, HostEvent(hk));
      assert DropsAt(l, c, events, j, hostID);
    }
  }

  lemma HostsSettleIff(l: Ledger, c: Cluster, events: seq<Event>)
    requires CoversAll(l, c, events)
    ensures LedgerFrom(l, c, events).hosts == Desired(c).hosts <==> forall k | k in l.hosts :: HostCall(c, k).Some?
  {
    var m, d := LedgerFrom(l, c, events).hosts, Desired(c).hosts;
    forall k ensures Lookup(m, k) == Lookup(d, k) <==> (k in l.hosts ==> HostCall(c, k).Some?) {
      HostSettles(l, c, events, k);
    }
    if forall k | k in l.hosts :: HostCall(c, k).Some? {
      SameLookups(m, d);
    }
  }

  /** Whether every wanted workload is reconciled after the last event that drops
      its host. */
  ghost predicate WantedArePlaced(l: Ledger, c: Cluster, events: seq<Event>) {
    forall k | k in Desired(c).routes :: exists i: nat :: PlacedSince(l, c, events, i, k, Desired(c).routes[k].hostID)
  }

  /** One key's route ends as wanted, in terms of the two conditions on it. */
  lemma RouteIsDesiredIff(l: Ledger, c: Cluster, events: seq<Event>, k: Key)
    requires CoversAll(l, c, events)
    ensures Lookup(LedgerFrom(l, c, events).routes, k) == Lookup(Desired(c).routes, k) <==>
            && (k in Desired(c).routes ==> exists i: nat :: PlacedSince(l, c, events, i, k, Desired(c).routes[k].hostID))
            && (k in l.routes && WorkloadCall(c, k).None? ==> exists hk :: Retires(l, c, hk, l.routes[k].hostID))
  {
    var found := Lookup(LedgerFrom(l, c, events).routes, k);
    WantedRouteIsDesired(c, k);
    if k in Desired(c).routes {
      RouteSettlesIff(l, c, events, k, Desired(c).routes[k]);
    } else {
      if k in l.routes {
        RouteSettlesIff(l, c, events, k, l.routes[k]);
        RetiredIsDropped(l, c, events, l.routes[k].hostID);
      }
      if found.Some? {
        RouteSettlesIff(l, c, events, k, found.value);
      }
    }
  }

  lemma RoutesSettleIff(l: Ledger, c: Cluster, events: seq<Event>)
    requires CoversAll(l, c, events)
    ensures LedgerFrom(l, c, events).routes == Desired(c).routes <==> WantedArePlaced(l, c, events) && PendingAreDropped(l, c)
  {
    var m, d := LedgerFrom(l, c, events).routes, Desired(c).routes;
    forall k ensures Lookup(m, k) == Lookup(d, k) <==>
      && (k in d ==> exists i: nat :: PlacedSince(l, c, events, i, k, d[k].hostID))
      && (k in l.routes && WorkloadCall(c, k).None? ==> exists hk :: Retires(l, c, hk, l.routes[k].hostID))
    {
      RouteIsDesiredIff(l, c, events, k);
    }
    if WantedArePlaced(l, c, events) && PendingAreDropped(l, c) {
      SameLookups(m, d);
    }
  }

  /** Whatever was registered before, reconciling everything reaches the desired
      registrations if and only if what is undecided can be settled and each
      wanted workload is reconciled after the last event that drops its host. */
  lemma StabilisesIff(l: Ledger, c: Cluster, events: seq<Event>)
    requires CoversAll(l, c, events)
    ensures LedgerFrom(l, c, events) == Desired(c) <==> Settleable(l, c) && WantedArePlaced(l, c, events)
  {
    HostsSettleIff(l, c, events);
    RoutesSettleIff(l, c, events);
  }

  lemma SameLookups<V>(a: map<Key, V>, b: map<Key, V>)
    requires forall k :: Lookup(a, k) == Lookup(b, k)
    ensures a == b
  {
    forall k ensures k in a <==> k in b {
      assert Lookup(a, k) == Lookup(b, k);
    }
    forall k | k in a ensures a[k] == b[k] {
      assert Lookup(a, k) == Lookup(b, k);
    }
  }

  /** When every host is reconciled before the wanted workloads, that depends on
      what was registered and on the cluster alone. */
  lemma HostsFirstStabilisesIff(l: Ledger, c: Cluster, es: seq<Event>, fs: seq<Event>)
    requires CoversAll(l, c, es + fs)
    requires forall k | k in l.hosts || k in c.hosts :: HostEvent(k) in es
    requires forall k | k in Desired(c).routes :: WorkloadEvent(k) in fs
    ensures LedgerFrom(l, c, es + fs) == Desired(c) <==> Settleable(l, c)
  {
    forall k | k in Desired(c).routes
      ensures exists i: nat :: PlacedSince(l, c, es + fs, i, k, Desired(c).routes[k].hostID)
    {
      PlacedAfterHosts(l, c, es, fs, k, Desired(c).routes[k].hostID);
    }
    StabilisesIff(l, c, es + fs);
  }

  lemma PlacedAfterHosts(l: Ledger, c: Cluster, es: seq<Event>, fs: seq<Event>, k: Key, hostID: string)
    requires forall hk | hk in l.hosts :: HostEvent(hk) in es
    requires WorkloadEvent(k) in fs
    ensures exists i: nat :: PlacedSince(l, c, es + fs, i, k, hostID)
  {
    var events := es + fs;
    var i: nat :| i < |fs| && fs[i] == WorkloadEvent(k);
    forall j: nat | |es| <= j < |events| ensures !DropsAt(l, c, events, j, hostID) {
      assert es <= events[..j];
    }
    assert PlacedSince(l, c, events, |es| + i, k, hostID);
  }

  /** What that means for the tables, after any history of calls: they come to
      index exactly the desired registrations under the same conditions. */
  lemma TablesStabiliseIff(calls: seq<Call>, c: Cluster, events: seq<Event>)
    requires CompatibleThroughout(calls + Calls(c, events))
    requires CoversAll(RunLedger(calls), c, events)
    ensures Exact(RunTables(calls + Calls(c, events)), Desired(c)) <==>
            Settleable(RunLedger(calls), c) && WantedArePlaced(RunLedger(calls), c, events)
  {
    TablesFollowLedger(calls, c, events);
    StabilisesIff(RunLedger(calls), c, events);
  }

  lemma TablesFollowLedger(calls: seq<Call>, c: Cluster, events: seq<Event>)
    requires CompatibleThroughout(calls + Calls(c, events))
    ensures Exact(RunTables(calls + Calls(c, events)), Desired(c)) <==> LedgerFrom(RunLedger(calls), c, events) == Desired(c)
  {
    var all := calls + Calls(c, events);
    assert all[..|all|] == all;
    CompatibleRunIsExact(all, |all|);
    RunThenEvents(calls, c, events);
    if Exact(RunTables(all), Desired(c)) {
      LedgerIsUnique(RunTables(all), RunLedger(all), Desired(c));
    }
  }

  lemma HostsFirstTablesIff(calls: seq<Call>, c: Cluster, es: seq<Event>, fs: seq<Event>)
    requires CompatibleThroughout(calls + Calls(c, es + fs))
    requires CoversAll(RunLedger(calls), c, es + fs)
    requires forall k | k in RunLedger(calls).hosts || k in c.hosts :: HostEvent(k) in es
    requires forall k | k in Desired(c).routes :: WorkloadEvent(k) in fs
    ensures Exact(RunTables(calls + Calls(c, es + fs)), Desired(c)) <==> Settleable(RunLedger(calls), c)
  {
    TablesFollowLedger(calls, c, es + fs);
    HostsFirstStabilisesIff(RunLedger(calls), c, es, fs);
  }

  /** But hosts alone do not: a host that goes not-ready and comes back, with
      the cluster as it was, leaves its workloads without a route until they
      are reconciled again. */
  lemma HostFlapLosesRoutes(up: Cluster, down: Cluster, h: Key, w: Key)
    requires h in Desired(up).hosts && w in Desired(up).routes
    requires Desired(up).routes[w].hostID == Desired(up).hosts[h].hostID
    requires HostCall(down, h) == Some(DeregisterHost(h))
    ensures var l := LedgerFrom(LedgerFrom(Desired(up), down, [HostEvent(h)]), up, [HostEvent(h)]);
            l.hosts == Desired(up).hosts && w !in l.routes
  {
    var d := Desired(up);
    OneEvent(d, down, HostEvent(h));
    var l := d.Apply(DeregisterHost(h));
    OneEvent(l, up, HostEvent(h));
    assert l.Apply(RegisterHost(h, d.hosts[h])).hosts == d.hosts;
  }

  lemma OneEvent(l: Ledger, c: Cluster, e: Event)
    ensures LedgerFrom(l, c, [e]) == ApplyIfAnyLedger(l, CallOf(c, e))
  {
    assert [e][..|[e]| - 1] == [];
  }
}
