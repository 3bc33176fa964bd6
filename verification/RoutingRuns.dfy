/** The routing tables over whole runs of calls, from a fresh tracker. */
module RoutingRuns {
  import opened Text
  import opened RoutingTables
  import opened RoutingLedger

  function RunTables(calls: seq<Call>): Tables {
    if calls == [] then EMPTY_TABLES
    else ApplyTables(RunTables(calls[..|calls| - 1]), calls[|calls| - 1])
  }

  function RunLedger(calls: seq<Call>): Ledger {
    if calls == [] then EMPTY_LEDGER
    else RunLedger(calls[..|calls| - 1]).Apply(calls[|calls| - 1])
  }

  ghost predicate ExactAfter(calls: seq<Call>, i: nat)
    requires i <= |calls|
  {
    Exact(RunTables(calls[..i]), RunLedger(calls[..i]))
  }

  ghost predicate CompatibleAt(calls: seq<Call>, i: nat)
    requires i < |calls|
  {
    Compatible(RunLedger(calls[..i]), calls[i])
  }

  ghost predicate CompatibleThroughout(calls: seq<Call>) {
    forall i: nat | i < |calls| :: CompatibleAt(calls, i)
  }

  lemma PrefixStep(calls: seq<Call>, i: nat)
    requires i < |calls|
    ensures RunTables(calls[..i + 1]) == ApplyTables(RunTables(calls[..i]), calls[i])
    ensures RunLedger(calls[..i + 1]) == RunLedger(calls[..i]).Apply(calls[i])
  {
    var p := calls[..i + 1];
    assert p[..|p| - 1] == calls[..i] && p[|p| - 1] == calls[i];
  }

  /** The tables are exactly the index of the ledger after every call of a run
      if and only if every call of the run is compatible. */
  lemma ExactThroughoutIff(calls: seq<Call>)
    ensures (forall i: nat | i <= |calls| :: ExactAfter(calls, i)) <==> CompatibleThroughout(calls)
  {
    if CompatibleThroughout(calls) {
      forall i: nat | i <= |calls| ensures ExactAfter(calls, i) {
        CompatibleRunIsExact(calls, i);
      }
    }
    if forall i: nat | i <= |calls| :: ExactAfter(calls, i) {
      forall i: nat | i < |calls| ensures CompatibleAt(calls, i) {
        assert ExactAfter(calls, i) && ExactAfter(calls, i + 1);
        PrefixStep(calls, i);
        StepExactIff(RunTables(calls[..i]), RunLedger(calls[..i]), calls[i]);
      }
    }
  }

  lemma {:induction false} CompatibleRunIsExact(calls: seq<Call>, n: nat)
    requires n <= |calls|
    requires CompatibleThroughout(calls)
    ensures ExactAfter(calls, n)
  {
    if n == 0 {
      assert calls[..0] == [];
    } else {
      CompatibleRunIsExact(calls, n - 1);
      assert CompatibleAt(calls, n - 1);
      PrefixStep(calls, n - 1);
      StepExactIff(RunTables(calls[..n - 1]), RunLedger(calls[..n - 1]), calls[n - 1]);
    }
  }

  // ------------------------------------------------- one ID under one key

  ghost predicate UniqueIDs(l: Ledger) {
    && (forall j, k | j in l.hosts && k in l.hosts && j != k :: l.hosts[j].hostID != l.hosts[k].hostID)
    && (forall j, k | j in l.routes && k in l.routes && j != k :: l.routes[j].workloadID != l.routes[k].workloadID)
  }

  ghost predicate FreshAt(calls: seq<Call>, i: nat)
    requires i < |calls|
  {
    FreshID(RunLedger(calls[..i]), calls[i])
  }

  lemma FreshStep(l: Ledger, c: Call)
    requires UniqueIDs(l) && FreshID(l, c)
    ensures Compatible(l, c) && UniqueIDs(l.Apply(c))
  {
  }

  /** If no registration brings an ID another key holds, as with UUIDs, every
      call is compatible and no two keys ever share an ID. */
  lemma {:induction false} FreshIDsAreCompatible(calls: seq<Call>, n: nat)
    requires n <= |calls|
    requires forall i: nat | i < |calls| :: FreshAt(calls, i)
    ensures UniqueIDs(RunLedger(calls[..n]))
    ensures forall i: nat | i < n :: CompatibleAt(calls, i)
  {
    if n == 0 {
      assert calls[..0] == [];
    } else {
      FreshIDsAreCompatible(calls, n - 1);
      assert FreshAt(calls, n - 1);
      PrefixStep(calls, n - 1);
      FreshStep(RunLedger(calls[..n - 1]), calls[n - 1]);
    }
  }

  // ------------------------------------------------------------- lookups

  /** What a lookup may answer, in terms of the live registrations alone. */
  ghost predicate LiveAnswer(l: Ledger, name: string, b: Branch) {
    match b
    case UnknownHostname => forall k | k in l.routes :: l.routes[k].hostname != name
    case HostGone(w) => exists k :: Serves(l.routes, k, name, w) && forall hk | hk in l.hosts :: l.hosts[hk].hostID != l.routes[k].hostID
    case Hit(w, e) =>
      exists k, hk :: Serves(l.routes, k, name, w) && HasHostID(l.hosts, hk, l.routes[k].hostID) && l.hosts[hk].endpoint == e
    case _ => false
  }

  /** On exact tables a lookup answers from the live registrations: the
      invalid-hostname fallback exactly when no live route has the hostname,
      the no-workloads fallback exactly when the picked route's host is not
      registered, and never from an empty set or an unplaced workload. */
  lemma ResolveIsLive(t: Tables, l: Ledger, name: string, b: Branch)
    requires Exact(t, l)
    ensures MayTake(t, name, b) <==> LiveAnswer(l, name, b)
  {
    match b
    case UnknownHostname => UnknownHostnameIffNoRoute(t, l, name);
    case EmptySet =>
    case WorkloadWithoutHost(w) =>
      if name in t.hostnames && w in t.hostnames[name] {
        assert Lists(t.hostnames, name, w);
        var k :| Serves(l.routes, k, name, w);
      }
    case HostGone(w) =>
      if MayTake(t, name, b) {
        var k := ServingKey(t, l, name, w);
        assert Serves(l.routes, k, name, w);
      }
      if LiveAnswer(l, name, b) {
        var k :| Serves(l.routes, k, name, w) && forall hk | hk in l.hosts :: l.hosts[hk].hostID != l.routes[k].hostID;
        assert Lists(t.hostnames, name, w);
      }
    case Hit(w, e) =>
      if MayTake(t, name, b) {
        var k := ServingKey(t, l, name, w);
        var hk :| HasHostID(l.hosts, hk, l.routes[k].hostID);
        assert Serves(l.routes, k, name, w) && HasHostID(l.hosts, hk, l.routes[k].hostID) && l.hosts[hk].endpoint == e;
      }
      if LiveAnswer(l, name, b) {
        var k, hk :| Serves(l.routes, k, name, w) && HasHostID(l.hosts, hk, l.routes[k].hostID) && l.hosts[hk].endpoint == e;
        assert Lists(t.hostnames, name, w);
      }
  }

  lemma UnknownHostnameIffNoRoute(t: Tables, l: Ledger, name: string)
    requires Exact(t, l)
    ensures name !in t.hostnames <==> forall k | k in l.routes :: l.routes[k].hostname != name
  {
    if name in t.hostnames {
      var w :| w in t.hostnames[name];
      assert Lists(t.hostnames, name, w);
      var k :| Serves(l.routes, k, name, w);
    } else {
      forall k | k in l.routes ensures l.routes[k].hostname != name {
        assert Lists(t.hostnames, l.routes[k].hostname, l.routes[k].workloadID);
      }
    }
  }

  lemma ServingKey(t: Tables, l: Ledger, name: string, w: string) returns (k: Key)
    requires Exact(t, l) && name in t.hostnames && w in t.hostnames[name]
    ensures Serves(l.routes, k, name, w)
    ensures w in t.workloads && t.workloads[w] == l.routes[k].hostID
  {
    assert Lists(t.hostnames, name, w);
    k :| Serves(l.routes, k, name, w);
  }

  // ---------------------------------------------------------- provenance

  /** `c`, made on ledger `l`, ends route `r` of workload key `k`. */
  predicate EndsRoute(l: Ledger, c: Call, k: Key, r: Route) {
    match c
    case RegisterWorkload(key, route) => key == k && route != r
    case DeregisterWorkload(key) => key == k
    case DeregisterHost(key) => HasHostID(l.hosts, key, r.hostID)
    case RegisterHost(key, reg) => HasHostID(l.hosts, key, r.hostID) && reg.hostID != r.hostID
  }

  /** `c` ends registration `r` of host key `k`. */
  predicate EndsHost(c: Call, k: Key, r: HostReg) {
    || c == DeregisterHost(k)
    || (c.RegisterHost? && c.key == k && c.reg != r)
  }

  /** Call `i` registered the route and no later call ended it. */
  ghost predicate RouteSince(calls: seq<Call>, i: nat, k: Key, r: Route) {
    && i < |calls| && calls[i] == RegisterWorkload(k, r)
    && forall j: nat | i < j < |calls| :: !EndsRoute(RunLedger(calls[..j]), calls[j], k, r)
  }

  ghost predicate HostSince(calls: seq<Call>, i: nat, k: Key, r: HostReg) {
    && i < |calls| && calls[i] == RegisterHost(k, r)
    && forall j: nat | i < j < |calls| :: !EndsHost(calls[j], k, r)
  }

  /** A route is live exactly when some call registered it and no later call
      deregistered it, replaced it, or dropped its host. */
  lemma {:induction false} RouteLiveIff(calls: seq<Call>, k: Key, r: Route)
    ensures Lookup(RunLedger(calls).routes, k) == Some(r) <==> exists i: nat :: RouteSince(calls, i, k, r)
    decreases |calls|
  {
    if calls != [] {
      var n := |calls| - 1;
      var init, last := calls[..n], calls[n];
      RouteLiveIff(init, k, r);
      RouteSinceStep(calls, k, r);
      if last == RegisterWorkload(k, r) {
        assert RouteSince(calls, n, k, r);
      }
    }
  }

  lemma RouteSinceStep(calls: seq<Call>, k: Key, r: Route)
    requires calls != []
    ensures var n := |calls| - 1;
            forall i: nat | i < n ::
              RouteSince(calls, i, k, r) <==> RouteSince(calls[..n], i, k, r) && !EndsRoute(RunLedger(calls[..n]), calls[n], k, r)
  {
    var n := |calls| - 1;
    forall j: nat | j < n ensures calls[..n][..j] == calls[..j] && calls[..n][j] == calls[j] {
    }
  }

  lemma {:induction false} HostLiveIff(calls: seq<Call>, k: Key, r: HostReg)
    ensures Lookup(RunLedger(calls).hosts, k) == Some(r) <==> exists i: nat :: HostSince(calls, i, k, r)
    decreases |calls|
  {
    if calls != [] {
      var n := |calls| - 1;
      var init, last := calls[..n], calls[n];
      HostLiveIff(init, k, r);
      assert forall i: nat | i < n :: HostSince(calls, i, k, r) <==> HostSince(init, i, k, r) && !EndsHost(last, k, r);
      if last == RegisterHost(k, r) {
        assert HostSince(calls, n, k, r);
      }
    }
  }

  /** After any compatible run, a lookup may hit workload `w` at endpoint `e`
      exactly when some key was registered to route `name` to `w` on a host that
      was registered at `e`, and neither registration has ended since. */
  lemma HitIffRegisteredSince(calls: seq<Call>, name: string, w: string, e: string)
    requires CompatibleThroughout(calls)
    ensures MayTake(RunTables(calls), name, Hit(w, e)) <==>
            exists k, hk, hostID, i: nat, j: nat ::
              RouteSince(calls, i, k, Route(hostID, w, name)) && HostSince(calls, j, hk, HostReg(hostID, e))
  {
    var l := RunLedger(calls);
    CompatibleRunIsExact(calls, |calls|);
    assert calls[..|calls|] == calls;
    ResolveIsLive(RunTables(calls), l, name, Hit(w, e));
    if LiveAnswer(l, name, Hit(w, e)) {
      var k, hk :| Serves(l.routes, k, name, w) && HasHostID(l.hosts, hk, l.routes[k].hostID) && l.hosts[hk].endpoint == e;
      var hostID := l.routes[k].hostID;
      RouteLiveIff(calls, k, Route(hostID, w, name));
      HostLiveIff(calls, hk, HostReg(hostID, e));
      var i: nat :| RouteSince(calls, i, k, Route(hostID, w, name));
      var j: nat :| HostSince(calls, j, hk, HostReg(hostID, e));
    }
    if k, hk, hostID, i: nat, j: nat :|
        RouteSince(calls, i, k, Route(hostID, w, name)) && HostSince(calls, j, hk, HostReg(hostID, e)) {
      RouteLiveIff(calls, k, Route(hostID, w, name));
      HostLiveIff(calls, hk, HostReg(hostID, e));
      assert Serves(l.routes, k, name, w) && HasHostID(l.hosts, hk, l.routes[k].hostID);
    }
  }

  /** What a lookup that comes back with workload `w` at `e` says. */
  ghost predicate ServedSince(calls: seq<Call>, name: string, w: string, e: string) {
    exists k, hk, hostID, i: nat, j: nat ::
      RouteSince(calls, i, k, Route(hostID, w, name)) && HostSince(calls, j, hk, HostReg(hostID, e))
  }

  ghost predicate NoRouteFor(l: Ledger, name: string) {
    forall k | k in l.routes :: l.routes[k].hostname != name
  }

  ghost predicate SomeRouteHasNoHost(l: Ledger, name: string) {
    exists k :: k in l.routes && l.routes[k].hostname == name && forall hk | hk in l.hosts :: l.hosts[hk].hostID != l.routes[k].hostID
  }

  /** After any compatible run, the answer to a lookup of `name` is one of three.
      It is over plain HTTP, with a workload and an endpoint that were registered
      for the name and still are.  Or it is the endpoint for hostnames nobody
      serves, and no live route has the name.  Or it is the endpoint for names
      without workloads, and a live route that has the name is on a host that is
      not registered.  The last two name no workload. */
  lemma AnswerIsLive(calls: seq<Call>, f: Fallback, name: string, b: Branch)
    requires CompatibleThroughout(calls) && MayTake(RunTables(calls), name, b)
    ensures var r, l := Answer(f, name, b), RunLedger(calls);
            match b
            case Hit(_, _) => r.scheme == "http" && ServedSince(calls, name, r.workloadID, r.hostname)
            case UnknownHostname =>
              r.workloadID == "" && (r.scheme, r.hostname) == f.invalidHostname(name) && NoRouteFor(l, name)
            case _ =>
              r.workloadID == "" && (r.scheme, r.hostname) == f.noWorkloads(name) && SomeRouteHasNoHost(l, name)
  {
    assert calls[..|calls|] == calls;
    CompatibleRunIsExact(calls, |calls|);
    ResolveIsLive(RunTables(calls), RunLedger(calls), name, b);
    if b.Hit? {
      HitIffRegisteredSince(calls, name, b.workloadID, b.endpoint);
    }
  }
}
