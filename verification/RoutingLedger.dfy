/** What the routing tables mean.  A ledger records, per object key, the live
    registration; the tables are an index of it.  This module states when the
    index is exact, and that it stays exact through a run of calls if and only
    if no call makes two keys disagree about an ID they share. */
module RoutingLedger {
  import opened Text
  import opened RoutingTables

  datatype HostReg = HostReg(hostID: string, endpoint: string)

  datatype Call =
    | RegisterHost(key: Key, reg: HostReg)
    | DeregisterHost(key: Key)
    | RegisterWorkload(key: Key, route: Route)
    | DeregisterWorkload(key: Key)

  datatype Ledger = Ledger(hosts: map<Key, HostReg>, routes: map<Key, Route>) {
    /** A host that goes takes the routes placed on it along. */
    function DropRoutesOn(hostID: string): Ledger {
      this.(routes := map k | k in routes && routes[k].hostID != hostID :: routes[k])
    }

    function Apply(c: Call): Ledger {
      match c
      case RegisterHost(key, reg) =>
        var l := if key in hosts && hosts[key].hostID != reg.hostID then DropRoutesOn(hosts[key].hostID) else this;
        l.(hosts := hosts[key := reg])
      case DeregisterHost(key) =>
        if key in hosts then DropRoutesOn(hosts[key].hostID).(hosts := hosts - {key}) else this
      case RegisterWorkload(key, route) => this.(routes := routes[key := route])
      case DeregisterWorkload(key) => this.(routes := routes - {key})
    }
  }

  const EMPTY_LEDGER := Ledger(map[], map[])

  function ApplyTables(t: Tables, c: Call): Tables {
    match c
    case RegisterHost(key, reg) => t.RegisterHost(key, reg.hostID, reg.endpoint)
    case DeregisterHost(key) => t.DeregisterHost(key)
    case RegisterWorkload(key, route) => t.RegisterWorkload(key, route)
    case DeregisterWorkload(key) => t.DeregisterWorkload(key)
  }

  // ---------------------------------------------------------------- exactness

  predicate HasHostID(hosts: map<Key, HostReg>, k: Key, id: string) {
    k in hosts && hosts[k].hostID == id
  }

  predicate HasWorkloadID(routes: map<Key, Route>, k: Key, id: string) {
    k in routes && routes[k].workloadID == id
  }

  predicate Serves(routes: map<Key, Route>, k: Key, hostname: string, id: string) {
    k in routes && routes[k].hostname == hostname && routes[k].workloadID == id
  }

  /** `hosts` holds the registered host IDs, no others, each with its endpoint. */
  ghost predicate HostsExact(hosts: map<string, string>, regs: map<Key, HostReg>) {
    && (forall id | id in hosts :: exists k :: HasHostID(regs, k, id))
    && (forall k | k in regs :: regs[k].hostID in hosts && hosts[regs[k].hostID] == regs[k].endpoint)
  }

  /** `workloads` holds the live routes' workload IDs, no others, each with its host. */
  ghost predicate WorkloadsExact(workloads: map<string, string>, routes: map<Key, Route>) {
    && (forall id | id in workloads :: exists k :: HasWorkloadID(routes, k, id))
    && (forall k | k in routes :: routes[k].workloadID in workloads && workloads[routes[k].workloadID] == routes[k].hostID)
  }

  predicate Lists(hostnames: map<string, set<string>>, h: string, id: string) {
    h in hostnames && id in hostnames[h]
  }

  ghost predicate NoEmptySet(hostnames: map<string, set<string>>) {
    forall h | h in hostnames :: hostnames[h] != {}
  }

  /** `hostnames[h]` is the set of workload IDs of the live routes for `h`, and
      no empty set is stored. */
  ghost predicate HostnamesExact(hostnames: map<string, set<string>>, routes: map<Key, Route>) {
    && NoEmptySet(hostnames)
    && (forall h, id :: Lists(hostnames, h, id) ==> exists k :: Serves(routes, k, h, id))
    && (forall k | k in routes :: Lists(hostnames, routes[k].hostname, routes[k].workloadID))
  }

  /** The tables are exactly the index of the ledger. */
  ghost predicate Exact(t: Tables, l: Ledger) {
    && t.hostKeys == (map k | k in l.hosts :: l.hosts[k].hostID)
    && t.workloadKeys == l.routes
    && HostsExact(t.hosts, l.hosts)
    && WorkloadsExact(t.workloads, l.routes)
    && HostnamesExact(t.hostnames, l.routes)
  }

  /** A ledger has at most one index. */
  lemma IndexIsUnique(t: Tables, u: Tables, l: Ledger)
    requires Exact(t, l) && Exact(u, l)
    ensures t == u
  {
    HostsIncluded(t.hosts, u.hosts, l.hosts);
    HostsIncluded(u.hosts, t.hosts, l.hosts);
    assert t.hosts == u.hosts;
    WorkloadsIncluded(t.workloads, u.workloads, l.routes);
    WorkloadsIncluded(u.workloads, t.workloads, l.routes);
    assert t.workloads == u.workloads;
    HostnamesIncluded(t.hostnames, u.hostnames, l.routes);
    HostnamesIncluded(u.hostnames, t.hostnames, l.routes);
    forall h | h in t.hostnames ensures t.hostnames[h] == u.hostnames[h] {
      assert t.hostnames[h] <= u.hostnames[h] <= t.hostnames[h];
    }
    assert t.hostnames.Keys == u.hostnames.Keys;
    assert t.hostnames == u.hostnames;
  }

  /** And tables index at most one ledger. */
  lemma LedgerIsUnique(t: Tables, l: Ledger, m: Ledger)
    requires Exact(t, l) && Exact(t, m)
    ensures l == m
  {
    assert l.hosts.Keys == t.hostKeys.Keys == m.hosts.Keys;
    forall k | k in l.hosts ensures l.hosts[k] == m.hosts[k] {
      assert l.hosts[k].hostID == t.hostKeys[k] == m.hosts[k].hostID;
    }
    assert l.hosts == m.hosts;
  }

  lemma HostsIncluded(a: map<string, string>, b: map<string, string>, regs: map<Key, HostReg>)
    requires HostsExact(a, regs) && HostsExact(b, regs)
    ensures forall id :: id in a ==> id in b && a[id] == b[id]
  {
    forall id | id in a ensures id in b && a[id] == b[id] {
      var k :| HasHostID(regs, k, id);
    }
  }

  lemma WorkloadsIncluded(a: map<string, string>, b: map<string, string>, routes: map<Key, Route>)
    requires WorkloadsExact(a, routes) && WorkloadsExact(b, routes)
    ensures forall id :: id in a ==> id in b && a[id] == b[id]
  {
    forall id | id in a ensures id in b && a[id] == b[id] {
      var k :| HasWorkloadID(routes, k, id);
    }
  }

  lemma HostnamesIncluded(a: map<string, set<string>>, b: map<string, set<string>>, routes: map<Key, Route>)
    requires HostnamesExact(a, routes) && HostnamesExact(b, routes)
    ensures forall h :: h in a ==> h in b && a[h] <= b[h]
  {
    forall h | h in a ensures h in b && a[h] <= b[h] {
      forall id | id in a[h] ensures Lists(b, h, id) {
        assert Lists(a, h, id);
        var k :| Serves(routes, k, h, id);
      }
      var id :| id in a[h];
      assert Lists(b, h, id);
    }
  }

  // -------------------------------------------------- when a call keeps it exact

  function Lookup<V>(m: map<Key, V>, key: Key): Option<V> {
    if key in m then Some(m[key]) else None
  }

  /** A key that goes from `prev` to `reg` does not take the host ID that
      another key's `other` still needs, nor give it another endpoint. */
  predicate HostsTolerate(prev: Option<HostReg>, reg: HostReg, other: HostReg) {
    && (other.hostID == reg.hostID ==> other.endpoint == reg.endpoint)
    && (prev.Some? && prev.value.hostID != reg.hostID ==> other.hostID != prev.value.hostID)
  }

  predicate HostCompatible(hosts: map<Key, HostReg>, key: Key, reg: HostReg) {
    forall k | k in hosts && k != key :: HostsTolerate(Lookup(hosts, key), reg, hosts[k])
  }

  /** A key that goes from `prev` to `route` leaves another key's `other`
      indexed: a workload ID they share stays on `other`'s host, and if `prev`
      shares it, it is registered again, for the hostname the two share if they do. */
  predicate RoutesTolerate(prev: Option<Route>, route: Route, other: Route) {
    && (other.workloadID == route.workloadID ==> other.hostID == route.hostID)
    && (prev.Some? && prev.value != route && other.workloadID == prev.value.workloadID ==>
          && route.workloadID == other.workloadID
          && (other.hostname == prev.value.hostname ==> route.hostname == other.hostname))
  }

  predicate RouteCompatible(routes: map<Key, Route>, key: Key, route: Route) {
    forall k | k in routes && k != key :: RoutesTolerate(Lookup(routes, key), route, routes[k])
  }

  predicate Compatible(l: Ledger, c: Call) {
    match c
    case RegisterHost(key, reg) => HostCompatible(l.hosts, key, reg)
    case DeregisterHost(key) =>
      key in l.hosts ==> forall k | k in l.hosts && k != key :: l.hosts[k].hostID != l.hosts[key].hostID
    case RegisterWorkload(key, route) => RouteCompatible(l.routes, key, route)
    case DeregisterWorkload(key) =>
      key in l.routes ==> forall k | k in l.routes && k != key :: l.routes[k].workloadID != l.routes[key].workloadID
  }

  /** No other key holds the ID a registration brings: what UUIDs give. */
  predicate FreshID(l: Ledger, c: Call) {
    match c
    case RegisterHost(key, reg) => forall k | k in l.hosts && k != key :: l.hosts[k].hostID != reg.hostID
    case RegisterWorkload(key, route) => forall k | k in l.routes && k != key :: l.routes[k].workloadID != route.workloadID
    case _ => true
  }

  // What the map operations do to a hostname's set, one element at a time.

  lemma WithoutLists(hostnames: map<string, set<string>>, ids: set<string>)
    requires NoEmptySet(hostnames)
    ensures NoEmptySet(Without(hostnames, ids))
    ensures forall h, id :: Lists(Without(hostnames, ids), h, id) <==> Lists(hostnames, h, id) && id !in ids
  {
    forall h, id | Lists(hostnames, h, id) && id !in ids ensures Lists(Without(hostnames, ids), h, id) {
      assert id in hostnames[h] - ids;
    }
  }

  predicate Unlisted(route: Route, h: string, id: string) {
    h == route.hostname && id == route.workloadID
  }

  lemma RemoveWorkloadLists(t: Tables, route: Route)
    requires NoEmptySet(t.hostnames)
    ensures var hs := t.RemoveWorkload(route).hostnames;
            && NoEmptySet(hs)
            && forall h, id :: Lists(hs, h, id) <==> Lists(t.hostnames, h, id) && !Unlisted(route, h, id)
  {
    if route.hostname in t.hostnames {
      var left := t.hostnames[route.hostname] - {route.workloadID};
      assert forall id :: id in left <==> id in t.hostnames[route.hostname] && id != route.workloadID;
    }
  }

  lemma RegisterWorkloadLists(t: Tables, key: Key, route: Route)
    requires NoEmptySet(t.hostnames)
    ensures var hs := t.RegisterWorkload(key, route).hostnames;
            && NoEmptySet(hs)
            && forall h, id :: Lists(hs, h, id) <==>
                 || Unlisted(route, h, id)
                 || (Lists(t.hostnames, h, id) &&
                     !(key in t.workloadKeys && t.workloadKeys[key] != route && Unlisted(t.workloadKeys[key], h, id)))
  {
    if key in t.workloadKeys && t.workloadKeys[key] != route {
      RemoveWorkloadLists(t, t.workloadKeys[key]);
    }
  }

  // Taking routes out takes exactly their IDs out of the index.

  lemma WorkloadsExactAfterDrop(workloads: map<string, string>, routes: map<Key, Route>, hostID: string)
    requires WorkloadsExact(workloads, routes)
    ensures var dropped := set w | w in workloads && workloads[w] == hostID;
            WorkloadsExact(workloads - dropped, map k | k in routes && routes[k].hostID != hostID :: routes[k])
  {
    var dropped := set w | w in workloads && workloads[w] == hostID;
    var left := map k | k in routes && routes[k].hostID != hostID :: routes[k];
    forall id | id in workloads - dropped ensures exists k :: HasWorkloadID(left, k, id) {
      var k :| HasWorkloadID(routes, k, id);
      assert HasWorkloadID(left, k, id);
    }
  }

  lemma HostnamesExactAfterDrop(
      workloads: map<string, string>, hostnames: map<string, set<string>>, routes: map<Key, Route>, hostID: string)
    requires WorkloadsExact(workloads, routes) && HostnamesExact(hostnames, routes)
    ensures var dropped := set w | w in workloads && workloads[w] == hostID;
            HostnamesExact(Without(hostnames, dropped), map k | k in routes && routes[k].hostID != hostID :: routes[k])
  {
    var dropped := set w | w in workloads && workloads[w] == hostID;
    var left := map k | k in routes && routes[k].hostID != hostID :: routes[k];
    WithoutLists(hostnames, dropped);
    forall h, id | Lists(Without(hostnames, dropped), h, id) ensures exists k :: Serves(left, k, h, id) {
      var k :| Serves(routes, k, h, id);
      assert Serves(left, k, h, id);
    }
  }

  /** Whether registering `route` under `key` takes `id` out of the index. */
  predicate Replaced(routes: map<Key, Route>, key: Key, route: Route, id: string) {
    key in routes && routes[key] != route && routes[key].workloadID == id
  }

  lemma RegisteredIsIndexed(
      before: map<string, string>, after: map<string, string>, routes: map<Key, Route>, key: Key, route: Route)
    requires WorkloadsExact(before, routes) && RouteCompatible(routes, key, route)
    requires forall id :: id in after <==> id == route.workloadID || (id in before && !Replaced(routes, key, route, id))
    requires forall id | id in after :: after[id] == if id == route.workloadID then route.hostID else before[id]
    ensures WorkloadsExact(after, routes[key := route])
  {
    var next := routes[key := route];
    forall id | id in after ensures exists k :: HasWorkloadID(next, k, id) {
      if id == route.workloadID {
        assert HasWorkloadID(next, key, id);
      } else {
        var k :| HasWorkloadID(routes, k, id);
        assert HasWorkloadID(next, k, id);
      }
    }
    forall k | k in next ensures next[k].workloadID in after && after[next[k].workloadID] == next[k].hostID {
      if k != key {
        assert RoutesTolerate(Lookup(routes, key), route, routes[k]);
      }
    }
  }

  lemma WorkloadsExactAfterRegister(t: Tables, l: Ledger, key: Key, route: Route)
    requires t.workloadKeys == l.routes && WorkloadsExact(t.workloads, l.routes)
    requires RouteCompatible(l.routes, key, route)
    ensures WorkloadsExact(t.RegisterWorkload(key, route).workloads, l.routes[key := route])
  {
    RegisteredIsIndexed(t.workloads, t.RegisterWorkload(key, route).workloads, l.routes, key, route);
  }

  lemma RegisteredIsListed(
      before: map<string, set<string>>, after: map<string, set<string>>, routes: map<Key, Route>, key: Key, route: Route)
    requires HostnamesExact(before, routes) && RouteCompatible(routes, key, route) && NoEmptySet(after)
    requires forall h, id :: Lists(after, h, id) <==>
               || Unlisted(route, h, id)
               || (Lists(before, h, id) && !(key in routes && routes[key] != route && Unlisted(routes[key], h, id)))
    ensures HostnamesExact(after, routes[key := route])
  {
    var next := routes[key := route];
    forall h, id | Lists(after, h, id) ensures exists k :: Serves(next, k, h, id) {
      if Unlisted(route, h, id) {
        assert Serves(next, key, h, id);
      } else {
        var k :| Serves(routes, k, h, id);
        assert Serves(next, k, h, id);
      }
    }
    forall k | k in next ensures Lists(after, next[k].hostname, next[k].workloadID) {
      if k != key {
        assert RoutesTolerate(Lookup(routes, key), route, routes[k]);
      }
    }
  }

  lemma HostnamesExactAfterRegister(t: Tables, l: Ledger, key: Key, route: Route)
    requires t.workloadKeys == l.routes && HostnamesExact(t.hostnames, l.routes)
    requires RouteCompatible(l.routes, key, route)
    ensures HostnamesExact(t.RegisterWorkload(key, route).hostnames, l.routes[key := route])
  {
    RegisterWorkloadLists(t, key, route);
    RegisteredIsListed(t.hostnames, t.RegisterWorkload(key, route).hostnames, l.routes, key, route);
  }

  lemma RegisterWorkloadNeeds(t: Tables, l: Ledger, key: Key, route: Route, k: Key)
    requires t.workloadKeys == l.routes && NoEmptySet(t.hostnames)
    requires k in l.routes && k != key
    requires WorkloadsExact(t.RegisterWorkload(key, route).workloads, l.routes[key := route])
    requires HostnamesExact(t.RegisterWorkload(key, route).hostnames, l.routes[key := route])
    ensures RoutesTolerate(Lookup(l.routes, key), route, l.routes[k])
  {
    RegisterWorkloadLists(t, key, route);
    assert l.routes[key := route][k] == l.routes[k];
  }

  lemma RegisterWorkloadExactIff(t: Tables, l: Ledger, key: Key, route: Route)
    requires Exact(t, l)
    ensures Exact(t.RegisterWorkload(key, route), l.Apply(RegisterWorkload(key, route))) <==> RouteCompatible(l.routes, key, route)
  {
    if RouteCompatible(l.routes, key, route) {
      WorkloadsExactAfterRegister(t, l, key, route);
      HostnamesExactAfterRegister(t, l, key, route);
    }
    if Exact(t.RegisterWorkload(key, route), l.Apply(RegisterWorkload(key, route))) {
      forall k | k in l.routes && k != key ensures RoutesTolerate(Lookup(l.routes, key), route, l.routes[k]) {
        RegisterWorkloadNeeds(t, l, key, route, k);
      }
    }
  }

  lemma RemovedRouteExact(t: Tables, l: Ledger, key: Key)
    requires key in l.routes && WorkloadsExact(t.workloads, l.routes) && HostnamesExact(t.hostnames, l.routes)
    requires forall k | k in l.routes && k != key :: l.routes[k].workloadID != l.routes[key].workloadID
    ensures WorkloadsExact(t.RemoveWorkload(l.routes[key]).workloads, l.routes - {key})
    ensures HostnamesExact(t.RemoveWorkload(l.routes[key]).hostnames, l.routes - {key})
  {
    var route, routes := l.routes[key], l.routes - {key};
    RemoveWorkloadLists(t, route);
    forall id | id in t.workloads - {route.workloadID} ensures exists k :: HasWorkloadID(routes, k, id) {
      var k :| HasWorkloadID(l.routes, k, id);
      assert HasWorkloadID(routes, k, id);
    }
    forall h, id | Lists(t.RemoveWorkload(route).hostnames, h, id) ensures exists k :: Serves(routes, k, h, id) {
      var k :| Serves(l.routes, k, h, id);
      assert Serves(routes, k, h, id);
    }
  }

  lemma DeregisterWorkloadExactIff(t: Tables, l: Ledger, key: Key)
    requires Exact(t, l)
    ensures Exact(t.DeregisterWorkload(key), l.Apply(DeregisterWorkload(key))) <==> Compatible(l, DeregisterWorkload(key))
  {
    if key !in l.routes {
      assert l.routes - {key} == l.routes;
    } else {
      var u := t.(workloadKeys := t.workloadKeys - {key});
      if Compatible(l, DeregisterWorkload(key)) {
        RemovedRouteExact(u, l, key);
      }
      if Exact(t.DeregisterWorkload(key), l.Apply(DeregisterWorkload(key))) {
        forall k | k in l.routes && k != key ensures l.routes[k].workloadID != l.routes[key].workloadID {
          assert (l.routes - {key})[k] == l.routes[k];
        }
      }
    }
  }

  lemma HostsExactAfterRemove(hosts: map<string, string>, regs: map<Key, HostReg>, key: Key)
    requires key in regs && HostsExact(hosts, regs)
    ensures HostsExact(hosts - {regs[key].hostID}, regs - {key}) <==>
            forall k | k in regs && k != key :: regs[k].hostID != regs[key].hostID
  {
    var left := regs - {key};
    if forall k | k in regs && k != key :: regs[k].hostID != regs[key].hostID {
      forall id | id in hosts - {regs[key].hostID} ensures exists k :: HasHostID(left, k, id) {
        var k :| HasHostID(regs, k, id);
        assert HasHostID(left, k, id);
      }
    }
    if HostsExact(hosts - {regs[key].hostID}, left) {
      forall k | k in regs && k != key ensures regs[k].hostID != regs[key].hostID {
        assert left[k] == regs[k];
      }
    }
  }

  lemma HostsExactAfterRegister(hosts: map<string, string>, regs: map<Key, HostReg>, key: Key, reg: HostReg)
    requires HostsExact(hosts, regs)
    ensures var kept := if key in regs && regs[key].hostID != reg.hostID then hosts - {regs[key].hostID} else hosts;
            HostsExact(kept[reg.hostID := reg.endpoint], regs[key := reg]) <==> HostCompatible(regs, key, reg)
  {
    var kept := if key in regs && regs[key].hostID != reg.hostID then hosts - {regs[key].hostID} else hosts;
    var hosts', regs' := kept[reg.hostID := reg.endpoint], regs[key := reg];
    if HostCompatible(regs, key, reg) {
      forall id | id in hosts' ensures exists k :: HasHostID(regs', k, id) {
        if id == reg.hostID {
          assert HasHostID(regs', key, id);
        } else {
          var k :| HasHostID(regs, k, id);
          assert HasHostID(regs', k, id);
        }
      }
    }
    if HostsExact(hosts', regs') {
      forall k | k in regs && k != key ensures HostsTolerate(Lookup(regs, key), reg, regs[k]) {
        assert regs'[k] == regs[k];
      }
    }
  }

  lemma DeregisterHostExactIff(t: Tables, l: Ledger, key: Key)
    requires Exact(t, l)
    ensures Exact(t.DeregisterHost(key), l.Apply(DeregisterHost(key))) <==> Compatible(l, DeregisterHost(key))
  {
    if key in l.hosts {
      WorkloadsExactAfterDrop(t.workloads, l.routes, l.hosts[key].hostID);
      HostnamesExactAfterDrop(t.workloads, t.hostnames, l.routes, l.hosts[key].hostID);
      HostsExactAfterRemove(t.hosts, l.hosts, key);
      assert l.hosts - {key} == l.Apply(DeregisterHost(key)).hosts;
    }
  }

  lemma RegisterHostRoutes(t: Tables, l: Ledger, key: Key, reg: HostReg)
    requires t.hostKeys == (map k | k in l.hosts :: l.hosts[k].hostID) && t.workloadKeys == l.routes
    requires WorkloadsExact(t.workloads, l.routes) && HostnamesExact(t.hostnames, l.routes)
    ensures var u, m := t.RegisterHost(key, reg.hostID, reg.endpoint), l.Apply(RegisterHost(key, reg));
            && u.workloadKeys == m.routes
            && WorkloadsExact(u.workloads, m.routes) && HostnamesExact(u.hostnames, m.routes)
  {
    if key in l.hosts && l.hosts[key].hostID != reg.hostID {
      WorkloadsExactAfterDrop(t.workloads, l.routes, l.hosts[key].hostID);
      HostnamesExactAfterDrop(t.workloads, t.hostnames, l.routes, l.hosts[key].hostID);
    }
  }

  lemma RegisterHostKeys(t: Tables, l: Ledger, key: Key, reg: HostReg)
    requires t.hostKeys == map k | k in l.hosts :: l.hosts[k].hostID
    ensures var u, m := t.RegisterHost(key, reg.hostID, reg.endpoint), l.Apply(RegisterHost(key, reg));
            && u.hostKeys == (map k | k in m.hosts :: m.hosts[k].hostID)
            && m.hosts == l.hosts[key := reg]
            && u.hosts == (if key in l.hosts && l.hosts[key].hostID != reg.hostID then t.hosts - {l.hosts[key].hostID} else t.hosts)
                          [reg.hostID := reg.endpoint]
  {
  }

  lemma RegisterHostExactIff(t: Tables, l: Ledger, key: Key, reg: HostReg)
    requires Exact(t, l)
    ensures Exact(t.RegisterHost(key, reg.hostID, reg.endpoint), l.Apply(RegisterHost(key, reg))) <==>
            HostCompatible(l.hosts, key, reg)
  {
    RegisterHostRoutes(t, l, key, reg);
    RegisterHostKeys(t, l, key, reg);
    HostsExactAfterRegister(t.hosts, l.hosts, key, reg);
  }

  /** One call keeps the index exact if and only if it is compatible. */
  lemma StepExactIff(t: Tables, l: Ledger, c: Call)
    requires Exact(t, l)
    ensures Exact(ApplyTables(t, c), l.Apply(c)) <==> Compatible(l, c)
  {
    match c
    case RegisterHost(key, reg) => RegisterHostExactIff(t, l, key, reg);
    case DeregisterHost(key) => DeregisterHostExactIff(t, l, key);
    case RegisterWorkload(key, route) => RegisterWorkloadExactIff(t, l, key, route);
    case DeregisterWorkload(key) => DeregisterWorkloadExactIff(t, l, key);
  }
}
