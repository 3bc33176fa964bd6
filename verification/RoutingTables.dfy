/** The gateway's routing tables: five maps kept in step by four registrations
    and two cascading removals.  The functions say what each call does to the
    tables as a value; the class `HostTracker` does it in place. */
module RoutingTables {
  import opened Text

  /** A Kubernetes object key. */
  datatype Key = Key(namespace: string, name: string)

  /** What a registered Workload contributes to the tables. */
  datatype Route = Route(hostID: string, workloadID: string, hostname: string)

  datatype Tables = Tables(
    hosts: map<string, string>,           // host ID to "hostname:port"
    hostnames: map<string, set<string>>,  // hostname to workload IDs
    workloads: map<string, string>,       // workload ID to host ID
    hostKeys: map<Key, string>,           // Host key to host ID
    workloadKeys: map<Key, Route>)        // Workload key to its route
  {
    function RemoveHost(hostID: string): Tables {
      var dropped := set w | w in workloads && workloads[w] == hostID;
      this.(workloadKeys := map k | k in workloadKeys && workloadKeys[k].hostID != hostID :: workloadKeys[k],
         workloads := workloads - dropped,
         hostnames := Without(hostnames, dropped),
         hosts := hosts - {hostID})
    }

    function RemoveWorkload(route: Route): Tables {
      this.(workloads := workloads - {route.workloadID},
         hostnames :=
           if route.hostname !in hostnames then hostnames
           else
             var left := hostnames[route.hostname] - {route.workloadID};
             if left == {} then hostnames - {route.hostname} else hostnames[route.hostname := left])
    }

    function RegisterHost(key: Key, hostID: string, endpoint: string): Tables {
      var u := if key in hostKeys && hostKeys[key] != hostID then RemoveHost(hostKeys[key]) else this;
      u.(hostKeys := u.hostKeys[key := hostID], hosts := u.hosts[hostID := endpoint])
    }

    function DeregisterHost(key: Key): Tables {
      if key !in hostKeys then this
      else this.(hostKeys := hostKeys - {key}).RemoveHost(hostKeys[key])
    }

    function RegisterWorkload(key: Key, route: Route): Tables {
      var u := if key in workloadKeys && workloadKeys[key] != route then RemoveWorkload(workloadKeys[key]) else this;
      var ids := if route.hostname in u.hostnames then u.hostnames[route.hostname] else {};
      u.(workloadKeys := u.workloadKeys[key := route],
         workloads := u.workloads[route.workloadID := route.hostID],
         hostnames := u.hostnames[route.hostname := ids + {route.workloadID}])
    }

    function DeregisterWorkload(key: Key): Tables {
      if key !in workloadKeys then this
      else this.(workloadKeys := workloadKeys - {key}).RemoveWorkload(workloadKeys[key])
    }
  }

  const EMPTY_TABLES := Tables(map[], map[], map[], map[], map[])

  /** `net.JoinHostPort`: an IPv6 literal is bracketed. */
  function JoinHostPort(hostname: string, port: nat): string {
    if ':' in hostname then "[" + hostname + "]:" + Decimal(port)
    else hostname + ":" + Decimal(port)
  }

  /** Where the last colon of `s` is. */
  function LastColon(s: string): (i: nat)
    requires ':' in s
    ensures i < |s|
  {
    var n := |s| - 1;
    if s[n] == ':' then n else assert s == s[..n] + [s[n]]; LastColon(s[..n])
  }

  lemma {:induction false} LastColonAt(a: string, b: string)
    requires ':' !in b
    ensures LastColon(a + [':'] + b) == |a|
  {
    if b != "" {
      var n := |b| - 1;
      LastColonAt(a, b[..n]);
      assert (a + [':'] + b)[..|a| + 1 + n] == a + [':'] + b[..n];
    }
  }

  predicate Bracketed(s: string) {
    |s| >= 2 && s[0] == '[' && s[|s| - 1] == ']'
  }

  /** `net.SplitHostPort`: what an endpoint is dialled by. */
  function SplitHostPort(s: string): (string, string)
    requires ':' in s
  {
    var i := LastColon(s);
    var host := s[..i];
    (if Bracketed(host) then host[1..|host| - 1] else host, s[i + 1..])
  }

  lemma SplitsAt(host: string, digits: string)
    requires ':' !in digits
    ensures SplitHostPort(host + ":" + digits) == (if Bracketed(host) then host[1..|host| - 1] else host, digits)
  {
    var s := host + [':'] + digits;
    LastColonAt(host, digits);
    assert s[..|host|] == host && s[|host| + 1..] == digits;
  }

  /** An endpoint leads back to the host and port it was made of. */
  lemma EndpointSplits(hostname: string, port: nat)
    requires ':' in hostname || !Bracketed(hostname)
    ensures ':' in JoinHostPort(hostname, port)
    ensures SplitHostPort(JoinHostPort(hostname, port)) == (hostname, Decimal(port))
  {
    NoColon(Decimal(port));
    Brackets(hostname, Decimal(port));
    SplitsAt(if ':' in hostname then "[" + hostname + "]" else hostname, Decimal(port));
  }

  lemma Brackets(hostname: string, digits: string)
    ensures var host := "[" + hostname + "]";
            && Bracketed(host) && host[1..|host| - 1] == hostname && "[" + hostname + "]:" + digits == host + ":" + digits
    ensures ':' in hostname + ":" + digits && ':' in "[" + hostname + "]:" + digits
  {
    assert "]:" == "]" + ":";
    assert (hostname + ":" + digits)[|hostname|] == ':';
    assert ("[" + hostname + "]:" + digits)[|hostname| + 2] == ':';
  }

  lemma NoColon(digits: string)
    requires AllDigits(digits)
    ensures ':' !in digits
  {
    assert !IsDigit(':');
  }

  /** Take `ids` out of every hostname's set, dropping the sets left empty.
      With nothing to take out no set is looked at, so none is dropped. */
  function Without(hostnames: map<string, set<string>>, ids: set<string>): map<string, set<string>> {
    if ids == {} then hostnames
    else map h | h in hostnames && hostnames[h] - ids != {} :: hostnames[h] - ids
  }

  /** Which way a lookup went. */
  datatype Branch =
    | UnknownHostname                                      // no set for the hostname
    | EmptySet                                             // a set, but empty
    | WorkloadWithoutHost(workloadID: string)              // a workload ID in no index
    | HostGone(workloadID: string)                         // its host has no endpoint
    | Hit(workloadID: string, endpoint: string)

  /** The branches open to a lookup of `name`; more than one when several
      workloads serve it, since any of them may be picked. */
  predicate MayTake(t: Tables, name: string, b: Branch) {
    if name !in t.hostnames then b == UnknownHostname
    else if t.hostnames[name] == {} then b == EmptySet
    else
      match b
      case WorkloadWithoutHost(w) => w in t.hostnames[name] && w !in t.workloads
      case HostGone(w) => w in t.hostnames[name] && w in t.workloads && t.workloads[w] !in t.hosts
      case Hit(w, e) =>
        w in t.hostnames[name] && w in t.workloads && t.workloads[w] in t.hosts && e == t.hosts[t.workloads[w]]
      case _ => false
  }

  datatype LookupResult = LookupResult(hostname: string, scheme: string, workloadID: string)

  /** The two fallback endpoints, as (scheme, endpoint) for a hostname. */
  datatype Fallback = Fallback(
    invalidHostname: string -> (string, string),
    noWorkloads: string -> (string, string))

  function Answer(f: Fallback, name: string, b: Branch): LookupResult {
    match b
    case UnknownHostname => var (scheme, endpoint) := f.invalidHostname(name); LookupResult(endpoint, scheme, "")
    case Hit(w, e) => LookupResult(e, "http", w)
    case _ => var (scheme, endpoint) := f.noWorkloads(name); LookupResult(endpoint, scheme, "")
  }

  /** Dropping one ID after a set of them is dropping them all. */
  lemma WithoutOneMore(hostnames: map<string, set<string>>, ids: set<string>, id: string)
    requires id !in ids
    ensures Without(Without(hostnames, ids), {id}) == Without(hostnames, ids + {id})
  {
    var once := Without(hostnames, ids);
    forall h | h in hostnames
      ensures (h in once ==> once[h] - {id} == hostnames[h] - (ids + {id}))
      ensures h !in once ==> hostnames[h] - (ids + {id}) == {}
    {
      if h !in once {
        assert hostnames[h] - ids == {};
        assert hostnames[h] <= ids;
      }
    }
  }

  /** The same with one ID, when the hostnames in `names` are still to come. */
  function WithoutYet(hostnames: map<string, set<string>>, id: string, names: set<string>): map<string, set<string>> {
    map h | h in hostnames && (h in names || hostnames[h] - {id} != {}) ::
      if h in names then hostnames[h] else hostnames[h] - {id}
  }

  lemma WithoutYetStep(hostnames: map<string, set<string>>, id: string, names: set<string>, name: string)
    requires name in names && name in hostnames
    ensures var now := WithoutYet(hostnames, id, names);
            && name in now && now[name] == hostnames[name]
            && WithoutYet(hostnames, id, names - {name}) ==
               if |hostnames[name] - {id}| == 0 then now - {name} else now[name := hostnames[name] - {id}]
  {
    var now, then' := WithoutYet(hostnames, id, names), WithoutYet(hostnames, id, names - {name});
    forall h | h in hostnames && h != name ensures h in now <==> h in then' {
    }
    assert |hostnames[name] - {id}| == 0 <==> hostnames[name] - {id} == {};
  }

  class HostTracker {
    const fallback: Fallback
    var hosts: map<string, string>
    var hostnames: map<string, set<string>>
    var workloads: map<string, string>
    var hostKeys: map<Key, string>
    var workloadKeys: map<Key, Route>

    constructor (fallback: Fallback)
      ensures this.fallback == fallback && View() == EMPTY_TABLES
    {
      this.fallback := fallback;
      hosts, hostnames, workloads, hostKeys, workloadKeys := map[], map[], map[], map[], map[];
    }

    function View(): Tables
      reads this
    {
      Tables(hosts, hostnames, workloads, hostKeys, workloadKeys)
    }

    /** `routeHost` is the X-Route-Host header, empty when it is not set. */
    method Resolve(host: string, routeHost: string) returns (r: LookupResult, branch: Branch)
      ensures var name := if routeHost != "" then routeHost else host;
              MayTake(View(), name, branch) && r == Answer(fallback, name, branch)
    {
      var name := host;
      if routeHost != "" {
        name := routeHost;
      }
      branch := UnknownHostname;
      if name in hostnames {
        branch := EmptySet;
        if |hostnames[name]| != 0 {
          var workloadID :| workloadID in hostnames[name];
          if workloadID !in workloads {
            branch := WorkloadWithoutHost(workloadID);
          } else if workloads[workloadID] !in hosts {
            branch := HostGone(workloadID);
          } else {
            branch := Hit(workloadID, hosts[workloads[workloadID]]);
          }
        }
      }
      r := Answer(fallback, name, branch);
    }

    method RegisterHost(key: Key, hostID: string, hostname: string, port: nat)
      modifies this
      ensures View() == old(View()).RegisterHost(key, hostID, JoinHostPort(hostname, port))
    {
      if key in hostKeys && hostKeys[key] != hostID {
        RemoveHost(hostKeys[key]);
      }
      hostKeys := hostKeys[key := hostID];
      hosts := hosts[hostID := JoinHostPort(hostname, port)];
    }

    method DeregisterHost(key: Key)
      modifies this
      ensures View() == old(View()).DeregisterHost(key)
    {
      if key !in hostKeys {
        return;
      }
      var hostID := hostKeys[key];
      hostKeys := hostKeys - {key};
      RemoveHost(hostID);
    }

    method RemoveHost(hostID: string)
      modifies this
      ensures View() == old(View()).RemoveHost(hostID)
    {
      var keys := workloadKeys.Keys;
      while keys != {}
        invariant keys <= old(workloadKeys).Keys
        invariant workloadKeys ==
          map k | k in old(workloadKeys) && (k in keys || old(workloadKeys)[k].hostID != hostID) :: old(workloadKeys)[k]
        invariant unchanged(`hosts, `hostnames, `workloads, `hostKeys)
      {
        var key :| key in keys;
        keys := keys - {key};
        if workloadKeys[key].hostID == hostID {
          workloadKeys := workloadKeys - {key};
        }
      }
      RemovePlacements(hostID);
      hosts := hosts - {hostID};
    }

    /** The second loop of `RemoveHost`, with the loop over hostnames inside it. */
    method RemovePlacements(hostID: string)
      modifies this`workloads, this`hostnames
      ensures View() == old(View()).(
          workloads := workloads, hostnames := hostnames)
      ensures var dropped := set w | w in old(workloads) && old(workloads)[w] == hostID;
              workloads == old(workloads) - dropped && hostnames == Without(old(hostnames), dropped)
    {
      var ids := workloads.Keys;
      ghost var dropped: set<string> := {};
      while ids != {}
        invariant ids <= old(workloads).Keys
        invariant dropped == set w | w in old(workloads) && old(workloads)[w] == hostID && w !in ids
        invariant workloads == old(workloads) - dropped
        invariant hostnames == Without(old(hostnames), dropped)
      {
        var workloadID :| workloadID in ids;
        ids := ids - {workloadID};
        if workloads[workloadID] == hostID {
          workloads := workloads - {workloadID};
          RemoveFromHostnames(workloadID);
          WithoutOneMore(old(hostnames), dropped, workloadID);
          dropped := dropped + {workloadID};
        }
      }
      assert dropped == set w | w in old(workloads) && old(workloads)[w] == hostID;
    }

    method RemoveFromHostnames(workloadID: string)
      modifies this`hostnames
      ensures hostnames == Without(old(hostnames), {workloadID})
    {
      var names := hostnames.Keys;
      while names != {}
        invariant names <= old(hostnames).Keys && hostnames == WithoutYet(old(hostnames), workloadID, names)
      {
        var name :| name in names;
        WithoutYetStep(old(hostnames), workloadID, names, name);
        names := names - {name};
        var left := hostnames[name] - {workloadID};
        hostnames := if |left| == 0 then hostnames - {name} else hostnames[name := left];
      }
    }

    method RegisterWorkload(key: Key, hostID: string, workloadID: string, hostname: string)
      modifies this
      ensures View() == old(View()).RegisterWorkload(key, Route(hostID, workloadID, hostname))
    {
      var route := Route(hostID, workloadID, hostname);
      if key in workloadKeys && workloadKeys[key] != route {
        RemoveWorkload(workloadKeys[key]);
      }
      workloadKeys := workloadKeys[key := route];
      workloads := workloads[workloadID := hostID];
      if hostname !in hostnames {
        hostnames := hostnames[hostname := {workloadID}];
        assert {} + {workloadID} == {workloadID};
      } else {
        hostnames := hostnames[hostname := hostnames[hostname] + {workloadID}];
      }
    }

    method DeregisterWorkload(key: Key)
      modifies this
      ensures View() == old(View()).DeregisterWorkload(key)
    {
      if key !in workloadKeys {
        return;
      }
      var route := workloadKeys[key];
      workloadKeys := workloadKeys - {key};
      RemoveWorkload(route);
    }

    method RemoveWorkload(route: Route)
      modifies this`workloads, this`hostnames
      ensures View() == old(View()).RemoveWorkload(route)
    {
      workloads := workloads - {route.workloadID};
      if route.hostname in hostnames {
        var left := hostnames[route.hostname] - {route.workloadID};
        hostnames := if |left| == 0 then hostnames - {route.hostname} else hostnames[route.hostname := left];
      }
    }
  }
}
