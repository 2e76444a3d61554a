/** Deletion of a Gateway: finalize and finalizeEnabled of internal/controller/gateway_controller.go,
    with removeRouteStatuses, the GatewayClass finalizer functions and their cache indexes, when
    any call of any pass may fail. */
module Finalization {
  import opened Base
  import opened Names
  import opened Dns
  import DnsOwnership

  const CONTROLLER := "cloudflare-gateway-controller.io/controller"
  const GATEWAY_GROUP := "gateway.networking.k8s.io"

  datatype ParentRef = ParentRef(group: Option<string>, kind: Option<string>, namespace: Option<string>, name: string)

  /** An entry of status.parents: its controller and the Gateway it is about. */
  datatype ParentStatus = ParentStatus(controller: string, refNamespace: Option<string>, refName: string)

  datatype Route = Route(namespace: string, parentRefs: seq<ParentRef>, parents: seq<ParentStatus>)

  // ---------- Indexes ----------

  predicate IsEntryOf(s: ParentStatus, gw: GatewayKey) {
    s.controller == CONTROLLER && s.refName == gw.name && s.refNamespace == Some(gw.namespace)
  }

  ghost predicate HasEntry(route: Route, gw: GatewayKey) {
    exists k :: 0 <= k < |route.parents| && IsEntryOf(route.parents[k], gw)
  }

  predicate RefersToGateway(ref: ParentRef) {
    (ref.group.None? || ref.group.value == GATEWAY_GROUP) && (ref.kind.None? || ref.kind.value == "Gateway")
  }

  function RefKey(route: Route, ref: ParentRef): string {
    (if ref.namespace.Some? then ref.namespace.value else route.namespace) + "/" + ref.name
  }

  /** One of the first n entries of this controller is indexed under the key. */
  ghost predicate EntryIndexed(route: Route, n: nat, key: string)
    requires n <= |route.parents|
  {
    exists k :: 0 <= k < n && route.parents[k].controller == CONTROLLER && route.parents[k].refNamespace.Some?
                && route.parents[k].refNamespace.value + "/" + route.parents[k].refName == key
  }

  ghost predicate Indexed(route: Route, key: string) {
    || (exists k :: 0 <= k < |route.parentRefs| && RefersToGateway(route.parentRefs[k]) && RefKey(route, route.parentRefs[k]) == key)
    || EntryIndexed(route, |route.parents|, key)
  }

  /** The parent-Gateway index of a route: its parentRefs and its existing entries, each key once. */
  method ParentGatewayKeys(route: Route) returns (keys: seq<string>)
    ensures forall key :: key in keys <==> Indexed(route, key)
    ensures forall a, b :: 0 <= a < b < |keys| ==> keys[a] != keys[b]
  {
    keys := [];
    for i := 0 to |route.parentRefs|
      invariant forall key :: key in keys <==>
                  exists k :: 0 <= k < i && RefersToGateway(route.parentRefs[k]) && RefKey(route, route.parentRefs[k]) == key
      invariant forall a, b :: 0 <= a < b < |keys| ==> keys[a] != keys[b]
    {
      var ref := route.parentRefs[i];
      if RefersToGateway(ref) && RefKey(route, ref) !in keys {
        keys := keys + [RefKey(route, ref)];
      }
    }
    ghost var fromRefs := keys;
    for i := 0 to |route.parents|
      invariant forall key :: key in keys <==> (key in fromRefs || EntryIndexed(route, i, key))
      invariant forall a, b :: 0 <= a < b < |keys| ==> keys[a] != keys[b]
    {
      var s := route.parents[i];
      if s.controller == CONTROLLER && s.refNamespace.Some? && s.refNamespace.value + "/" + s.refName !in keys {
        keys := keys + [s.refNamespace.value + "/" + s.refName];
      }
    }
  }

  function GatewayIndexKey(gw: GatewayKey): string {
    gw.namespace + "/" + gw.name
  }

  /** A route with an entry for the Gateway is found through the index, even when no parentRef
      names the Gateway any more. */
  lemma EntriesAreIndexed(route: Route, gw: GatewayKey)
    requires HasEntry(route, gw)
    ensures Indexed(route, GatewayIndexKey(gw))
  {
    var k :| 0 <= k < |route.parents| && IsEntryOf(route.parents[k], gw);
    assert route.parents[k].refNamespace.value + "/" + route.parents[k].refName == GatewayIndexKey(gw);
  }

  /** parentRefMatches */
  predicate ParentRefMatches(route: Route, ref: ParentRef, gw: GatewayKey) {
    && RefersToGateway(ref) && ref.name == gw.name
    && (if ref.namespace.Some? then ref.namespace.value else route.namespace) == gw.namespace
  }

  /** In full: group and kind default to the Gateway API's Gateway, and the namespace to the route's. */
  lemma ParentRefMeans(route: Route, ref: ParentRef, gw: GatewayKey)
    ensures ParentRefMatches(route, ref, gw) <==>
            && ref.name == gw.name
            && ref.group in {None, Some("gateway.networking.k8s.io")} && ref.kind in {None, Some("Gateway")}
            && (ref.namespace == Some(gw.namespace) || (ref.namespace == None && route.namespace == gw.namespace))
  {
  }

  /** The entries removed are this controller's about the Gateway, by name and namespace. */
  lemma EntryOfMeans(s: ParentStatus, gw: GatewayKey)
    ensures IsEntryOf(s, gw) <==>
            s == ParentStatus("cloudflare-gateway-controller.io/controller", Some(gw.namespace), gw.name)
  {
  }

  /** The others keep their order. */
  lemma {:induction false} OtherEntriesInOrder(a: seq<ParentStatus>, b: seq<ParentStatus>, gw: GatewayKey)
    ensures OtherEntries(a + b, gw) == OtherEntries(a, gw) + OtherEntries(b, gw)
    ensures forall s :: OtherEntries([s], gw) == if IsEntryOf(s, gw) then [] else [s]
  {
    if a == [] {
      assert a + b == b;
    } else {
      assert (a + b)[1..] == a[1..] + b;
      OtherEntriesInOrder(a[1..], b, gw);
    }
    forall s
      ensures OtherEntries([s], gw) == if IsEntryOf(s, gw) then [] else [s]
    {
      assert OtherEntries([s][1..], gw) == [];
    }
  }

  /** No namespace the route mentions holds a slash. */
  predicate SlashFree(route: Route) {
    && '/' !in route.namespace
    && (forall k :: 0 <= k < |route.parentRefs| && route.parentRefs[k].namespace.Some? ==> '/' !in route.parentRefs[k].namespace.value)
    && forall k :: 0 <= k < |route.parents| && route.parents[k].refNamespace.Some? ==> '/' !in route.parents[k].refNamespace.value
  }

  lemma IndexKeyIsInjective(namespace: string, name: string, gw: GatewayKey)
    requires '/' !in namespace && '/' !in gw.namespace
    ensures namespace + "/" + name == GatewayIndexKey(gw) <==> namespace == gw.namespace && name == gw.name
  {
    var key := namespace + "/" + name;
    CutIsUnique(key, '/', namespace, name);
    CutIsUnique(key, '/', gw.namespace, gw.name);
  }

  /** The index lists a route under a Gateway exactly when one of its parentRefs matches the
      Gateway or it has an entry for it. */
  lemma IndexIsExact(route: Route, gw: GatewayKey)
    requires SlashFree(route) && '/' !in gw.namespace
    ensures Indexed(route, GatewayIndexKey(gw)) <==>
            HasEntry(route, gw) || exists k :: 0 <= k < |route.parentRefs| && ParentRefMatches(route, route.parentRefs[k], gw)
  {
    forall k | 0 <= k < |route.parentRefs|
      ensures RefersToGateway(route.parentRefs[k]) && RefKey(route, route.parentRefs[k]) == GatewayIndexKey(gw)
              <==> ParentRefMatches(route, route.parentRefs[k], gw)
    {
      var ref := route.parentRefs[k];
      IndexKeyIsInjective(if ref.namespace.Some? then ref.namespace.value else route.namespace, ref.name, gw);
    }
    forall k | 0 <= k < |route.parents| && route.parents[k].controller == CONTROLLER && route.parents[k].refNamespace.Some?
      ensures route.parents[k].refNamespace.value + "/" + route.parents[k].refName == GatewayIndexKey(gw)
              <==> IsEntryOf(route.parents[k], gw)
    {
      IndexKeyIsInjective(route.parents[k].refNamespace.value, route.parents[k].refName, gw);
    }
    if HasEntry(route, gw) {
      EntriesAreIndexed(route, gw);
    }
  }

  /** The entries that are not about the Gateway, in order. */
  function OtherEntries(parents: seq<ParentStatus>, gw: GatewayKey): (r: seq<ParentStatus>)
    ensures forall s :: s in r <==> s in parents && !IsEntryOf(s, gw)
  {
    if parents == [] then []
    else (if IsEntryOf(parents[0], gw) then [] else [parents[0]]) + OtherEntries(parents[1..], gw)
  }

  /** The route is as before, or with the Gateway's entries gone. */
  predicate OnlyEntriesRemoved(before: Route, after: Route, gw: GatewayKey) {
    after == before || after == before.(parents := OtherEntries(before.parents, gw))
  }

  /** Once the entries are gone, removing them changes nothing. */
  lemma {:induction false} NothingMoreToRemove(parents: seq<ParentStatus>, gw: GatewayKey)
    requires forall s :: s in parents ==> !IsEntryOf(s, gw)
    ensures OtherEntries(parents, gw) == parents
  {
    if parents != [] { NothingMoreToRemove(parents[1..], gw); }
  }

  lemma RemovedOnce(before: Route, mid: Route, after: Route, gw: GatewayKey)
    requires OnlyEntriesRemoved(before, mid, gw) && OnlyEntriesRemoved(mid, after, gw)
    ensures OnlyEntriesRemoved(before, after, gw)
  {
    NothingMoreToRemove(OtherEntries(before.parents, gw), gw);
  }

  // ---------- The world a finalize pass acts on ----------

  class World {
    const gw: GatewayKey
    const tunnelName: string
    const store: RecordStore
    /** The listed Deployments, and whether they are terminating. */
    var deployments: map<string, bool>
    /** The account's tunnels: their IDs by name. */
    var tunnels: map<string, string>
    /** HTTPRoutes, then GRPCRoutes. */
    var routes: seq<Route>
    /** The finalizers of every GatewayClass. */
    var classes: map<string, set<string>>
    var statusFinalizer: bool
    var gatewayFinalizer: bool
    /** How often a tunnel was deleted while a listed Deployment or a CNAME to it remained. */
    ghost var unsafeDeletes: nat

    constructor (gw: GatewayKey, cluster: string, store: RecordStore, deployments: map<string, bool>,
                 tunnels: map<string, string>, routes: seq<Route>, classes: map<string, set<string>>)
      ensures this.gw == gw && this.tunnelName == TunnelName(cluster, gw) && this.store == store
      ensures this.deployments == deployments && this.tunnels == tunnels && this.routes == routes && this.classes == classes
      ensures statusFinalizer && gatewayFinalizer && unsafeDeletes == 0
    {
      this.gw, this.tunnelName, this.store := gw, TunnelName(cluster, gw), store;
      this.deployments, this.tunnels, this.routes, this.classes := deployments, tunnels, routes, classes;
      statusFinalizer, gatewayFinalizer, unsafeDeletes := true, true, 0;
    }

    ghost predicate Valid()
      reads this, store
    {
      InZones(store.records, store.zones) && "" !in classes
    }

    /** A tunnel ID is accounted for: it is the Gateway's tunnel, or no CNAME points at it. */
    ghost predicate Tracked(id: string)
      reads this`tunnels, store`records
    {
      (tunnelName in tunnels && tunnels[tunnelName] == id) || Pointing(store.records, TunnelTarget(id)) == {}
    }

    // ---------- Deployments ----------

    /** Kubernetes removes some of the terminating Deployments. */
    method EnvironmentRemoves()
      modifies this`deployments
      ensures deployments.Keys <= old(deployments.Keys)
    {
      var pending := deployments.Keys;
      while pending != {}
        invariant deployments.Keys <= old(deployments.Keys)
        decreases |pending|
      {
        var d :| d in pending;
        pending := pending - {d};
        var gone: bool := *;
        if d in deployments && deployments[d] && gone {
          deployments := deployments - {d};
        }
      }
    }

    method DeleteListed(listed: set<string>) returns (ok: bool)
      modifies this`deployments
      ensures deployments.Keys <= old(deployments.Keys)
      ensures store.reliable ==> ok
    {
      var pending := listed;
      while pending != {}
        invariant deployments.Keys <= old(deployments.Keys)
        decreases |pending|
      {
        var d :| d in pending;
        pending := pending - {d};
        var fails: bool := *;
        if fails && !store.reliable {
          return false;
        }
        if d in deployments {
          deployments := deployments[d := true];
        }
        EnvironmentRemoves();
      }
      return true;
    }

    /** Waits until none of the listed Deployments is left; `polls` is how long the context lasts. */
    method WaitUntilGone(listed: set<string>, polls: nat) returns (ok: bool)
      modifies this`deployments
      ensures deployments.Keys <= old(deployments.Keys)
      ensures ok ==> deployments.Keys * listed == {}
      ensures store.reliable && !ok ==> deployments != map[]
    {
      var pending, left := listed, polls;
      while pending != {}
        invariant pending <= listed && deployments.Keys <= old(deployments.Keys)
        invariant deployments.Keys * listed <= pending
        decreases |pending|
      {
        var d :| d in pending;
        while d in deployments
          invariant deployments.Keys <= old(deployments.Keys)
          invariant deployments.Keys * listed <= pending
          decreases left
        {
          var fails: bool := *;
          if (fails && !store.reliable) || left == 0 {
            return false;
          }
          left := left - 1;
          EnvironmentRemoves();
        }
        pending := pending - {d};
      }
      assert deployments.Keys * listed == {};
      return true;
    }

    // ---------- The tunnel ----------

    /** DeleteTunnel; a failed call may have had its effect. */
    method DeleteTunnel(id: string) returns (ok: bool)
      modifies this`tunnels, this`unsafeDeletes
      ensures forall n :: n in tunnels ==> n in old(tunnels) && tunnels[n] == old(tunnels)[n]
      ensures forall n :: n in old(tunnels) && n !in tunnels ==> old(tunnels)[n] == id
      ensures ok ==> forall n :: n in tunnels ==> tunnels[n] != id
      ensures unsafeDeletes == old(unsafeDeletes)
              || deployments != map[] || Pointing(store.records, TunnelTarget(id)) != {}
      ensures store.reliable ==> ok
    {
      var reached: bool := *;
      if !reached && !store.reliable {
        return false;
      }
      if deployments != map[] || Pointing(store.records, TunnelTarget(id)) != {} {
        unsafeDeletes := unsafeDeletes + 1;
      }
      tunnels := map n | n in tunnels && tunnels[n] != id :: tunnels[n];
      ok := *;
      ok := ok || store.reliable;
    }

    /** finalizeEnabled. */
    method FinalizeEnabled(polls: nat, lookup: Lookup) returns (ok: bool)
      requires Valid()
      modifies this`deployments, this`tunnels, this`statusFinalizer, this`unsafeDeletes, store`records
      ensures Valid()
      ensures unsafeDeletes == old(unsafeDeletes)
      ensures forall id :: old(Tracked(id)) ==> Tracked(id)
      ensures ok ==> deployments == map[] && tunnelName !in tunnels && !statusFinalizer
      ensures OthersKept(old(tunnels), old(store.records))
      ensures store.reliable && !ok ==> deployments != map[]
    {
      var fails: bool := *;
      if fails && !store.reliable {
        return false;
      }
      var listed := deployments.Keys;
      ok := DeleteListed(listed);
      if !ok {
        return;
      }
      ok := WaitUntilGone(listed, polls);
      if !ok {
        return;
      }
      assert deployments.Keys == deployments.Keys * listed;
      // Reading parameters and credentials, and looking up the tunnel.
      fails := *;
      if fails && !store.reliable {
        return false;
      }
      if tunnelName in tunnels {
        ok := DeleteTunnelAndRecords(tunnels[tunnelName], lookup);
        if !ok {
          return;
        }
      }
      fails := *;
      if fails && !store.reliable {
        return false;
      }
      statusFinalizer := false;
      return true;
    }

    /** The tunnel's CNAMEs, its connections, and then the tunnel itself. */
    method DeleteTunnelAndRecords(id: string, lookup: Lookup) returns (ok: bool)
      requires Valid() && deployments == map[] && tunnelName in tunnels && tunnels[tunnelName] == id
      modifies this`tunnels, this`unsafeDeletes, store`records
      ensures Valid()
      ensures unsafeDeletes == old(unsafeDeletes)
      ensures forall i :: old(Tracked(i)) ==> Tracked(i)
      ensures ok ==> tunnelName !in tunnels
      ensures OthersKept(old(tunnels), old(store.records))
      ensures store.reliable ==> ok
    {
      ghost var before := store.records;
      ok := store.ReconcileDNS(lookup, DNSPolicy(false, []), TunnelTarget(id), []);
      RecordsOnlyRemoved(before, store.records, TunnelTarget(id));
      if !ok {
        return;
      }
      var fails: bool := *;
      if fails && !store.reliable {
        return false;
      }
      ok := DeleteTunnel(id);
    }

    /** Other tunnels, and records that do not point at this Gateway's tunnel, are kept. */
    ghost predicate OthersKept(tunnelsBefore: map<string, string>, recordsBefore: Records)
      reads this`tunnels, store`records
    {
      && (forall n :: n in tunnels ==> n in tunnelsBefore && tunnels[n] == tunnelsBefore[n])
      && (tunnelName !in tunnelsBefore ==> tunnels == tunnelsBefore && store.records == recordsBefore)
      && (tunnelName in tunnelsBefore ==>
            var id := tunnelsBefore[tunnelName];
            && (forall n :: n in tunnelsBefore && tunnelsBefore[n] != id ==> n in tunnels)
            && (forall key :: key in store.records ==> key in recordsBefore && store.records[key] == recordsBefore[key])
            && (forall key :: key in recordsBefore && recordsBefore[key] != TunnelTarget(id) ==> key in store.records))
    }

    // ---------- Route statuses and GatewayClass finalizers ----------

    /** removeRouteStatus on route i; a failed patch may have had its effect. */
    method RemoveRouteStatus(i: nat) returns (ok: bool)
      requires i < |routes|
      modifies this`routes
      ensures |routes| == |old(routes)| && forall k :: 0 <= k < |routes| && k != i ==> routes[k] == old(routes)[k]
      ensures OnlyEntriesRemoved(old(routes)[i], routes[i], gw)
      ensures ok ==> !HasEntry(routes[i], gw)
      ensures store.reliable ==> ok
    {
      var reached: bool := *;
      if !reached && !store.reliable {
        return false;
      }
      routes := routes[i := routes[i].(parents := OtherEntries(routes[i].parents, gw))];
      forall k | 0 <= k < |routes[i].parents|
        ensures !IsEntryOf(routes[i].parents[k], gw)
      {
        assert routes[i].parents[k] in routes[i].parents;
      }
      ok := *;
      ok := ok || store.reliable;
    }

    /** removeRouteStatuses: all routes the index lists for the Gateway. */
    method RemoveRouteStatuses() returns (ok: bool)
      modifies this`routes
      ensures |routes| == |old(routes)|
      ensures forall k :: 0 <= k < |routes| ==> OnlyEntriesRemoved(old(routes)[k], routes[k], gw)
      ensures ok ==> forall k :: 0 <= k < |routes| ==> !HasEntry(routes[k], gw)
      ensures store.reliable ==> ok
    {
      var fails: bool := *;
      if fails && !store.reliable {
        return false;
      }
      var i := 0;
      while i < |routes|
        invariant 0 <= i <= |routes| == |old(routes)|
        invariant forall k :: 0 <= k < i ==> OnlyEntriesRemoved(old(routes)[k], routes[k], gw) && !HasEntry(routes[k], gw)
        invariant forall k :: i <= k < |routes| ==> routes[k] == old(routes)[k]
      {
        var keys := ParentGatewayKeys(routes[i]);
        if GatewayIndexKey(gw) in keys {
          ok := RemoveRouteStatus(i);
          if !ok {
            return;
          }
        } else if HasEntry(routes[i], gw) {
          EntriesAreIndexed(routes[i], gw);
          assert false;
        }
        i := i + 1;
      }
      return true;
    }

    function Finalizer(): string {
      FinalizerGatewayClass(gw)
    }

    /** The classes the finalizer index lists for the Gateway. */
    method ListClasses() returns (listed: set<string>)
      ensures listed == set c | c in classes && Finalizer() in classes[c]
    {
      listed := set c | c in classes && Finalizer() in classes[c] && HasPrefix(Finalizer(), CLASS_FINALIZER + "/");
      assert HasPrefix(Finalizer(), CLASS_FINALIZER + "/");
    }

    /** What a change of this Gateway's finalizer leaves alone. */
    ghost predicate OtherFinalizersKept(before: map<string, set<string>>)
      reads this`classes
    {
      && classes.Keys == before.Keys
      && forall c :: c in classes ==> classes[c] - {Finalizer()} == before[c] - {Finalizer()}
    }

    /** removeGatewayClassFinalizer, skipping one class by name; "" skips none. */
    method RemoveGatewayClassFinalizer(skip: string) returns (ok: bool)
      modifies this`classes
      ensures OtherFinalizersKept(old(classes))
      ensures ok ==> forall c :: c in classes && c != skip ==> Finalizer() !in classes[c]
      ensures skip in classes ==> classes[skip] == old(classes)[skip]
      ensures store.reliable ==> ok
    {
      var fails: bool := *;
      if fails && !store.reliable {
        return false;
      }
      var pending := ListClasses();
      while pending != {}
        invariant OtherFinalizersKept(old(classes))
        invariant pending <= classes.Keys
        invariant forall c :: c in classes && c !in pending && c != skip ==> Finalizer() !in classes[c]
        invariant skip in classes ==> classes[skip] == old(classes)[skip]
        decreases |pending|
      {
        var c :| c in pending;
        pending := pending - {c};
        if c != skip {
          var reached: bool := *;
          if !reached && !store.reliable {
            return false;
          }
          classes := classes[c := classes[c] - {Finalizer()}];
          ok := *;
          ok := ok || store.reliable;
          if !ok {
            return;
          }
        }
      }
      return true;
    }

    /** ensureGatewayClassFinalizer: afterwards the class carries the finalizer, and no other does. */
    method EnsureGatewayClassFinalizer(className: string) returns (ok: bool)
      modifies this`classes
      ensures OtherFinalizersKept(old(classes))
      ensures ok ==> className in classes && forall c :: c in classes ==> (Finalizer() in classes[c] <==> c == className)
      ensures store.reliable && className in old(classes) ==> ok
    {
      ok := RemoveGatewayClassFinalizer(className);
      if !ok {
        return;
      }
      var fails: bool := *;
      if (fails && !store.reliable) || className !in classes {
        return false;
      }
      if Finalizer() !in classes[className] {
        classes := classes[className := classes[className] + {Finalizer()}];
      }
      ok := *;
      ok := ok || store.reliable;
    }

    // ---------- A pass ----------

    /** Nothing of the Gateway is left behind. */
    ghost predicate CleanedUp()
      reads this, store
    {
      && deployments == map[] && tunnelName !in tunnels
      && (forall k :: 0 <= k < |routes| ==> !HasEntry(routes[k], gw))
      && (forall c :: c in classes ==> Finalizer() !in classes[c])
    }

    /** finalize: one pass, which may stop at any call and be retried. With reconciliation
        enabled the Gateway's own finalizer is removed only when nothing is left behind; and in
        every pass no tunnel is deleted while something still uses it, tracked tunnel IDs stay
        tracked, and nothing of other Gateways is touched. */
    method Finalize(enabled: bool, polls: nat, lookup: Lookup) returns (ok: bool)
      requires Valid()
      modifies this, store`records
      ensures Valid()
      ensures unsafeDeletes == old(unsafeDeletes)
      ensures forall id :: old(Tracked(id)) ==> Tracked(id)
      ensures enabled && (ok || (old(gatewayFinalizer) && !gatewayFinalizer)) ==>
                CleanedUp() && forall id :: old(Tracked(id)) ==> Pointing(store.records, TunnelTarget(id)) == {}
      ensures ok ==> !gatewayFinalizer
      ensures OthersKept(old(tunnels), old(store.records)) && OtherFinalizersKept(old(classes))
      ensures |routes| == |old(routes)| && forall k :: 0 <= k < |routes| ==> OnlyEntriesRemoved(old(routes)[k], routes[k], gw)
      ensures !enabled ==> deployments == old(deployments) && tunnels == old(tunnels) && store.records == old(store.records)
      ensures store.reliable && !ok ==> enabled && deployments != map[]
    {
      if enabled {
        ok := FinalizeEnabled(polls, lookup);
        if !ok {
          return;
        }
      } else {
        // Removing owner references.
        var fails: bool := *;
        if fails && !store.reliable {
          return false;
        }
      }
      ok := RemoveRouteStatuses();
      if !ok {
        return;
      }
      ok := RemoveGatewayClassFinalizer("");
      if !ok {
        return;
      }
      // A pass on a stale copy of the Gateway may find the finalizer gone.
      if !gatewayFinalizer {
        return true;
      }
      var reached: bool := *;
      if !reached && !store.reliable {
        return false;
      }
      gatewayFinalizer := false;
      ok := *;
      ok := ok || store.reliable;
    }

    /** Passes retried until the Gateway's finalizer is gone or no attempt is left; the annotation that
        disables reconciliation and the zone lookups may change between them. Over all of them,
        a tunnel ID that was in use at the start stays tracked, nothing of other Gateways is
        touched, and if the pass that ended it was enabled nothing of the Gateway is left. */
    method FinalizeWithRetries(attempts: seq<(bool, nat, Lookup)>) returns (last: bool)
      requires Valid() && gatewayFinalizer
      modifies this, store`records
      ensures Valid()
      ensures unsafeDeletes == old(unsafeDeletes)
      ensures forall id :: old(Tracked(id)) ==> Tracked(id)
      ensures !gatewayFinalizer && last ==>
                CleanedUp() && forall id :: old(Tracked(id)) ==> Pointing(store.records, TunnelTarget(id)) == {}
      ensures OthersKept(old(tunnels), old(store.records)) && OtherFinalizersKept(old(classes))
      ensures |routes| == |old(routes)| && forall k :: 0 <= k < |routes| ==> OnlyEntriesRemoved(old(routes)[k], routes[k], gw)
    {
      last := false;
      var i := 0;
      while i < |attempts| && gatewayFinalizer
        invariant Valid() && unsafeDeletes == old(unsafeDeletes)
        invariant forall id :: old(Tracked(id)) ==> Tracked(id)
        invariant !gatewayFinalizer && last ==>
                    CleanedUp() && forall id :: old(Tracked(id)) ==> Pointing(store.records, TunnelTarget(id)) == {}
        invariant OthersKept(old(tunnels), old(store.records)) && OtherFinalizersKept(old(classes))
        invariant |routes| == |old(routes)| && forall k :: 0 <= k < |routes| ==> OnlyEntriesRemoved(old(routes)[k], routes[k], gw)
        decreases |attempts| - i
      {
        EnvironmentRemoves();
        last := attempts[i].0;
        ghost var before := routes;
        var ok := Finalize(attempts[i].0, attempts[i].1, attempts[i].2);
        forall k | 0 <= k < |routes|
          ensures OnlyEntriesRemoved(old(routes)[k], routes[k], gw)
        {
          RemovedOnce(old(routes)[k], before[k], routes[k], gw);
        }
        i := i + 1;
      }
    }
  }

  /** Changing one Gateway's finalizer on a class neither adds nor removes another Gateway's,
      since namespaces hold no dot. */
  lemma OtherGatewaysFinalizersAreKept(gw: GatewayKey, other: GatewayKey, before: set<string>, after: set<string>)
    requires '.' !in gw.namespace && '.' !in other.namespace && gw != other
    requires after - {FinalizerGatewayClass(gw)} == before - {FinalizerGatewayClass(gw)}
    ensures FinalizerGatewayClass(other) in after <==> FinalizerGatewayClass(other) in before
  {
    var own, f := FinalizerGatewayClass(gw), FinalizerGatewayClass(other);
    if own == f {
      FinalizerIsInjective(gw, other);
    }
    assert f in after <==> f in after - {own};
    assert f in before <==> f in before - {own};
  }

  /** What a finalize pass does to the records, it does as a step of the system of Gateways that
      DNS ownership is about. */
  lemma FinalizeIsStep(before: Records, after: Records, gateways: DnsOwnership.Gateways, gw: GatewayKey, id: string)
    requires forall key :: key in after ==> key in before && after[key] == before[key]
    requires forall key :: key in before && before[key] != TunnelTarget(id) ==> key in after
    ensures var s := DnsOwnership.System(before, gateways);
            var step := DnsOwnership.Finalize(gw, TunnelTarget(id));
            && DnsOwnership.IsStep(s, step, DnsOwnership.System(after, gateways))
            && DnsOwnership.IsStep(s, step, DnsOwnership.System(after, gateways - {gw}))
  {
    forall key: (string, string)
      ensures SameAt(before, after, key) || RemovedAt(before, after, TunnelTarget(id), map[], key)
    {
    }
  }

  lemma RecordsOnlyRemoved(before: Records, after: Records, target: string)
    requires Effect(before, after, target, map[])
    ensures forall key :: key in after ==> key in before && after[key] == before[key]
    ensures forall key :: key in before && before[key] != target ==> key in after
    ensures forall t :: Pointing(before, t) == {} ==> Pointing(after, t) == {}
  {
    forall key: (string, string)
      ensures key in after ==> key in before && after[key] == before[key]
      ensures key in before && before[key] != target ==> key in after
    {
      assert SameAt(before, after, key) || RemovedAt(before, after, target, map[], key);
    }
    forall t
      ensures Pointing(after, t) <= Pointing(before, t)
    {
      forall h | h in Pointing(after, t)
        ensures h in Pointing(before, t)
      {
        var key := PointsFrom(after, t, h);
      }
    }
  }
}
