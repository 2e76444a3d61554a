/** DNS ownership among the Gateways of a controller: findManagedDNSHostnameConflicts,
    filterManagedDNSHostnameConflicts, gatewayTunnelHosts and the DNS part of reconcile and
    finalize, as a transition system of atomic passes over one record store. */
module DnsOwnership {
  import opened Base
  import opened Names
  import opened Dns

  datatype Address = Address(kind: Option<string>, value: string)

  /** An address counts as a programmed tunnel host when it is a non-empty hostname. */
  predicate IsTunnelHost(a: Address) {
    a.value != "" && (a.kind.None? || a.kind.value == "Hostname")
  }

  ghost predicate Programmed(addresses: seq<Address>, host: string) {
    exists i :: 0 <= i < |addresses| && IsTunnelHost(addresses[i]) && addresses[i].value == host
  }

  /** gatewayTunnelHosts: the index keys of a Gateway, each once. */
  method GatewayTunnelHosts(addresses: seq<Address>) returns (hosts: seq<string>)
    ensures forall h :: h in hosts <==> Programmed(addresses, h)
    ensures forall a, b :: 0 <= a < b < |hosts| ==> hosts[a] != hosts[b]
  {
    hosts := [];
    var seen: set<string> := {};
    for i := 0 to |addresses|
      invariant forall h :: h in hosts <==> h in seen
      invariant forall h :: h in seen <==> exists k :: 0 <= k < i && IsTunnelHost(addresses[k]) && addresses[k].value == h
      invariant forall a, b :: 0 <= a < b < |hosts| ==> hosts[a] != hosts[b]
    {
      if IsTunnelHost(addresses[i]) && addresses[i].value !in seen {
        seen := seen + {addresses[i].value};
        hosts := hosts + [addresses[i].value];
      }
    }
  }

  /** The published addresses of every known Gateway. */
  type Gateways = map<GatewayKey, seq<Address>>

  /** Another Gateway has published this tunnel host. */
  ghost predicate ClaimedByOther(gateways: Gateways, self: GatewayKey, host: string) {
    exists other :: other in gateways && other != self && Programmed(gateways[other], host)
  }

  /** A desired hostname whose CNAME points at another known Gateway's tunnel. */
  ghost predicate InConflict(records: Records, gateways: Gateways, self: GatewayKey, own: string, desired: map<string, string>, h: string) {
    && h in desired && (desired[h], h) in records
    && var target := records[(desired[h], h)];
       target != "" && target != own && ClaimedByOther(gateways, self, target)
  }

  /** In full: the record of the hostname in its zone points at a target that another known Gateway
      lists among its hostname addresses. */
  lemma ConflictMeans(records: Records, gateways: Gateways, self: GatewayKey, own: string, desired: map<string, string>, h: string)
    ensures InConflict(records, gateways, self, own, desired, h) <==>
            && h in desired && (desired[h], h) in records && records[(desired[h], h)] !in {"", own}
            && exists other, i :: other in gateways && other != self && 0 <= i < |gateways[other]|
                                  && gateways[other][i].value == records[(desired[h], h)]
                                  && gateways[other][i].kind in {None, Some("Hostname")}
  {
    if InConflict(records, gateways, self, own, desired, h) {
      var other :| other in gateways && other != self && Programmed(gateways[other], records[(desired[h], h)]);
    }
  }

  method IsClaimedByOther(gateways: Gateways, self: GatewayKey, host: string) returns (claimed: bool)
    ensures claimed <==> ClaimedByOther(gateways, self, host)
  {
    var pending := gateways.Keys;
    claimed := false;
    while pending != {}
      invariant pending <= gateways.Keys
      invariant claimed <==> exists other :: other in gateways && other !in pending && other != self && Programmed(gateways[other], host)
      decreases |pending|
    {
      var other :| other in pending;
      var hosts := GatewayTunnelHosts(gateways[other]);
      if host in hosts && other != self {
        claimed := true;
      }
      pending := pending - {other};
    }
  }

  function AllHostnames(routes: seq<seq<string>>): seq<string> {
    if routes == [] then [] else routes[0] + AllHostnames(routes[1..])
  }

  lemma {:induction false} AllHostnamesMembers(routes: seq<seq<string>>, h: string)
    ensures h in AllHostnames(routes) <==> exists i :: 0 <= i < |routes| && h in routes[i]
  {
    if routes != [] {
      AllHostnamesMembers(routes[1..], h);
      if h in AllHostnames(routes[1..]) {
        var i :| 0 <= i < |routes[1..]| && h in routes[1..][i];
        assert h in routes[i + 1];
      }
    }
  }

  /** findManagedDNSHostnameConflicts: None when a record cannot be looked up or the Gateways
      cannot be listed. With a configured zone that is not found, or DNS management off, there
      is nothing to check. */
  method FindConflicts(store: RecordStore, gateways: Gateways, self: GatewayKey, own: string,
                       lookup: Lookup, policy: DNSPolicy, routes: seq<seq<string>>) returns (conflicts: Option<set<string>>)
    ensures conflicts.Some? ==>
              var desired := if policy.enabled then Desired(lookup, policy, AllHostnames(routes)) else None;
              if desired.None? then conflicts.value == {}
              else forall h :: h in conflicts.value <==> InConflict(store.records, gateways, self, own, desired.value, h)
    ensures store.reliable ==> conflicts.Some?
  {
    if !policy.enabled {
      return Some({});
    }
    var computed := ComputeDesired(lookup, policy, AllHostnames(routes));
    if computed.None? {
      return Some({});
    }
    var desired := computed.value;
    var pending := desired.Keys;
    var found: set<string> := {};
    while pending != {}
      invariant pending <= desired.Keys
      invariant forall h :: h in found <==>
                              h !in pending && InConflict(store.records, gateways, self, own, desired, h)
      decreases |pending|
    {
      var h :| h in pending;
      var answer := store.GetDNSCNAMETarget(desired[h], h);
      if answer.None? {
        return None;
      }
      pending := pending - {h};
      if answer.value.Some? && answer.value.value != "" && answer.value.value != own {
        var listingFails: bool := *;
        if listingFails && !store.reliable {
          return None;
        }
        var claimed := IsClaimedByOther(gateways, self, answer.value.value);
        if claimed {
          found := found + {h};
        }
      }
    }
    return Some(found);
  }

  predicate Clashes(route: seq<string>, conflicts: set<string>) {
    exists h :: h in route && h in conflicts
  }

  /** The routes without a conflicting hostname, in order. */
  function Kept(routes: seq<seq<string>>, conflicts: set<string>): seq<seq<string>> {
    if routes == [] then []
    else (if Clashes(routes[0], conflicts) then [] else [routes[0]]) + Kept(routes[1..], conflicts)
  }

  /** Exactly the routes none of whose hostnames conflict are kept. */
  lemma {:induction false} KeptExactly(routes: seq<seq<string>>, conflicts: set<string>, route: seq<string>)
    ensures route in Kept(routes, conflicts) <==> route in routes && forall h :: h in route ==> h !in conflicts
  {
    if routes != [] {
      KeptExactly(routes[1..], conflicts, route);
      assert routes == [routes[0]] + routes[1..];
    }
  }

  lemma {:induction false} KeptIsClear(routes: seq<seq<string>>, conflicts: set<string>)
    ensures forall h :: h in AllHostnames(Kept(routes, conflicts)) ==> h in AllHostnames(routes) && h !in conflicts
  {
    if routes != [] {
      KeptIsClear(routes[1..], conflicts);
      if Clashes(routes[0], conflicts) {
        assert Kept(routes, conflicts) == Kept(routes[1..], conflicts);
      } else {
        assert Kept(routes, conflicts)[0] == routes[0] && Kept(routes, conflicts)[1..] == Kept(routes[1..], conflicts);
        assert forall h :: h in routes[0] ==> h !in conflicts;
      }
    }
  }

  lemma {:induction false} NothingClashes(routes: seq<seq<string>>)
    ensures Kept(routes, {}) == routes
  {
    if routes != [] { NothingClashes(routes[1..]); }
  }

  /** filterManagedDNSHostnameConflicts, once the conflicts are known. */
  method FilterConflicting(routes: seq<seq<string>>, conflicts: set<string>) returns (filtered: seq<seq<string>>)
    ensures filtered == Kept(routes, conflicts)
  {
    if |conflicts| == 0 {
      NothingClashes(routes);
      return routes;
    }
    filtered := [];
    for i := 0 to |routes|
      invariant filtered + Kept(routes[i..], conflicts) == Kept(routes, conflicts)
    {
      assert routes[i..][1..] == routes[i + 1..];
      var issues := 0;
      for k := 0 to |routes[i]|
        invariant issues > 0 <==> exists h :: h in routes[i][..k] && h in conflicts
      {
        assert routes[i][..k + 1] == routes[i][..k] + [routes[i][k]];
        if routes[i][k] in conflicts {
          issues := issues + 1;
        }
      }
      assert routes[i][..|routes[i]|] == routes[i];
      if issues == 0 {
        filtered := filtered + [routes[i]];
      }
    }
  }

  // ---------- The transition system ----------

  datatype System = System(records: Records, gateways: Gateways)

  /** What one Gateway's pass reads besides the system. */
  datatype View = View(lookup: Lookup, policy: DNSPolicy, routes: seq<seq<string>>)

  /** The hostnames a pass will manage, once its conflicts are known. */
  function Managed(view: View, conflicts: set<string>): Option<map<string, string>> {
    if view.policy.enabled then Desired(view.lookup, view.policy, AllHostnames(Kept(view.routes, conflicts)))
    else Some(map[])
  }

  ghost predicate Detected(s: System, self: GatewayKey, own: string, view: View, conflicts: set<string>) {
    var desired := if view.policy.enabled then Desired(view.lookup, view.policy, AllHostnames(view.routes)) else None;
    if desired.None? then conflicts == {}
    else forall h :: h in conflicts <==> InConflict(s.records, s.gateways, self, own, desired.value, h)
  }

  /** A reconcile pass of one Gateway, complete or stopped anywhere: conflict detection, DNS
      reconciliation of the routes kept, and publication of the tunnel host. */
  ghost predicate Reconciles(s: System, t: System, self: GatewayKey, own: string, view: View) {
    && (exists conflicts: set<string> ::
          && Detected(s, self, own, view, conflicts)
          && (var managed := Managed(view, conflicts);
              if managed.None? then t.records == s.records
              else Effect(s.records, t.records, own, managed.value)))
    && (t.gateways == s.gateways || t.gateways == s.gateways[self := [Address(Some("Hostname"), own)]])
  }

  /** A finalize pass of one Gateway: its records go, and in the end the Gateway itself. */
  ghost predicate Finalizes(s: System, t: System, self: GatewayKey, own: string) {
    && Effect(s.records, t.records, own, map[])
    && (t.gateways == s.gateways || t.gateways == s.gateways - {self})
  }

  /** A pass with the target of the Gateway's tunnel at that time: a Gateway that is deleted and
      created anew gets another tunnel. A pass that ends before it has a tunnel, and the
      finalization of a Gateway that has none, leave the records alone. */
  datatype Step =
    | Reconcile(self: GatewayKey, own: string, view: View)
    | Finalize(self: GatewayKey, own: string)
    | WithoutTunnel(self: GatewayKey)

  ghost predicate IsStep(s: System, step: Step, t: System) {
    match step
    case Reconcile(self, own, view) => Reconciles(s, t, self, own, view)
    case Finalize(self, own) => Finalizes(s, t, self, own)
    case WithoutTunnel(self) => t.records == s.records && (t.gateways == s.gateways || t.gateways == s.gateways - {self})
  }

  /** A pass over the store is a step of the system. */
  method ReconcileGateway(store: RecordStore, gateways: Gateways, self: GatewayKey, own: string, view: View)
    returns (published: Gateways)
    requires InZones(store.records, store.zones)
    modifies store`records
    ensures IsStep(System(old(store.records), gateways), Reconcile(self, own, view), System(store.records, published))
    ensures store.reliable && own != "" ==> Published(System(store.records, published), self, own)
  {
    published := gateways;
    ghost var s := System(store.records, gateways);
    var conflicts := FindConflicts(store, gateways, self, own, view.lookup, view.policy, view.routes);
    if conflicts.None? {
      NothingDone(s, self, own, view);
      return;
    }
    assert Detected(s, self, own, view, conflicts.value);
    var kept := FilterConflicting(view.routes, conflicts.value);
    var ok := store.ReconcileDNS(view.lookup, view.policy, own, AllHostnames(kept));
    var statusPatched: bool := *;
    if statusPatched || store.reliable {
      published := gateways[self := [Address(Some("Hostname"), own)]];
      assert own != "" ==> IsTunnelHost(published[self][0]);
    }
  }

  lemma NothingDone(s: System, self: GatewayKey, own: string, view: View)
    ensures Reconciles(s, s, self, own, view)
  {
    var desired := if view.policy.enabled then Desired(view.lookup, view.policy, AllHostnames(view.routes)) else None;
    var conflicts := if desired.None? then {}
                     else set h | h in desired.value && InConflict(s.records, s.gateways, self, own, desired.value, h);
    assert Detected(s, self, own, view, conflicts);
    var managed := Managed(view, conflicts);
    if managed.Some? {
      assert forall key: (string, string) :: SameAt(s.records, s.records, key);
    }
  }

  // ---------- Ownership ----------

  /** The records that point at a target. */
  function RecordsOf(s: System, target: string): set<(string, string)> {
    set key | key in s.records && s.records[key] == target
  }

  ghost predicate Published(s: System, a: GatewayKey, host: string) {
    a in s.gateways && Programmed(s.gateways[a], host)
  }

  /** A managed hostname is never one whose record points at another published Gateway. */
  lemma ManagedIsNotTaken(s: System, self: GatewayKey, own: string, view: View, conflicts: set<string>,
                          a: GatewayKey, host: string, h: string)
    requires Detected(s, self, own, view, conflicts)
    requires a != self && host != own && Published(s, a, host)
    requires Managed(view, conflicts).Some? && h in Managed(view, conflicts).value
    ensures var key := (Managed(view, conflicts).value[h], h);
            !(key in s.records && s.records[key] == host)
  {
    KeptIsClear(view.routes, conflicts);
    var managed := Managed(view, conflicts).value;
    var desired := Desired(view.lookup, view.policy, AllHostnames(view.routes)).value;
    assert h in desired && desired[h] == managed[h];
    assert !InConflict(s.records, s.gateways, self, own, desired, h);
  }

  /** The step is not one of the Gateway's own passes, nor one with its target. */
  predicate Foreign(step: Step, a: GatewayKey, host: string) {
    step.self != a && (step.WithoutTunnel? || step.own != host)
  }

  /** A pass of one Gateway leaves alone the records of every other published Gateway. */
  lemma StepKeepsOthersRecords(s: System, step: Step, t: System, a: GatewayKey, host: string)
    requires IsStep(s, step, t) && Published(s, a, host) && Foreign(step, a, host)
    ensures RecordsOf(t, host) == RecordsOf(s, host) && Published(t, a, host)
  {
    match step {
      case WithoutTunnel(_) =>
      case Finalize(_, own) =>
        EffectKeepsOthers(s, t, own, map[], host);
      case Reconcile(self, own, view) =>
        var conflicts :| Detected(s, self, own, view, conflicts)
                         && (var managed := Managed(view, conflicts);
                             if managed.None? then t.records == s.records
                             else Effect(s.records, t.records, own, managed.value));
        var managed := Managed(view, conflicts);
        if managed.Some? {
          forall h | h in managed.value
            ensures !((managed.value[h], h) in s.records && s.records[(managed.value[h], h)] == host)
          {
            ManagedIsNotTaken(s, self, own, view, conflicts, a, host, h);
          }
          EffectKeepsOthers(s, t, own, managed.value, host);
        }
    }
  }

  lemma EffectKeepsOthers(s: System, t: System, own: string, desired: map<string, string>, other: string)
    requires Effect(s.records, t.records, own, desired) && own != other
    requires forall h :: h in desired ==> !((desired[h], h) in s.records && s.records[(desired[h], h)] == other)
    ensures RecordsOf(t, other) == RecordsOf(s, other)
  {
    forall key: (string, string)
      ensures key in RecordsOf(t, other) <==> key in RecordsOf(s, other)
    {
      assert SameAt(s.records, t.records, key) || CreatedAt(s.records, t.records, own, desired, key)
             || RemovedAt(s.records, t.records, own, desired, key);
      if CreatedAt(s.records, t.records, own, desired, key) {
        assert key == (desired[key.1], key.1);
      }
    }
  }

  /** A run of passes of any Gateways, in any order. */
  ghost predicate IsRun(states: seq<System>, steps: seq<Step>) {
    && |states| == |steps| + 1
    && forall i :: 0 <= i < |steps| ==> IsStep(states[i], steps[i], states[i + 1])
  }

  /** DNS ownership over every run: once a Gateway has published its tunnel host, the records
      that point at its tunnel stay exactly the same until its own next pass. Other Gateways may
      come, go and change their tunnels. */
  lemma {:induction false} OwnershipIsKept(states: seq<System>, steps: seq<Step>, a: GatewayKey, host: string, i: nat, j: nat)
    requires IsRun(states, steps) && i <= j < |states| && Published(states[i], a, host)
    requires forall k :: i <= k < j ==> Foreign(steps[k], a, host)
    ensures RecordsOf(states[j], host) == RecordsOf(states[i], host) && Published(states[j], a, host)
    decreases j
  {
    if i < j {
      OwnershipIsKept(states, steps, a, host, i, j - 1);
      assert IsStep(states[j - 1], steps[j - 1], states[j]);
      StepKeepsOthersRecords(states[j - 1], steps[j - 1], states[j], a, host);
    }
  }

  lemma LoneHostname(h: string)
    ensures AllHostnames([[h]]) == [h] && Kept([[h]], {}) == [[h]]
  {
    assert [[h]][1..] == [];
    assert AllHostnames([]) == [] && Kept([], {}) == [];
    assert !Clashes([h], {});
  }

  /** Publication is needed: a pass of another Gateway may take the record of a Gateway that
      has not published its tunnel host. */
  lemma UnpublishedIsNotProtected(a: GatewayKey, b: GatewayKey, host: string, own: string, lookup: Lookup)
    requires host != own && lookup("h") == Some("z")
    ensures var key := ("z", "h");
            var s := System(map[key := host], map[a := [], b := []]);
            var t := s.(records := map[key := own]);
            Reconciles(s, t, b, own, View(lookup, DNSPolicy(true, []), [["h"]]))
  {
    var key := ("z", "h");
    var s := System(map[key := host], map[a := [], b := []]);
    var t := s.(records := map[key := own]);
    var view := View(lookup, DNSPolicy(true, []), [["h"]]);
    LoneHostname("h");
    var desired := Desired(lookup, view.policy, ["h"]);
    assert desired.value == map["h" := "z"];
    assert Detected(s, b, own, view, {});
    assert "h" !in Pointing(s.records, own);
    forall k: (string, string)
      ensures SameAt(s.records, t.records, k) || CreatedAt(s.records, t.records, own, desired.value, k)
    {
    }
    assert Managed(view, {}) == desired;
  }
}
