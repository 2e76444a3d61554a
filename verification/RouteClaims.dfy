/** The route claim table of one Gateway: findConflictingRoutes, filterConflictingRoutes and
    parseRouteOwner of internal/controller/gateway_routes.go, iterated over passes.

    The table written by one pass (BuiltConfig) is what the next pass reads back. */
module RouteClaims {
  import opened Base
  import opened ProxyConfig
  import opened RouteObjects

  datatype RouteOwner = RouteOwner(key: RouteKey, kind: string)

  // ---------- Owner strings ----------

  /** parseRouteOwner: the text before and after the first slash. */
  function ParseRouteOwner(kind: string, owner: string): Option<RouteOwner> {
    var parts := Cut(owner, '/');
    if owner == "" || !parts.found then None else Some(RouteOwner(RouteKey(parts.before, parts.after), kind))
  }

  /** An owner string parses back to the namespace and name it was built from exactly when
      the namespace holds no slash. */
  lemma OwnerParsesBack(kind: string, key: RouteKey)
    ensures ParseRouteOwner(kind, OwnerString(key)) == Some(RouteOwner(key, kind)) <==> '/' !in key.namespace
  {
    CutIsUnique(OwnerString(key), '/', key.namespace, key.name);
  }

  lemma ParsedOwnerReprints(kind: string, owner: string)
    ensures ParseRouteOwner(kind, owner).Some? <==> '/' in owner
    ensures ParseRouteOwner(kind, owner).Some? ==>
              var key := ParseRouteOwner(kind, owner).value.key; OwnerString(key) == owner && '/' !in key.namespace
  {
    var parts := Cut(owner, '/');
    CutIsUnique(owner, '/', parts.before, parts.after);
  }

  // ---------- One pass ----------

  /** The claims an existing table starts with; of several entries for a key the last wins. */
  function ExistingClaims(entries: seq<Route>, n: nat): map<HostnamePathKey, RouteOwner>
    requires n <= |entries|
  {
    if n == 0 then map[] else
    var claims := ExistingClaims(entries, n - 1);
    var owner := ParseRouteOwner(entries[n - 1].ownerKind, entries[n - 1].owner);
    if owner.None? then claims else claims[EntryKey(entries[n - 1]) := owner.value]
  }

  function InitialClaims(existing: Option<seq<Route>>): map<HostnamePathKey, RouteOwner> {
    if existing.None? then map[] else ExistingClaims(existing.value, |existing.value|)
  }

  datatype Issue = Issue(key: HostnamePathKey, claimedBy: RouteOwner)

  datatype Scan = Scan(claimed: map<HostnamePathKey, RouteOwner>, conflicts: map<RouteKey, seq<Issue>>)

  /** One key of one route: a conflict when another route holds it, otherwise a claim. */
  function ScanKey(s: Scan, route: RouteObject, key: HostnamePathKey): Scan {
    if key in s.claimed then
      if s.claimed[key].key != route.key then
        var issues := if route.key in s.conflicts then s.conflicts[route.key] else [];
        s.(conflicts := s.conflicts[route.key := issues + [Issue(key, s.claimed[key])]])
      else s
    else s.(claimed := s.claimed[key := RouteOwner(route.key, KindName(route.kind))])
  }

  function ScanKeys(s: Scan, route: RouteObject, keys: seq<HostnamePathKey>, n: nat): Scan
    requires n <= |keys|
  {
    if n == 0 then s else ScanKey(ScanKeys(s, route, keys, n - 1), route, keys[n - 1])
  }

  function ScanRoutes(s: Scan, routes: seq<RouteObject>, n: nat): Scan
    requires n <= |routes|
  {
    if n == 0 then s else
    ScanKeys(ScanRoutes(s, routes, n - 1), routes[n - 1], KeysOf(routes[n - 1]), |KeysOf(routes[n - 1])|)
  }

  function Scanned(existing: Option<seq<Route>>, routes: seq<RouteObject>): Scan {
    ScanRoutes(Scan(InitialClaims(existing), map[]), routes, |routes|)
  }

  /** findConflictingRoutes */
  method FindConflictingRoutes(existing: Option<seq<Route>>, routes: seq<RouteObject>)
    returns (conflicts: map<RouteKey, seq<Issue>>)
    ensures conflicts == Scanned(existing, routes).conflicts
  {
    var claimed: map<HostnamePathKey, RouteOwner> := map[];
    if existing.Some? {
      for i := 0 to |existing.value|
        invariant claimed == ExistingClaims(existing.value, i)
      {
        var r := existing.value[i];
        var owner := ParseRouteOwner(r.ownerKind, r.owner);
        if owner.Some? {
          claimed := claimed[EntryKey(r) := owner.value];
        }
      }
    }
    conflicts := map[];
    ghost var start := Scan(claimed, map[]);
    for i := 0 to |routes|
      invariant Scan(claimed, conflicts) == ScanRoutes(start, routes, i)
    {
      var route := routes[i];
      var keys := HostnamePathKeys(route);
      ghost var before := Scan(claimed, conflicts);
      for k := 0 to |keys|
        invariant Scan(claimed, conflicts) == ScanKeys(before, route, keys, k)
      {
        var hpk := keys[k];
        if hpk in claimed {
          var first := claimed[hpk];
          if first.key != route.key {
            var issues := if route.key in conflicts then conflicts[route.key] else [];
            conflicts := conflicts[route.key := issues + [Issue(hpk, first)]];
          }
        } else {
          claimed := claimed[hpk := RouteOwner(route.key, KindName(route.kind))];
        }
      }
    }
  }

  function Unlisted(conflicts: map<RouteKey, seq<Issue>>, routes: seq<RouteObject>, n: nat): seq<RouteObject>
    requires n <= |routes|
  {
    if n == 0 then [] else
    Unlisted(conflicts, routes, n - 1) + if routes[n - 1].key in conflicts then [] else [routes[n - 1]]
  }

  /** The routes a pass accepts. */
  function Accepted(existing: Option<seq<Route>>, routes: seq<RouteObject>): seq<RouteObject> {
    Unlisted(Scanned(existing, routes).conflicts, routes, |routes|)
  }

  /** filterConflictingRoutes */
  method FilterConflictingRoutes(existing: Option<seq<Route>>, routes: seq<RouteObject>) returns (filtered: seq<RouteObject>)
    ensures filtered == Accepted(existing, routes)
  {
    var conflicts := FindConflictingRoutes(existing, routes);
    if |conflicts| == 0 {
      NothingUnlisted(conflicts, routes, |routes|);
      return routes;
    }
    filtered := [];
    for i := 0 to |routes|
      invariant filtered == Unlisted(conflicts, routes, i)
    {
      if routes[i].key !in conflicts {
        filtered := filtered + [routes[i]];
      }
    }
  }

  lemma {:induction false} NothingUnlisted(conflicts: map<RouteKey, seq<Issue>>, routes: seq<RouteObject>, n: nat)
    requires |conflicts| == 0 && n <= |routes|
    ensures Unlisted(conflicts, routes, n) == routes[..n]
  {
    assert conflicts.Keys == {};
    if n > 0 { NothingUnlisted(conflicts, routes, n - 1); }
  }

  // ---------- Who claims a key ----------

  /** The first route, in order, that has the key. */
  function FirstWith(routes: seq<RouteObject>, n: nat, key: HostnamePathKey): Option<RouteKey>
    requires n <= |routes|
  {
    if n == 0 then None else
    var f := FirstWith(routes, n - 1, key);
    if f.Some? then f else if key in KeysOf(routes[n - 1]) then Some(routes[n - 1].key) else None
  }

  /** A key belongs to the owner in the existing table, or else to the first route that has it. */
  function Claimant(initial: map<HostnamePathKey, RouteOwner>, routes: seq<RouteObject>, n: nat, key: HostnamePathKey): Option<RouteKey>
    requires n <= |routes|
  {
    if key in initial then Some(initial[key].key) else FirstWith(routes, n, key)
  }

  /** Every key of every route of this namespace and name is claimed by it. */
  ghost predicate KeepsAll(initial: map<HostnamePathKey, RouteOwner>, routes: seq<RouteObject>, n: nat, owner: RouteKey)
    requires n <= |routes|
  {
    forall i, key :: 0 <= i < n && routes[i].key == owner && key in KeysOf(routes[i]) ==>
                       Claimant(initial, routes, n, key) == Some(owner)
  }

  lemma {:induction false} ScanKeysClaims(s: Scan, route: RouteObject, keys: seq<HostnamePathKey>, n: nat)
    requires n <= |keys|
    ensures var t := ScanKeys(s, route, keys, n);
            && (forall key :: key in t.claimed <==> key in s.claimed || key in keys[..n])
            && (forall key :: key in s.claimed ==> t.claimed[key] == s.claimed[key])
            && (forall key :: key in t.claimed && key !in s.claimed ==> t.claimed[key].key == route.key)
  {
    if n > 0 {
      ScanKeysClaims(s, route, keys, n - 1);
      var before, after := ScanKeys(s, route, keys, n - 1), ScanKeys(s, route, keys, n);
      assert keys[..n] == keys[..n - 1] + [keys[n - 1]];
      assert forall key :: key in after.claimed <==> key in before.claimed || key == keys[n - 1];
      assert forall key :: key in before.claimed ==> after.claimed[key] == before.claimed[key];
    }
  }

  lemma {:induction false} ScanKeysConflicts(s: Scan, route: RouteObject, keys: seq<HostnamePathKey>, n: nat, owner: RouteKey)
    requires n <= |keys|
    ensures owner in ScanKeys(s, route, keys, n).conflicts <==>
            || owner in s.conflicts
            || (owner == route.key && exists k :: 0 <= k < n && keys[k] in s.claimed && s.claimed[keys[k]].key != owner)
  {
    if n > 0 {
      ScanKeysConflicts(s, route, keys, n - 1, owner);
      ScanKeysClaims(s, route, keys, n - 1);
      var before, key := ScanKeys(s, route, keys, n - 1), keys[n - 1];
      assert key in before.claimed && before.claimed[key].key != route.key <==> key in s.claimed && s.claimed[key].key != route.key;
    }
  }

  lemma {:induction false} ScanRoutesClaims(s: Scan, routes: seq<RouteObject>, n: nat, key: HostnamePathKey)
    requires n <= |routes|
    ensures var claimed := ScanRoutes(s, routes, n).claimed;
            Claimant(s.claimed, routes, n, key) == if key in claimed then Some(claimed[key].key) else None
  {
    if n > 0 {
      ScanRoutesClaims(s, routes, n - 1, key);
      var keys := KeysOf(routes[n - 1]);
      ScanKeysClaims(ScanRoutes(s, routes, n - 1), routes[n - 1], keys, |keys|);
      assert keys[..|keys|] == keys;
    }
  }

  /** Scanning a route lists it exactly when somebody else holds one of its keys. */
  lemma {:induction false} RouteConflict(s: Scan, route: RouteObject, owner: RouteKey)
    ensures owner in ScanKeys(s, route, KeysOf(route), |KeysOf(route)|).conflicts <==>
            || owner in s.conflicts
            || (owner == route.key && exists key :: key in KeysOf(route) && key in s.claimed && s.claimed[key].key != owner)
  {
    var keys := KeysOf(route);
    ScanKeysConflicts(s, route, keys, |keys|, owner);
    if owner == route.key && exists key :: key in keys && key in s.claimed && s.claimed[key].key != owner {
      var key :| key in keys && key in s.claimed && s.claimed[key].key != owner;
      var k :| 0 <= k < |keys| && keys[k] == key;
    }
  }

  lemma {:induction false} TakenKeys(s: Scan, routes: seq<RouteObject>, m: nat)
    requires m < |routes|
    ensures var claimed, route := ScanRoutes(s, routes, m).claimed, routes[m];
            Untaken(s.claimed, routes, m, route) <==>
            !exists key :: key in KeysOf(route) && key in claimed && claimed[key].key != route.key
  {
    var claimed, route := ScanRoutes(s, routes, m).claimed, routes[m];
    forall key: HostnamePathKey
      ensures Claimant(s.claimed, routes, m, key) == if key in claimed then Some(claimed[key].key) else None
    {
      ScanRoutesClaims(s, routes, m, key);
    }
    if Untaken(s.claimed, routes, m, route) {
      forall key | key in KeysOf(route) && key in claimed
        ensures claimed[key].key == route.key
      {
        assert Claimant(s.claimed, routes, m, key).Some?;
      }
    }
  }

  lemma {:induction false} ScanRoutesConflicts(s: Scan, routes: seq<RouteObject>, n: nat, owner: RouteKey)
    requires n <= |routes| && s.conflicts == map[]
    ensures owner !in ScanRoutes(s, routes, n).conflicts <==> KeepsAll(s.claimed, routes, n, owner)
  {
    if n > 0 {
      var m, route := n - 1, routes[n - 1];
      ScanRoutesConflicts(s, routes, m, owner);
      assert owner in ScanRoutes(s, routes, n).conflicts <==>
             owner in ScanRoutes(s, routes, m).conflicts || (owner == route.key && !Untaken(s.claimed, routes, m, route))
      by {
        RouteConflict(ScanRoutes(s, routes, m), route, owner);
        TakenKeys(s, routes, m);
      }
      KeepsAllStep(s.claimed, routes, m, owner);
    }
  }

  /** Nobody but the owner holds a key of the route. */
  ghost predicate Untaken(initial: map<HostnamePathKey, RouteOwner>, routes: seq<RouteObject>, m: nat, route: RouteObject)
    requires m <= |routes|
  {
    forall key :: key in KeysOf(route) ==>
                    Claimant(initial, routes, m, key).None? || Claimant(initial, routes, m, key) == Some(route.key)
  }

  /** Adding a route keeps all keys of an owner claimed exactly when the new route's keys are
      not already held by somebody else. */
  lemma KeepsAllStep(initial: map<HostnamePathKey, RouteOwner>, routes: seq<RouteObject>, m: nat, owner: RouteKey)
    requires m < |routes|
    ensures KeepsAll(initial, routes, m + 1, owner) <==>
            KeepsAll(initial, routes, m, owner) && (routes[m].key == owner ==> Untaken(initial, routes, m, routes[m]))
  {
    forall i, key | 0 <= i < m && key in KeysOf(routes[i])
      ensures Claimant(initial, routes, m + 1, key) == Claimant(initial, routes, m, key)
    {
      HasFirst(routes, m, i, key);
    }
    forall key | key in KeysOf(routes[m])
      ensures Claimant(initial, routes, m + 1, key)
              == var c := Claimant(initial, routes, m, key); if c.None? then Some(routes[m].key) else c
    {
    }
    if KeepsAll(initial, routes, m + 1, owner) {
      forall i, key | 0 <= i < m && routes[i].key == owner && key in KeysOf(routes[i])
        ensures Claimant(initial, routes, m, key) == Some(owner)
      {
        assert Claimant(initial, routes, m + 1, key) == Some(owner);
      }
      if routes[m].key == owner {
        forall key | key in KeysOf(routes[m])
          ensures Claimant(initial, routes, m, key).None? || Claimant(initial, routes, m, key) == Some(owner)
        {
          assert Claimant(initial, routes, m + 1, key) == Some(owner);
        }
      }
    }
    if KeepsAll(initial, routes, m, owner) && (routes[m].key == owner ==> Untaken(initial, routes, m, routes[m])) {
      forall i, key | 0 <= i < m + 1 && routes[i].key == owner && key in KeysOf(routes[i])
        ensures Claimant(initial, routes, m + 1, key) == Some(owner)
      {
        if i < m {
          assert Claimant(initial, routes, m, key) == Some(owner);
        }
      }
    }
  }

  lemma {:induction false} HasFirst(routes: seq<RouteObject>, n: nat, i: nat, key: HostnamePathKey)
    requires i < n <= |routes| && key in KeysOf(routes[i])
    ensures FirstWith(routes, n, key).Some?
  {
    if i < n - 1 { HasFirst(routes, n - 1, i, key); }
  }

  /** A namespace and name is free of conflicts exactly when it claims all its keys. */
  ghost predicate Wins(existing: Option<seq<Route>>, routes: seq<RouteObject>, owner: RouteKey) {
    KeepsAll(InitialClaims(existing), routes, |routes|, owner)
  }

  lemma {:induction false} UnlistedMembers(conflicts: map<RouteKey, seq<Issue>>, routes: seq<RouteObject>, n: nat)
    requires n <= |routes|
    ensures forall r :: r in Unlisted(conflicts, routes, n) <==> r in routes[..n] && r.key !in conflicts
  {
    if n > 0 {
      UnlistedMembers(conflicts, routes, n - 1);
      assert routes[..n] == routes[..n - 1] + [routes[n - 1]];
    }
  }

  /** A pass accepts exactly the routes that claim all their keys, together with every other
      route of the same namespace and name. */
  lemma AcceptedExactlyWhenWinning(existing: Option<seq<Route>>, routes: seq<RouteObject>)
    ensures forall owner :: owner !in Scanned(existing, routes).conflicts <==> Wins(existing, routes, owner)
    ensures forall r :: r in Accepted(existing, routes) <==> r in routes && Wins(existing, routes, r.key)
  {
    forall owner
      ensures owner !in Scanned(existing, routes).conflicts <==> Wins(existing, routes, owner)
    {
      ScanRoutesConflicts(Scan(InitialClaims(existing), map[]), routes, |routes|, owner);
    }
    UnlistedMembers(Scanned(existing, routes).conflicts, routes, |routes|);
    assert routes[..|routes|] == routes;
  }

  // ---------- What a conflict says ----------

  function IssuesOf(s: Scan, owner: RouteKey): seq<Issue> {
    if owner in s.conflicts then s.conflicts[owner] else []
  }

  /** The issue is about a key that somebody else claims, and names the claimant. */
  predicate NamesClaimant(claimed: map<HostnamePathKey, RouteOwner>, owner: RouteKey, issue: Issue) {
    issue.key in claimed && claimed[issue.key] == issue.claimedBy && issue.claimedBy.key != owner
  }

  lemma {:induction false} ScanKeysIssues(s: Scan, route: RouteObject, keys: seq<HostnamePathKey>, n: nat, owner: RouteKey, issue: Issue)
    requires n <= |keys|
    ensures issue in IssuesOf(ScanKeys(s, route, keys, n), owner) <==>
            || issue in IssuesOf(s, owner)
            || (owner == route.key && issue.key in keys[..n] && NamesClaimant(s.claimed, owner, issue))
  {
    if n > 0 {
      ScanKeysIssues(s, route, keys, n - 1, owner, issue);
      ScanKeysClaims(s, route, keys, n - 1);
      assert keys[..n] == keys[..n - 1] + [keys[n - 1]];
    }
  }

  /** Routes scanned later leave the claims of the earlier ones alone. */
  lemma LaterRouteKeepsClaims(s: Scan, routes: seq<RouteObject>, m: nat, key: HostnamePathKey)
    requires m < |routes|
    ensures var before, after := ScanRoutes(s, routes, m).claimed, ScanRoutes(s, routes, m + 1).claimed;
            && (key in before ==> key in after && after[key] == before[key])
            && (key in KeysOf(routes[m]) ==> key in after && (key !in before ==> after[key].key == routes[m].key))
  {
    var keys := KeysOf(routes[m]);
    ScanKeysClaims(ScanRoutes(s, routes, m), routes[m], keys, |keys|);
    assert keys[..|keys|] == keys;
  }

  lemma {:induction false} ScannedKeyIsClaimed(s: Scan, routes: seq<RouteObject>, n: nat, i: nat, key: HostnamePathKey)
    requires i < n <= |routes| && key in KeysOf(routes[i])
    ensures key in ScanRoutes(s, routes, n).claimed
  {
    LaterRouteKeepsClaims(s, routes, n - 1, key);
    if i < n - 1 { ScannedKeyIsClaimed(s, routes, n - 1, i, key); }
  }

  /** One of the first n routes is the owner's and has the key. */
  ghost predicate Lists(routes: seq<RouteObject>, n: nat, owner: RouteKey, key: HostnamePathKey)
    requires n <= |routes|
  {
    exists i :: 0 <= i < n && routes[i].key == owner && key in KeysOf(routes[i])
  }

  lemma ListsStep(routes: seq<RouteObject>, m: nat, owner: RouteKey, key: HostnamePathKey)
    requires m < |routes|
    ensures Lists(routes, m + 1, owner, key) <==> Lists(routes, m, owner, key) || (routes[m].key == owner && key in KeysOf(routes[m]))
  {
  }

  lemma {:induction false} ListedKeyIsClaimed(s: Scan, routes: seq<RouteObject>, n: nat, owner: RouteKey, key: HostnamePathKey)
    requires n <= |routes| && Lists(routes, n, owner, key)
    ensures key in ScanRoutes(s, routes, n).claimed
  {
    var i :| 0 <= i < n && routes[i].key == owner && key in KeysOf(routes[i]);
    ScannedKeyIsClaimed(s, routes, n, i, key);
  }

  /** The list of a conflicting owner names, for each key of its routes that somebody else claims,
      that key and its claimant, and nothing else. */
  lemma {:induction false} IssuesNameClaimants(s: Scan, routes: seq<RouteObject>, n: nat, owner: RouteKey, issue: Issue)
    requires n <= |routes| && s.conflicts == map[]
    ensures issue in IssuesOf(ScanRoutes(s, routes, n), owner) <==>
            Lists(routes, n, owner, issue.key) && NamesClaimant(ScanRoutes(s, routes, n).claimed, owner, issue)
  {
    if n > 0 {
      var m, keys := n - 1, KeysOf(routes[n - 1]);
      IssuesNameClaimants(s, routes, m, owner, issue);
      ScanKeysIssues(ScanRoutes(s, routes, m), routes[m], keys, |keys|, owner, issue);
      assert keys[..|keys|] == keys;
      LaterRouteKeepsClaims(s, routes, m, issue.key);
      ListsStep(routes, m, owner, issue.key);
      if Lists(routes, m, owner, issue.key) {
        ListedKeyIsClaimed(s, routes, m, owner, issue.key);
      }
    }
  }

  /** So it is for the whole scan of a pass, where the claimant is the owner in the table or else the
      first route with the key. */
  lemma ConflictsNameClaimants(existing: Option<seq<Route>>, routes: seq<RouteObject>, owner: RouteKey, issue: Issue)
    requires issue in IssuesOf(Scanned(existing, routes), owner)
    ensures Lists(routes, |routes|, owner, issue.key)
    ensures Claimant(InitialClaims(existing), routes, |routes|, issue.key) == Some(issue.claimedBy.key) && issue.claimedBy.key != owner
  {
    var start := Scan(InitialClaims(existing), map[]);
    IssuesNameClaimants(start, routes, |routes|, owner, issue);
    ScanRoutesClaims(start, routes, |routes|, issue.key);
  }

  // ---------- Safety over runs ----------

  /** Each key of a table has one owner. */
  ghost predicate SingleOwner(entries: seq<Route>) {
    forall a, b :: 0 <= a < |entries| && 0 <= b < |entries| && EntryKey(entries[a]) == EntryKey(entries[b]) ==>
                     entries[a].owner == entries[b].owner
  }

  /** One pass: it fails and leaves the table, or writes the table of some of the accepted
      routes (DNS conflicts with other Gateways may have removed more of them). */
  ghost predicate Pass(before: Option<seq<Route>>, routes: seq<RouteObject>, kept: seq<RouteObject>, after: Option<seq<Route>>) {
    || after == before
    || (after == Some(BuiltConfig(kept)) && forall r :: r in kept ==> r in Accepted(before, routes))
  }

  /** An entry written by a pass is owned by the claimant of its key. */
  lemma WrittenByClaimant(before: Option<seq<Route>>, routes: seq<RouteObject>, kept: seq<RouteObject>, a: nat)
    requires forall r :: r in kept ==> r in Accepted(before, routes)
    requires a < |BuiltConfig(kept)|
    ensures var e := BuiltConfig(kept)[a];
            exists owner :: Claimant(InitialClaims(before), routes, |routes|, EntryKey(e)) == Some(owner)
                            && e.owner == OwnerString(owner) && exists r :: r in routes && r.key == owner
  {
    var i := EntryHasRoute(kept, |kept|, a);
    AcceptedExactlyWhenWinning(before, routes);
    assert kept[i] in routes && Wins(before, routes, kept[i].key);
    var j :| 0 <= j < |routes| && routes[j] == kept[i];
  }

  /** After a pass that writes, every key has a single owner. */
  lemma PassGivesSingleOwner(before: Option<seq<Route>>, routes: seq<RouteObject>, kept: seq<RouteObject>)
    requires forall r :: r in kept ==> r in Accepted(before, routes)
    ensures SingleOwner(BuiltConfig(kept))
  {
    var entries := BuiltConfig(kept);
    forall a, b | 0 <= a < |entries| && 0 <= b < |entries| && EntryKey(entries[a]) == EntryKey(entries[b])
      ensures entries[a].owner == entries[b].owner
    {
      WrittenByClaimant(before, routes, kept, a);
      WrittenByClaimant(before, routes, kept, b);
    }
  }

  /** Every entry names its owner. */
  ghost predicate Owned(entries: seq<Route>) {
    forall a :: 0 <= a < |entries| ==> '/' in entries[a].owner
  }

  lemma BuiltIsOwned(routes: seq<RouteObject>)
    ensures Owned(BuiltConfig(routes))
  {
    forall a | 0 <= a < |BuiltConfig(routes)|
      ensures '/' in BuiltConfig(routes)[a].owner
    {
      var i := EntryHasRoute(routes, |routes|, a);
      assert OwnerString(routes[i].key)[|routes[i].key.namespace|] == '/';
    }
  }

  /** In a table whose entries are owned, a key's initial claim is the owner of an entry. */
  lemma {:induction false} ClaimComesFromEntry(entries: seq<Route>, n: nat, key: HostnamePathKey) returns (a: nat)
    requires n <= |entries| && Owned(entries) && key in ExistingClaims(entries, n)
    ensures a < n && EntryKey(entries[a]) == key
    ensures entries[a].owner == OwnerString(ExistingClaims(entries, n)[key].key)
    ensures '/' !in ExistingClaims(entries, n)[key].key.namespace
  {
    ParsedOwnerReprints(entries[n - 1].ownerKind, entries[n - 1].owner);
    if EntryKey(entries[n - 1]) == key {
      a := n - 1;
    } else {
      a := ClaimComesFromEntry(entries, n - 1, key);
    }
  }

  lemma {:induction false} EntryGivesClaim(entries: seq<Route>, n: nat, a: nat)
    requires a < n <= |entries| && Owned(entries)
    ensures EntryKey(entries[a]) in ExistingClaims(entries, n)
  {
    ParsedOwnerReprints(entries[n - 1].ownerKind, entries[n - 1].owner);
    if a < n - 1 {
      EntryGivesClaim(entries, n - 1, a);
    }
  }

  /** With one owner to a key, a key's initial claim is the owner of every entry for it. */
  lemma InitialClaimOf(entries: seq<Route>, a: nat)
    requires Owned(entries) && SingleOwner(entries) && a < |entries|
    ensures var claims, key := InitialClaims(Some(entries)), EntryKey(entries[a]);
            key in claims && entries[a].owner == OwnerString(claims[key].key)
  {
    EntryGivesClaim(entries, |entries|, a);
    var b := ClaimComesFromEntry(entries, |entries|, EntryKey(entries[a]));
  }

  /** No key of both tables has changed hands between them. */
  ghost predicate NoHandover(before: seq<Route>, after: seq<Route>) {
    forall a, b :: 0 <= a < |before| && 0 <= b < |after| && EntryKey(before[a]) == EntryKey(after[b]) ==>
                     before[a].owner == after[b].owner
  }

  /** A key never passes directly from one owner to another: some pass in between leaves it
      out of the table. */
  lemma NoDirectHandover(before: seq<Route>, routes: seq<RouteObject>, kept: seq<RouteObject>, after: seq<Route>)
    requires Owned(before) && SingleOwner(before)
    requires Pass(Some(before), routes, kept, Some(after))
    ensures NoHandover(before, after)
  {
    if after != before {
      forall a, b | 0 <= a < |before| && 0 <= b < |after| && EntryKey(before[a]) == EntryKey(after[b])
        ensures before[a].owner == after[b].owner
      {
        InitialClaimOf(before, a);
        WrittenByClaimant(Some(before), routes, kept, b);
      }
    }
  }

  /** What a pass leaves behind: no table, or one whose entries are owned, one owner to a key. */
  ghost predicate Sound(table: Option<seq<Route>>) {
    table.Some? ==> SingleOwner(table.value) && Owned(table.value)
  }

  /** A run of passes over arbitrarily changing routes, from any table. */
  ghost predicate IsRun(tables: seq<Option<seq<Route>>>, routes: seq<seq<RouteObject>>, kept: seq<seq<RouteObject>>) {
    && |tables| > 0 && |routes| == |kept| == |tables| - 1
    && forall i :: 0 <= i < |routes| ==> Pass(tables[i], routes[i], kept[i], tables[i + 1])
  }

  lemma {:induction false} RunTablesAreSound(tables: seq<Option<seq<Route>>>, routes: seq<seq<RouteObject>>, kept: seq<seq<RouteObject>>, i: nat)
    requires IsRun(tables, routes, kept) && i < |tables|
    ensures tables[i] == tables[0] || Sound(tables[i])
  {
    if i > 0 {
      RunTablesAreSound(tables, routes, kept, i - 1);
      assert Pass(tables[i - 1], routes[i - 1], kept[i - 1], tables[i]);
      if tables[i] != tables[i - 1] {
        PassGivesSingleOwner(tables[i - 1], routes[i - 1], kept[i - 1]);
        BuiltIsOwned(kept[i - 1]);
      }
    }
  }

  /** Claim safety over every run: each table other than the one found at the start gives each
      key one owner, and from any such table (or a sound first one) to the next no key changes
      hands. */
  lemma ClaimSafety(tables: seq<Option<seq<Route>>>, routes: seq<seq<RouteObject>>, kept: seq<seq<RouteObject>>, i: nat)
    requires IsRun(tables, routes, kept) && i < |tables|
    ensures tables[i] == tables[0] || Sound(tables[i])
    ensures i > 0 && tables[i - 1].Some? && tables[i].Some? && (Sound(tables[0]) || tables[i - 1] != tables[0]) ==>
              NoHandover(tables[i - 1].value, tables[i].value)
  {
    RunTablesAreSound(tables, routes, kept, i);
    if i > 0 && tables[i - 1].Some? && tables[i].Some? && (Sound(tables[0]) || tables[i - 1] != tables[0]) {
      RunTablesAreSound(tables, routes, kept, i - 1);
      assert Pass(tables[i - 1], routes[i - 1], kept[i - 1], tables[i]);
      NoDirectHandover(tables[i - 1].value, routes[i - 1], kept[i - 1], tables[i].value);
    }
  }
}
