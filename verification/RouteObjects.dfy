/** HTTPRoutes and GRPCRoutes and the proxy entries they become: internal/controller/route.go,
    buildRouteConfig and pathFromMatches. */
module RouteObjects {
  import opened Base
  import opened ProxyConfig

  datatype RouteKind = HTTPRoute | GRPCRoute

  datatype RouteKey = RouteKey(namespace: string, name: string)

  datatype PathMatch = PathMatch(kind: Option<string>, value: Option<string>)

  /** The outcome of resolving a backendRef against the ReferenceGrants. */
  datatype Resolution = Granted(backend: Backend) | Denied(ref: string) | Failed

  /** A rule; each match is represented by its path, when it has one. */
  datatype Rule = Rule(matches: seq<Option<PathMatch>>, backendRefs: seq<Resolution>, session: Option<SessionPersistence>)

  datatype RouteObject = RouteObject(kind: RouteKind, key: RouteKey, hostnames: seq<string>, rules: seq<Rule>)

  /** A (hostname, path prefix, protocol) routing key. */
  datatype HostnamePathKey = HostnamePathKey(hostname: string, path: string, protocol: string)

  function KindName(kind: RouteKind): string {
    if kind.HTTPRoute? then "HTTPRoute" else "GRPCRoute"
  }

  /** pathFromMatches: the first path prefix, or "" when no match gives one. */
  function PathFromMatches(matches: seq<Option<PathMatch>>): string {
    if matches == [] then "" else
    var m := matches[0];
    if m.Some? && (m.value.kind.None? || m.value.kind.value == "PathPrefix") && m.value.value.Some?
    then m.value.value.value
    else PathFromMatches(matches[1..])
  }

  /** A match gives a path prefix when it has a path whose type is PathPrefix or left out, and a value. */
  ghost predicate GivesPrefix(m: Option<PathMatch>, path: string) {
    m.Some? && m.value.value == Some(path) && m.value.kind in {None, Some("PathPrefix")}
  }

  /** The first match that gives a prefix decides, and "" stands for none. */
  lemma {:induction false} PathComesFromFirstMatch(matches: seq<Option<PathMatch>>, i: nat, path: string)
    ensures i < |matches| && GivesPrefix(matches[i], path) && (forall j, p :: 0 <= j < i ==> !GivesPrefix(matches[j], p)) ==>
              PathFromMatches(matches) == path
    ensures (forall j, p :: 0 <= j < |matches| ==> !GivesPrefix(matches[j], p)) ==> PathFromMatches(matches) == ""
  {
    if matches != [] {
      var m := matches[0];
      if m.Some? && m.value.value.Some? {
        assert m.value.kind in {None, Some("PathPrefix")} ==> GivesPrefix(matches[0], m.value.value.value);
      }
      if i > 0 {
        PathComesFromFirstMatch(matches[1..], i - 1, path);
      } else {
        PathComesFromFirstMatch(matches[1..], i, path);
      }
    }
  }

  function RulePath(route: RouteObject, rule: Rule): string {
    if route.kind.HTTPRoute? then PathFromMatches(rule.matches) else ""
  }

  function Protocol(route: RouteObject): string {
    if route.kind.HTTPRoute? then "" else PROTOCOL_GRPC
  }

  // ---------- Keys ----------

  function RuleKeys(route: RouteObject, rule: Rule): (keys: seq<HostnamePathKey>)
    ensures |keys| == |route.hostnames|
  {
    var path := RulePath(route, rule);
    seq(|route.hostnames|, h requires 0 <= h < |route.hostnames| =>
      HostnamePathKey(route.hostnames[h], path, Protocol(route)))
  }

  function KeysOfRules(route: RouteObject, n: nat): seq<HostnamePathKey>
    requires n <= |route.rules|
  {
    if n == 0 then [] else KeysOfRules(route, n - 1) + RuleKeys(route, route.rules[n - 1])
  }

  /** The routing keys of a route, rule by rule and hostname by hostname. */
  function KeysOf(route: RouteObject): seq<HostnamePathKey> {
    KeysOfRules(route, |route.rules|)
  }

  /** hostnamePathKeys, of either kind of route. */
  method HostnamePathKeys(route: RouteObject) returns (keys: seq<HostnamePathKey>)
    ensures keys == KeysOf(route)
  {
    keys := [];
    for i := 0 to |route.rules|
      invariant keys == KeysOfRules(route, i)
    {
      var rule := route.rules[i];
      var path := RulePath(route, rule);
      ghost var before, ruleKeys := keys, RuleKeys(route, rule);
      for h := 0 to |route.hostnames|
        invariant keys == before + ruleKeys[..h]
      {
        assert ruleKeys[h] == HostnamePathKey(route.hostnames[h], path, Protocol(route));
        assert before + ruleKeys[..h + 1] == before + ruleKeys[..h] + [ruleKeys[h]];
        keys := keys + [HostnamePathKey(route.hostnames[h], path, Protocol(route))];
      }
    }
  }

  // ---------- Proxy entries ----------

  /** The owner written into an entry. */
  function OwnerString(key: RouteKey): string {
    key.namespace + "/" + key.name
  }

  function EntryKey(e: Route): HostnamePathKey {
    HostnamePathKey(e.hostname, e.pathPrefix, e.protocol)
  }

  predicate AllGranted(refs: seq<Resolution>) {
    forall j :: 0 <= j < |refs| ==> refs[j].Granted?
  }

  predicate SomeFailed(route: RouteObject) {
    exists i, j :: 0 <= i < |route.rules| && 0 <= j < |route.rules[i].backendRefs| && route.rules[i].backendRefs[j].Failed?
  }

  /** A rule is served when it has backends and all of them are granted. */
  predicate Served(rule: Rule) {
    rule.backendRefs != [] && AllGranted(rule.backendRefs)
  }

  function GrantedBackends(refs: seq<Resolution>): (b: seq<Backend>)
    requires AllGranted(refs)
    ensures |b| == |refs| && forall j :: 0 <= j < |refs| ==> refs[j] == Granted(b[j])
  {
    seq(|refs|, j requires 0 <= j < |refs| => refs[j].backend)
  }

  function RuleEntries(route: RouteObject, rule: Rule): seq<Route> {
    if !Served(rule) then [] else
    var path := RulePath(route, rule);
    seq(|route.hostnames|, h requires 0 <= h < |route.hostnames| =>
      Route(route.hostnames[h], path, Protocol(route), OwnerString(route.key), KindName(route.kind),
            GrantedBackends(rule.backendRefs), rule.session, 0))
  }

  function EntriesOfRules(route: RouteObject, n: nat): seq<Route>
    requires n <= |route.rules|
  {
    if n == 0 then [] else EntriesOfRules(route, n - 1) + RuleEntries(route, route.rules[n - 1])
  }

  /** The proxy entries of a route: those of its served rules, for every hostname. */
  function EntriesOf(route: RouteObject): seq<Route> {
    EntriesOfRules(route, |route.rules|)
  }

  /** Resolves the backends of one rule: `served` when none is denied and there is one. */
  method ResolveRule(rule: Rule) returns (backends: seq<Backend>, served: bool, failed: bool)
    ensures failed <==> exists j :: 0 <= j < |rule.backendRefs| && rule.backendRefs[j].Failed?
    ensures !failed ==> (served <==> Served(rule))
    ensures !failed && served ==> backends == GrantedBackends(rule.backendRefs)
  {
    backends := [];
    var denied := false;
    for j := 0 to |rule.backendRefs|
      invariant forall k :: 0 <= k < j ==> !rule.backendRefs[k].Failed?
      invariant denied <==> exists k :: 0 <= k < j && rule.backendRefs[k].Denied?
      invariant !denied ==> |backends| == j && forall k :: 0 <= k < j ==> backends[k] == rule.backendRefs[k].backend
      invariant |backends| <= j && (backends == [] ==> denied || j == 0)
    {
      match rule.backendRefs[j] {
        case Failed => return [], false, true;
        case Denied(_) => denied := true;
        case Granted(b) => backends := backends + [b];
      }
    }
    served := !denied && |backends| > 0;
    failed := false;
  }

  /** The entries of one served rule, for every hostname. */
  method RuleProxyRoutes(route: RouteObject, rule: Rule, backends: seq<Backend>) returns (entries: seq<Route>)
    requires Served(rule) && backends == GrantedBackends(rule.backendRefs)
    ensures entries == RuleEntries(route, rule)
  {
    var path := RulePath(route, rule);
    ghost var expected := RuleEntries(route, rule);
    entries := [];
    for h := 0 to |route.hostnames|
      invariant entries == expected[..h]
    {
      assert expected[..h + 1] == expected[..h] + [expected[h]];
      entries := entries + [Route(route.hostnames[h], path, Protocol(route), OwnerString(route.key),
                                  KindName(route.kind), backends, rule.session, 0)];
    }
  }

  /** buildProxyRoutes: the entries of the route, or a failure that aborts the pass. */
  method BuildProxyRoutes(route: RouteObject) returns (entries: Option<seq<Route>>)
    ensures entries.None? <==> SomeFailed(route)
    ensures entries.Some? ==> entries.value == EntriesOf(route)
  {
    var routes := [];
    for i := 0 to |route.rules|
      invariant routes == EntriesOfRules(route, i)
      invariant forall r, j :: 0 <= r < i && 0 <= j < |route.rules[r].backendRefs| ==> !route.rules[r].backendRefs[j].Failed?
    {
      var rule := route.rules[i];
      var backends, served, failed := ResolveRule(rule);
      if failed {
        return None;
      }
      if served {
        var entries := RuleProxyRoutes(route, rule, backends);
        routes := routes + entries;
      }
    }
    return Some(routes);
  }

  function ConfigUpTo(routes: seq<RouteObject>, n: nat): seq<Route>
    requires n <= |routes|
  {
    if n == 0 then [] else ConfigUpTo(routes, n - 1) + EntriesOf(routes[n - 1])
  }

  /** The table built from the accepted routes. */
  function BuiltConfig(routes: seq<RouteObject>): seq<Route> {
    ConfigUpTo(routes, |routes|)
  }

  /** buildRouteConfig */
  method BuildRouteConfig(routes: seq<RouteObject>) returns (config: Option<seq<Route>>)
    ensures config.None? <==> exists i :: 0 <= i < |routes| && SomeFailed(routes[i])
    ensures config.Some? ==> config.value == BuiltConfig(routes)
  {
    var entries := [];
    for i := 0 to |routes|
      invariant entries == ConfigUpTo(routes, i)
      invariant forall k :: 0 <= k < i ==> !SomeFailed(routes[k])
    {
      var built := BuildProxyRoutes(routes[i]);
      if built.None? {
        return None;
      }
      entries := entries + built.value;
    }
    return Some(entries);
  }

  // ---------- Facts about keys and entries ----------

  lemma {:induction false} EntriesOfRulesSound(route: RouteObject, n: nat, a: nat)
    requires n <= |route.rules| && a < |EntriesOfRules(route, n)|
    ensures var e := EntriesOfRules(route, n)[a];
            EntryKey(e) in KeysOfRules(route, n) && e.owner == OwnerString(route.key)
  {
    var before := |EntriesOfRules(route, n - 1)|;
    if a < before {
      EntriesOfRulesSound(route, n - 1, a);
    } else {
      var rule := route.rules[n - 1];
      var e := RuleEntries(route, rule)[a - before];
      assert EntryKey(e) == RuleKeys(route, rule)[a - before];
    }
  }

  /** The entry of a rule for a hostname: HTTP routes carry the path of their matches, gRPC routes
      their protocol, and all the owner, its kind, the granted backends and the session. */
  ghost predicate IsEntryFor(e: Route, route: RouteObject, rule: Rule, hostname: string) {
    && e.hostname == hostname && e.owner == route.key.namespace + "/" + route.key.name && e.session == rule.session
    && (route.kind.HTTPRoute? ==> e.pathPrefix == PathFromMatches(rule.matches) && e.protocol == "" && e.ownerKind == "HTTPRoute")
    && (route.kind.GRPCRoute? ==> e.pathPrefix == "" && e.protocol == "grpc" && e.ownerKind == "GRPCRoute")
    && |e.backends| == |rule.backendRefs| && forall j :: 0 <= j < |e.backends| ==> rule.backendRefs[j] == Granted(e.backends[j])
  }

  lemma RuleEntryMeans(route: RouteObject, rule: Rule, h: nat)
    requires Served(rule) && h < |route.hostnames|
    ensures |RuleEntries(route, rule)| == |route.hostnames|
    ensures IsEntryFor(RuleEntries(route, rule)[h], route, rule, route.hostnames[h])
  {
    var e := RuleEntries(route, rule)[h];
    assert e == Route(route.hostnames[h], RulePath(route, rule), Protocol(route), OwnerString(route.key),
                      KindName(route.kind), GrantedBackends(rule.backendRefs), rule.session, 0);
    assert Protocol(route) == if route.kind.HTTPRoute? then "" else "grpc";
  }

  /** Every entry is one of a served rule and a hostname of its route. */
  lemma {:induction false} EntryMeans(route: RouteObject, n: nat, a: nat)
    requires n <= |route.rules| && a < |EntriesOfRules(route, n)|
    ensures exists i, h :: 0 <= i < n && 0 <= h < |route.hostnames| && route.rules[i].backendRefs != []
                           && IsEntryFor(EntriesOfRules(route, n)[a], route, route.rules[i], route.hostnames[h])
  {
    var before := |EntriesOfRules(route, n - 1)|;
    if a < before {
      EntryMeans(route, n - 1, a);
    } else {
      RuleEntryMeans(route, route.rules[n - 1], a - before);
    }
  }

  /** And every rule that has backends, all of them granted, has one for each hostname. */
  lemma {:induction false} ServedRuleHasEntry(route: RouteObject, n: nat, i: nat, h: nat) returns (a: nat)
    requires i < n <= |route.rules| && h < |route.hostnames| && route.rules[i].backendRefs != []
    requires forall j :: 0 <= j < |route.rules[i].backendRefs| ==> route.rules[i].backendRefs[j].Granted?
    ensures a < |EntriesOfRules(route, n)| && IsEntryFor(EntriesOfRules(route, n)[a], route, route.rules[i], route.hostnames[h])
  {
    if i < n - 1 {
      a := ServedRuleHasEntry(route, n - 1, i, h);
    } else {
      RuleEntryMeans(route, route.rules[i], h);
      a := |EntriesOfRules(route, n - 1)| + h;
    }
  }

  /** The key of a rule for one of the route's hostnames. */
  ghost predicate IsKeyFor(key: HostnamePathKey, route: RouteObject, rule: Rule) {
    && key.hostname in route.hostnames
    && (route.kind.HTTPRoute? ==> key.path == PathFromMatches(rule.matches) && key.protocol == "")
    && (route.kind.GRPCRoute? ==> key.path == "" && key.protocol == "grpc")
  }

  lemma RuleKeyMeans(route: RouteObject, rule: Rule, key: HostnamePathKey)
    ensures key in RuleKeys(route, rule) <==> IsKeyFor(key, route, rule)
  {
    var keys := RuleKeys(route, rule);
    assert Protocol(route) == if route.kind.HTTPRoute? then "" else "grpc";
    if IsKeyFor(key, route, rule) {
      var h :| 0 <= h < |route.hostnames| && route.hostnames[h] == key.hostname;
      assert keys[h] == key;
    }
  }

  /** The claim keys are those of every rule and hostname, served or not. */
  lemma {:induction false} KeyMeans(route: RouteObject, n: nat, key: HostnamePathKey)
    requires n <= |route.rules|
    ensures key in KeysOfRules(route, n) <==> exists i :: 0 <= i < n && IsKeyFor(key, route, route.rules[i])
  {
    if n > 0 {
      KeyMeans(route, n - 1, key);
      RuleKeyMeans(route, route.rules[n - 1], key);
    }
  }

  /** Every rule has backends and all of them are granted. */
  predicate FullyServed(route: RouteObject) {
    forall i :: 0 <= i < |route.rules| ==> Served(route.rules[i])
  }

  /** For a fully served route, the keys of the entries are exactly hostnamePathKeys, in order. */
  lemma {:induction false} EntryKeysAreRouteKeys(route: RouteObject, n: nat)
    requires n <= |route.rules| && FullyServed(route)
    ensures |EntriesOfRules(route, n)| == |KeysOfRules(route, n)|
    ensures forall a :: 0 <= a < |EntriesOfRules(route, n)| ==> EntryKey(EntriesOfRules(route, n)[a]) == KeysOfRules(route, n)[a]
  {
    if n > 0 { EntryKeysAreRouteKeys(route, n - 1); }
  }

  /** The route has an entry for the key. */
  ghost predicate Serves(route: RouteObject, key: HostnamePathKey) {
    exists b :: 0 <= b < |EntriesOf(route)| && EntryKey(EntriesOf(route)[b]) == key
  }

  lemma ServedKeyIsRouteKey(route: RouteObject, key: HostnamePathKey)
    requires Serves(route, key)
    ensures key in KeysOf(route)
  {
    var b :| 0 <= b < |EntriesOf(route)| && EntryKey(EntriesOf(route)[b]) == key;
    EntriesOfRulesSound(route, |route.rules|, b);
  }

  /** A fully served route serves all its keys. */
  lemma FullyServedServes(route: RouteObject, key: HostnamePathKey)
    requires FullyServed(route) && key in KeysOf(route)
    ensures Serves(route, key)
  {
    EntryKeysAreRouteKeys(route, |route.rules|);
    var b :| 0 <= b < |KeysOf(route)| && KeysOf(route)[b] == key;
    assert EntryKey(EntriesOf(route)[b]) == key;
  }

  /** Every entry of a built table comes from one of its routes. */
  lemma {:induction false} EntryHasRoute(routes: seq<RouteObject>, n: nat, a: nat) returns (i: nat)
    requires n <= |routes| && a < |ConfigUpTo(routes, n)|
    ensures i < n && Serves(routes[i], EntryKey(ConfigUpTo(routes, n)[a])) && EntryKey(ConfigUpTo(routes, n)[a]) in KeysOf(routes[i])
    ensures ConfigUpTo(routes, n)[a].owner == OwnerString(routes[i].key)
  {
    var before := |ConfigUpTo(routes, n - 1)|;
    if a < before {
      i := EntryHasRoute(routes, n - 1, a);
    } else {
      i := n - 1;
      EntriesOfRulesSound(routes[i], |routes[i].rules|, a - before);
      assert ConfigUpTo(routes, n)[a] == EntriesOf(routes[i])[a - before];
    }
  }

  /** Every key a route serves has an entry in the built table. */
  lemma {:induction false} ServedKeyHasEntry(routes: seq<RouteObject>, n: nat, i: nat, key: HostnamePathKey) returns (a: nat)
    requires i < n <= |routes| && Serves(routes[i], key)
    ensures a < |ConfigUpTo(routes, n)| && EntryKey(ConfigUpTo(routes, n)[a]) == key
    ensures ConfigUpTo(routes, n)[a].owner == OwnerString(routes[i].key)
  {
    if i < n - 1 {
      a := ServedKeyHasEntry(routes, n - 1, i, key);
    } else {
      var b :| 0 <= b < |EntriesOf(routes[i])| && EntryKey(EntriesOf(routes[i])[b]) == key;
      EntriesOfRulesSound(routes[i], |routes[i].rules|, b);
      a := |ConfigUpTo(routes, n - 1)| + b;
    }
  }
}
