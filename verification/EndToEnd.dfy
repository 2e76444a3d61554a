/** From accepted routes to the request's receiver: the table a pass builds, as the proxy loads it. */
module EndToEnd {
  import opened Base
  import opened ProxyConfig
  import opened RouteMatch
  import opened RouteObjects
  import opened RouteClaims
  import opened ClaimConvergence

  /** gRPC entries carry no path prefix. */
  lemma BuiltPaths(routes: seq<RouteObject>, a: nat)
    requires a < |BuiltConfig(routes)|
    ensures var e := BuiltConfig(routes)[a];
            (e.protocol == PROTOCOL_GRPC && e.pathPrefix == "") || e.protocol == ""
  {
    var i := EntryHasRoute(routes, |routes|, a);
    KeyForm(routes[i], |routes[i].rules|, EntryKey(BuiltConfig(routes)[a]));
  }

  lemma {:induction false} KeyForm(route: RouteObject, n: nat, key: HostnamePathKey)
    requires n <= |route.rules| && key in KeysOfRules(route, n)
    ensures (key.protocol == PROTOCOL_GRPC && key.path == "") || key.protocol == ""
  {
    var keys := RuleKeys(route, route.rules[n - 1]);
    if key in KeysOfRules(route, n - 1) {
      KeyForm(route, n - 1, key);
    } else {
      var h :| 0 <= h < |keys| && keys[h] == key;
      assert Protocol(route) == if route.kind.HTTPRoute? then "" else PROTOCOL_GRPC;
    }
  }

  /** No two owners hold the prefixes "" and "/" of one hostname: both match as "/". */
  ghost predicate RootsAgree(entries: seq<Route>) {
    forall a, b :: 0 <= a < |entries| && 0 <= b < |entries|
                   && entries[a].hostname == entries[b].hostname && entries[a].protocol == entries[b].protocol == ""
                   && entries[a].pathPrefix == "" && entries[b].pathPrefix == "/" ==>
                     entries[a].owner == entries[b].owner
  }

  /** The receiver of a request is the same for every order of a built table if and only if
      no two owners hold an empty and a root prefix of one hostname. */
  lemma BuiltTableIsOrderFree(table: Option<seq<Route>>, routes: seq<RouteObject>, kept: seq<RouteObject>)
    requires forall r :: r in kept ==> r in Accepted(table, routes)
    ensures OrderFree(BuiltConfig(kept)) <==> RootsAgree(BuiltConfig(kept))
  {
    var entries := BuiltConfig(kept);
    OrderFreeExactlyWhenOneOwner(entries);
    PassGivesSingleOwner(table, routes, kept);
    if RootsAgree(entries) {
      forall a, b | 0 <= a < |entries| && 0 <= b < |entries| && SameMatch(entries[a], entries[b])
        ensures entries[a].owner == entries[b].owner
      {
        BuiltPaths(kept, a);
        BuiltPaths(kept, b);
        if EntryKey(entries[a]) != EntryKey(entries[b]) {
          assert entries[a].protocol == entries[b].protocol == "";
        }
      }
    }
    if OneOwnerPerMatch(entries) {
      forall a, b | 0 <= a < |entries| && 0 <= b < |entries|
                    && entries[a].hostname == entries[b].hostname && entries[a].protocol == entries[b].protocol == ""
                    && entries[a].pathPrefix == "" && entries[b].pathPrefix == "/"
        ensures entries[a].owner == entries[b].owner
      {
        assert SameMatch(entries[a], entries[b]);
      }
    }
  }

  // ---------- An input on which the order matters ----------

  /** Two HTTPRoutes on one hostname: one without matches, one with the path prefix "/". */
  function RootRoutes(grant: Backend): seq<RouteObject> {
    [RouteWith("a", [Rule([], [Granted(grant)], None)]), RouteWith("b", [PathRule("/", Granted(grant))])]
  }

  lemma RootRouteKeys(grant: Backend)
    ensures var routes := RootRoutes(grant);
            && KeysOf(routes[0]) == [PathKey("")] && KeysOf(routes[1]) == [PathKey("/")]
            && Serves(routes[0], PathKey("")) && Serves(routes[1], PathKey("/"))
            && routes[0].key != routes[1].key && OwnerString(routes[0].key) != OwnerString(routes[1].key)
  {
    var routes := RootRoutes(grant);
    assert KeysOfRules(routes[0], 0) == [];
    assert RulePath(routes[0], routes[0].rules[0]) == "" && Protocol(routes[0]) == "";
    assert KeysOf(routes[0])[0] == PathKey("");
    OneRuleKeys("b", "/", Granted(grant));
    assert KeysOf(routes[1])[0] == PathKey("/");
    FullyServedServes(routes[0], PathKey(""));
    FullyServedServes(routes[1], PathKey("/"));
    assert "a"[0] != "b"[0];
    assert OwnerString(routes[0].key)[3] == 'a' && OwnerString(routes[1].key)[3] == 'b';
  }

  /** Both are accepted, as their keys differ. */
  lemma RootRoutesAreAccepted(grant: Backend)
    ensures forall r :: r in RootRoutes(grant) ==> r in Accepted(None, RootRoutes(grant))
  {
    var routes := RootRoutes(grant);
    RootRouteKeys(grant);
    FrontRouteIsFirst(routes, 2, PathKey(""));
    SecondRouteIsFirst(routes, 2, PathKey("/"));
    WinsAlone(None, routes, 0);
    WinsAlone(None, routes, 1);
    AcceptedWhenWinning(None, routes, 0);
    AcceptedWhenWinning(None, routes, 1);
  }

  /** So which of them receives a request depends on the order of the table. */
  lemma RootRoutesDependOnOrder(grant: Backend)
    ensures var routes := RootRoutes(grant);
            (forall r :: r in routes ==> r in Accepted(None, routes)) && !OrderFree(BuiltConfig(routes))
  {
    var routes := RootRoutes(grant);
    RootRouteKeys(grant);
    RootRoutesAreAccepted(grant);
    var a := ServedKeyHasEntry(routes, 2, 0, PathKey(""));
    var b := ServedKeyHasEntry(routes, 2, 1, PathKey("/"));
    BuiltTableIsOrderFree(None, routes, routes);
    assert !RootsAgree(BuiltConfig(routes));
  }

  /** Every HTTP rule states a path prefix. */
  ghost predicate HTTPPathsNonEmpty(routes: seq<RouteObject>) {
    forall i, key :: 0 <= i < |routes| && key in KeysOf(routes[i]) && key.protocol == "" ==> key.path != ""
  }

  /** With non-empty HTTP paths the receiver never depends on the order of the table. */
  lemma NonEmptyPathsAreOrderFree(table: Option<seq<Route>>, routes: seq<RouteObject>, kept: seq<RouteObject>)
    requires forall r :: r in kept ==> r in Accepted(table, routes)
    requires HTTPPathsNonEmpty(kept)
    ensures OrderFree(BuiltConfig(kept))
  {
    var entries := BuiltConfig(kept);
    forall a | 0 <= a < |entries| && entries[a].protocol == ""
      ensures entries[a].pathPrefix != ""
    {
      var i := EntryHasRoute(kept, |kept|, a);
      assert EntryKey(entries[a]).path == entries[a].pathPrefix;
    }
    BuiltTableIsOrderFree(table, routes, kept);
  }

  /** Parsing the table changes neither what its entries match nor who owns them. */
  lemma ParseKeepsReceivers(entries: seq<Route>, parsed: seq<Route>, p: Parsers, header: string, path: string, grpc: bool)
    requires Parses(entries, p)
    requires |parsed| == |entries| && forall i :: 0 <= i < |parsed| ==> parsed[i] == ParsedRoute(entries[i], p)
    ensures Receiver(parsed, header, path, grpc) == Receiver(entries, header, path, grpc)
  {
    var host := StripPort(header);
    forall i | 0 <= i < |parsed|
      ensures Matches(parsed[i], host, path, grpc) == Matches(entries[i], host, path, grpc)
              && Prefix(parsed[i]) == Prefix(entries[i]) && parsed[i].owner == entries[i].owner
    {
    }
    var w := Winner(entries, host, path, grpc);
    if w.Some? {
      assert IsBest(parsed, host, path, grpc, w.value);
      BestIsUnique(parsed, host, path, grpc, w.value);
    } else {
      var p := Winner(parsed, host, path, grpc);
    }
  }

  /** Loads a table into a proxy and asks for the owner that receives a request: some owner,
      or None when no entry matches. Nothing is routed by a table that does not parse. */
  method RouteRequest(entries: seq<Route>, p: Parsers, hostHeader: string, path: string, grpc: bool)
    returns (loaded: bool, owner: Option<string>)
    ensures loaded <==> Parses(entries, p)
    ensures owner == if loaded then Receiver(entries, hostHeader, path, grpc) else None
  {
    var cfg := new Config(entries);
    loaded := cfg.Parse(p);
    if !loaded {
      return false, None;
    }
    var best := MatchRoute(cfg, hostHeader, path, grpc);
    ParseKeepsReceivers(entries, cfg.routes, p, hostHeader, path, grpc);
    owner := if best.None? then None else Some(cfg.routes[best.value].owner);
  }
}
