/** Request matching: matchRoute of internal/proxy/proxy.go. */
module RouteMatch {
  import opened Base
  import opened ProxyConfig

  /** The host without its port: everything before the last colon. */
  function StripPort(host: string): string {
    var i := LastIndexByte(host, ':');
    if i == -1 then host else host[..i]
  }

  lemma StripPortRemovesPort(host: string, port: string)
    requires ':' !in port
    ensures StripPort(host + ":" + port) == host
  {
    var h := host + ":" + port;
    assert h[|host|] == ':';
    assert h[|host| + 1..] == port;
    LastIndexIs(h, ':', |host|);
    assert h[..|host|] == host;
  }

  /** A host without a colon is left as it is. */
  lemma StripPortKeepsBare(host: string)
    requires ':' !in host
    ensures StripPort(host) == host
  {
  }

  /** Of a host with colons, what follows the last one goes. */
  lemma StripPortAt(host: string, i: nat)
    requires i < |host| && host[i] == ':' && ':' !in host[i + 1..]
    ensures StripPort(host) == host[..i]
  {
    LastIndexIs(host, ':', i);
  }

  predicate IsGRPC(r: Route) { r.protocol == PROTOCOL_GRPC }

  /** The prefix a route matches with: an absent prefix matches as "/". */
  function Prefix(r: Route): (p: string)
    ensures p != ""
  {
    if r.pathPrefix == "" then "/" else r.pathPrefix
  }

  predicate Matches(r: Route, host: string, path: string, grpc: bool) {
    r.hostname == host && grpc == IsGRPC(r) && HasPrefix(path, Prefix(r))
  }

  /** Route i matches, no other matching route has a longer prefix, and none before it an
      equally long one. */
  ghost predicate IsBest(routes: seq<Route>, host: string, path: string, grpc: bool, i: nat) {
    && i < |routes| && Matches(routes[i], host, path, grpc)
    && forall j :: 0 <= j < |routes| && Matches(routes[j], host, path, grpc) ==>
                     |Prefix(routes[j])| < |Prefix(routes[i])| || (|Prefix(routes[j])| == |Prefix(routes[i])| && i <= j)
  }

  ghost predicate NothingMatches(routes: seq<Route>, host: string, path: string, grpc: bool) {
    forall j :: 0 <= j < |routes| ==> !Matches(routes[j], host, path, grpc)
  }

  /** A full scan of the table for the longest matching prefix. */
  function Winner(routes: seq<Route>, host: string, path: string, grpc: bool): (w: Option<nat>)
    ensures w.None? ==> NothingMatches(routes, host, path, grpc)
    ensures w.Some? ==> IsBest(routes, host, path, grpc, w.value)
  {
    if routes == [] then None else
    var n := |routes| - 1;
    var w := Winner(routes[..n], host, path, grpc);
    if Matches(routes[n], host, path, grpc)
       && (w.None? || |Prefix(routes[n])| > |Prefix(routes[w.value])|) then Some(n) else w
  }

  lemma {:induction false} BestIsUnique(routes: seq<Route>, host: string, path: string, grpc: bool, i: nat)
    requires IsBest(routes, host, path, grpc, i)
    ensures Winner(routes, host, path, grpc) == Some(i)
  {
  }

  /** The scan of matchRoute over the first k entries of an index list. */
  function BestListed(routes: seq<Route>, listed: seq<nat>, k: nat, path: string, grpc: bool): (b: Option<nat>)
    requires k <= |listed| && forall a :: 0 <= a < |listed| ==> listed[a] < |routes|
    ensures b.Some? ==> b.value < |routes|
  {
    if k == 0 then None else
    var b := BestListed(routes, listed, k - 1, path, grpc);
    var r := routes[listed[k - 1]];
    if grpc == IsGRPC(r) && HasPrefix(path, Prefix(r)) && (b.None? || |Prefix(r)| > |Prefix(routes[b.value])|)
    then Some(listed[k - 1]) else b
  }

  lemma {:induction false} BestListedIsBest(routes: seq<Route>, listed: seq<nat>, k: nat, host: string, path: string, grpc: bool)
    requires k <= |listed|
    requires forall a :: 0 <= a < |listed| ==> listed[a] < |routes| && routes[listed[a]].hostname == host
    requires forall a, b :: 0 <= a < b < |listed| ==> listed[a] < listed[b]
    ensures match BestListed(routes, listed, k, path, grpc)
            case None => forall a :: 0 <= a < k ==> !Matches(routes[listed[a]], host, path, grpc)
            case Some(i) =>
              && Matches(routes[i], host, path, grpc)
              && (k < |listed| ==> i < listed[k])
              && forall a :: 0 <= a < k && Matches(routes[listed[a]], host, path, grpc) ==>
                               |Prefix(routes[listed[a]])| < |Prefix(routes[i])|
                               || (|Prefix(routes[listed[a]])| == |Prefix(routes[i])| && i <= listed[a])
  {
    if k > 0 {
      BestListedIsBest(routes, listed, k - 1, host, path, grpc);
    }
  }

  /** Scanning the hostname index finds what the full scan finds. */
  lemma {:induction false} IndexScanFindsWinner(routes: seq<Route>, host: string, path: string, grpc: bool)
    ensures var listed := RoutesFor(routes, host, |routes|);
            BestListed(routes, listed, |listed|, path, grpc) == Winner(routes, host, path, grpc)
  {
    var listed := RoutesFor(routes, host, |routes|);
    RoutesForIsComplete(routes, host, |routes|);
    BestListedIsBest(routes, listed, |listed|, host, path, grpc);
    var b := BestListed(routes, listed, |listed|, path, grpc);
    if b.Some? {
      BestIsUnique(routes, host, path, grpc, b.value);
    }
  }

  method HostWithoutPort(host: string) returns (bare: string)
    ensures bare == StripPort(host)
  {
    bare := host;
    var colon := LastIndexByte(host, ':');
    if colon != -1 {
      bare := host[..colon];
    }
  }

  /** What the full scan finds: a route of the hostname and protocol whose prefix the path has, the
      longest such, and the first of those; or nothing when there is none. */
  lemma {:induction false} WinnerMeans(routes: seq<Route>, host: string, path: string, grpc: bool)
    ensures Winner(routes, host, path, grpc).None? <==>
            forall j :: 0 <= j < |routes| ==>
                          !(routes[j].hostname == host && (routes[j].protocol == "grpc") == grpc
                            && (if routes[j].pathPrefix == "" then "/" else routes[j].pathPrefix) <= path)
    ensures var w := Winner(routes, host, path, grpc);
            w.Some? ==>
              && w.value < |routes|
              && var best := routes[w.value];
                 var prefix := if best.pathPrefix == "" then "/" else best.pathPrefix;
                 && best.hostname == host && (best.protocol == "grpc") == grpc && prefix <= path
                 && forall j :: 0 <= j < |routes| && routes[j].hostname == host && (routes[j].protocol == "grpc") == grpc
                                && (if routes[j].pathPrefix == "" then "/" else routes[j].pathPrefix) <= path ==>
                                  var other := if routes[j].pathPrefix == "" then "/" else routes[j].pathPrefix;
                                  |other| < |prefix| || (|other| == |prefix| && w.value <= j)
  {
    forall j | 0 <= j < |routes|
      ensures Matches(routes[j], host, path, grpc) <==>
              routes[j].hostname == host && (routes[j].protocol == "grpc") == grpc
              && (if routes[j].pathPrefix == "" then "/" else routes[j].pathPrefix) <= path
    {
    }
  }

  /** matchRoute. The port, if the Host header has one, is what follows its last colon. */
  method MatchRoute(cfg: Config, host: string, path: string, grpc: bool) returns (best: Option<nat>)
    requires cfg.Indexed()
    ensures best == Winner(cfg.routes, StripPort(host), path, grpc)
    ensures ':' !in host ==> best == Winner(cfg.routes, host, path, grpc)
    ensures forall i :: 0 <= i < |host| && host[i] == ':' && ':' !in host[i + 1..] ==>
                          best == Winner(cfg.routes, host[..i], path, grpc)
  {
    var bare := HostWithoutPort(host);
    var listed := cfg.Lookup(bare);
    best := None;
    var bestLen := -1;
    var k := 0;
    while k < |listed|
      invariant 0 <= k <= |listed|
      invariant best == BestListed(cfg.routes, listed, k, path, grpc)
      invariant bestLen == if best.None? then -1 else |Prefix(cfg.routes[best.value])|
    {
      var r := cfg.routes[listed[k]];
      var prefix := if r.pathPrefix == "" then "/" else r.pathPrefix;
      if grpc == (r.protocol == PROTOCOL_GRPC) && HasPrefix(path, prefix) && |prefix| > bestLen {
        best := Some(listed[k]);
        bestLen := |prefix|;
      }
      k := k + 1;
    }
    IndexScanFindsWinner(cfg.routes, bare, path, grpc);
    if ':' !in host {
      StripPortKeepsBare(host);
    }
    forall i | 0 <= i < |host| && host[i] == ':' && ':' !in host[i + 1..]
      ensures StripPort(host) == host[..i]
    {
      StripPortAt(host, i);
    }
  }

  // ---------- Who receives a request ----------

  /** The owner of the route that receives a request, by its Host header. */
  function Receiver(routes: seq<Route>, header: string, path: string, grpc: bool): Option<string> {
    var w := Winner(routes, StripPort(header), path, grpc);
    if w.Some? then Some(routes[w.value].owner) else None
  }

  /** Every order of the same table sends every request to the same owner. */
  ghost predicate OrderFree(routes: seq<Route>) {
    forall perm: seq<Route>, header: string, path: string, grpc: bool {:trigger Receiver(perm, header, path, grpc)} ::
      multiset(perm) == multiset(routes) ==> Receiver(perm, header, path, grpc) == Receiver(routes, header, path, grpc)
  }

  /** Entries that match exactly the same requests belong to one owner. */
  ghost predicate OneOwnerPerMatch(routes: seq<Route>) {
    forall i, j :: 0 <= i < |routes| && 0 <= j < |routes| && SameMatch(routes[i], routes[j]) ==>
                     routes[i].owner == routes[j].owner
  }

  predicate SameMatch(r: Route, s: Route) {
    r.hostname == s.hostname && IsGRPC(r) == IsGRPC(s) && Prefix(r) == Prefix(s)
  }

  /** Two best matches of one request match exactly the same requests. */
  lemma EqualLengthPrefixes(r: Route, s: Route, host: string, path: string, grpc: bool)
    requires Matches(r, host, path, grpc) && Matches(s, host, path, grpc)
    requires |Prefix(r)| == |Prefix(s)|
    ensures SameMatch(r, s)
  {
    assert Prefix(r) == path[..|Prefix(r)|];
    assert Prefix(s) == path[..|Prefix(s)|];
  }

  lemma SameElements(perm: seq<Route>, routes: seq<Route>, i: nat) returns (j: nat)
    requires multiset(perm) == multiset(routes) && i < |perm|
    ensures j < |routes| && routes[j] == perm[i]
  {
    assert perm[i] in multiset(perm);
    assert perm[i] in routes;
    j :| j < |routes| && routes[j] == perm[i];
  }

  lemma OneOwnerGivesSameReceiver(perm: seq<Route>, routes: seq<Route>, header: string, path: string, grpc: bool)
    requires multiset(perm) == multiset(routes) && OneOwnerPerMatch(routes)
    ensures Receiver(perm, header, path, grpc) == Receiver(routes, header, path, grpc)
  {
    var host := StripPort(header);
    var p, w := Winner(perm, host, path, grpc), Winner(routes, host, path, grpc);
    if w.Some? {
      var k := SameElements(routes, perm, w.value);
      assert Matches(perm[k], host, path, grpc);
    }
    if p.Some? {
      var j := SameElements(perm, routes, p.value);
      assert Matches(routes[j], host, path, grpc);
      EqualLengthPrefixes(routes[j], routes[w.value], host, path, grpc);
    }
  }

  function ToFront(routes: seq<Route>, i: nat): (perm: seq<Route>)
    requires i < |routes|
    ensures multiset(perm) == multiset(routes) && perm != [] && perm[0] == routes[i]
  {
    assert routes == routes[..i] + [routes[i]] + routes[i + 1..];
    [routes[i]] + routes[..i] + routes[i + 1..]
  }

  lemma {:induction false} FrontWins(routes: seq<Route>, path: string)
    requires routes != [] && path == Prefix(routes[0])
    ensures Winner(routes, routes[0].hostname, path, IsGRPC(routes[0])) == Some(0)
  {
    forall j | 0 <= j < |routes| && HasPrefix(path, Prefix(routes[j]))
      ensures |Prefix(routes[j])| <= |path|
    {
    }
    BestIsUnique(routes, routes[0].hostname, path, IsGRPC(routes[0]), 0);
  }

  /** A Host header that asks for a hostname. Hostnames may hold a colon, so a port is given. */
  function HeaderFor(hostname: string): (header: string)
    ensures StripPort(header) == hostname
  {
    StripPortRemovesPort(hostname, "443");
    hostname + ":" + "443"
  }

  /** The front entry receives the request for its own hostname and prefix, with or without a port
      in the Host header. */
  lemma FrontReceives(routes: seq<Route>)
    requires routes != []
    ensures Receiver(routes, HeaderFor(routes[0].hostname), Prefix(routes[0]), IsGRPC(routes[0])) == Some(routes[0].owner)
    ensures ':' !in routes[0].hostname ==>
              Receiver(routes, routes[0].hostname, Prefix(routes[0]), IsGRPC(routes[0])) == Some(routes[0].owner)
  {
    FrontWins(routes, Prefix(routes[0]));
    if ':' !in routes[0].hostname {
      StripPortKeepsBare(routes[0].hostname);
    }
  }

  /** Moving either of two entries that match alike to the front makes it the receiver. */
  lemma OrderFreeGivesOneOwner(routes: seq<Route>, i: nat, j: nat)
    requires OrderFree(routes) && i < |routes| && j < |routes| && SameMatch(routes[i], routes[j])
    ensures routes[i].owner == routes[j].owner
  {
    var header := HeaderFor(routes[i].hostname);
    var path, grpc := Prefix(routes[i]), IsGRPC(routes[i]);
    var atFrontI, atFrontJ := ToFront(routes, i), ToFront(routes, j);
    FrontReceives(atFrontI);
    FrontReceives(atFrontJ);
    assert Receiver(atFrontI, header, path, grpc) == Receiver(routes, header, path, grpc);
    assert Receiver(atFrontJ, header, path, grpc) == Receiver(routes, header, path, grpc);
  }

  /** The receiver of every request is independent of the order of the table if and only if
      no two owners hold entries that match exactly the same requests. */
  lemma OrderFreeExactlyWhenOneOwner(routes: seq<Route>)
    ensures OrderFree(routes) <==> OneOwnerPerMatch(routes)
  {
    if OneOwnerPerMatch(routes) {
      forall perm: seq<Route>, header: string, path: string, grpc: bool | multiset(perm) == multiset(routes)
        ensures Receiver(perm, header, path, grpc) == Receiver(routes, header, path, grpc)
      {
        OneOwnerGivesSameReceiver(perm, routes, header, path, grpc);
      }
    }
    if OrderFree(routes) {
      forall i, j | 0 <= i < |routes| && 0 <= j < |routes| && SameMatch(routes[i], routes[j])
        ensures routes[i].owner == routes[j].owner
      {
        OrderFreeGivesOneOwner(routes, i, j);
      }
    }
  }
}
