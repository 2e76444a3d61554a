/** The proxy's routing table: internal/proxy/config.go. */
module ProxyConfig {
  import opened Base

  const PROTOCOL_GRPC := "grpc"

  datatype SessionPersistence = SessionPersistence(
    kind: string,
    sessionName: string,
    absoluteText: string, // a Go duration, "" when unset
    idleText: string,
    absoluteTimeout: int, // nanoseconds, filled in by Parse
    idleTimeout: int,
    lifetimeType: string)

  datatype Backend = Backend(service: string, weight: int, id: string)

  datatype Route = Route(
    hostname: string,
    pathPrefix: string,
    protocol: string,
    owner: string,
    ownerKind: string,
    backends: seq<Backend>,
    session: Option<SessionPersistence>,
    totalWeight: int)

  /** Sum of the first n weights, without overflow. */
  function WeightBefore(backends: seq<Backend>, n: nat): int
    requires n <= |backends|
  {
    if n == 0 then 0 else WeightBefore(backends, n - 1) + backends[n - 1].weight
  }

  function TotalWeight(backends: seq<Backend>): int {
    WeightBefore(backends, |backends|)
  }

  /** Indices below n of the routes for a hostname, in table order. */
  function RoutesFor(routes: seq<Route>, host: string, n: nat): (indices: seq<nat>)
    requires n <= |routes|
    ensures forall k :: 0 <= k < |indices| ==> indices[k] < n && routes[indices[k]].hostname == host
  {
    if n == 0 then []
    else RoutesFor(routes, host, n - 1) + if routes[n - 1].hostname == host then [n - 1] else []
  }

  /** The hostname index lists every route of a hostname once, in increasing order. */
  lemma {:induction false} RoutesForIsComplete(routes: seq<Route>, host: string, n: nat)
    requires n <= |routes|
    ensures var indices := RoutesFor(routes, host, n);
            && (forall i :: 0 <= i < n && routes[i].hostname == host ==> i in indices)
            && (forall a, b :: 0 <= a < b < |indices| ==> indices[a] < indices[b])
  {
    if n > 0 { RoutesForIsComplete(routes, host, n - 1); }
  }

  /** The backend ID for a service, None for an invalid URL; and the value of a duration text,
      None when it does not parse. */
  datatype Parsers = Parsers(backendID: string -> Option<string>, duration: string -> Option<int>)

  predicate TimeoutParses(text: string, p: Parsers) {
    text == "" || p.duration(text).Some?
  }

  predicate SessionParses(session: Option<SessionPersistence>, p: Parsers) {
    session.Some? ==> TimeoutParses(session.value.absoluteText, p) && TimeoutParses(session.value.idleText, p)
  }

  predicate RouteParses(route: Route, p: Parsers) {
    && SessionParses(route.session, p)
    && forall j :: 0 <= j < |route.backends| ==> p.backendID(route.backends[j].service).Some?
  }

  predicate Parses(routes: seq<Route>, p: Parsers) {
    forall i :: 0 <= i < |routes| ==> RouteParses(routes[i], p)
  }

  /** What Parse computes for one route. */
  function ParsedBackends(backends: seq<Backend>, p: Parsers): (r: seq<Backend>)
    requires forall j :: 0 <= j < |backends| ==> p.backendID(backends[j].service).Some?
    ensures |r| == |backends|
    ensures forall j :: 0 <= j < |r| ==> r[j] == backends[j].(id := p.backendID(backends[j].service).value)
  {
    seq(|backends|, j requires 0 <= j < |backends| => backends[j].(id := p.backendID(backends[j].service).value))
  }

  function ParsedTimeout(text: string, before: int, p: Parsers): int
    requires TimeoutParses(text, p)
  {
    if text == "" then before else p.duration(text).value
  }

  function ParsedSession(session: Option<SessionPersistence>, p: Parsers): Option<SessionPersistence>
    requires SessionParses(session, p)
  {
    if session.None? then None else
    var sp := session.value;
    Some(sp.(absoluteTimeout := ParsedTimeout(sp.absoluteText, sp.absoluteTimeout, p),
             idleTimeout := ParsedTimeout(sp.idleText, sp.idleTimeout, p)))
  }

  function ParsedRoute(route: Route, p: Parsers): Route
    requires RouteParses(route, p)
  {
    route.(backends := ParsedBackends(route.backends, p),
           totalWeight := Wrap32(TotalWeight(route.backends)),
           session := ParsedSession(route.session, p))
  }

  /** Each timeout comes from its own text; everything else of the session is as configured. */
  lemma ParsedSessionMeans(sp: SessionPersistence, p: Parsers)
    requires SessionParses(Some(sp), p)
    ensures var parsed := ParsedSession(Some(sp), p).value;
            && (sp.absoluteText != "" ==> p.duration(sp.absoluteText) == Some(parsed.absoluteTimeout))
            && (sp.absoluteText == "" ==> parsed.absoluteTimeout == sp.absoluteTimeout)
            && (sp.idleText != "" ==> p.duration(sp.idleText) == Some(parsed.idleTimeout))
            && (sp.idleText == "" ==> parsed.idleTimeout == sp.idleTimeout)
            && parsed == sp.(absoluteTimeout := parsed.absoluteTimeout, idleTimeout := parsed.idleTimeout)
  {
  }

  lemma WrapStep(s: int, w: int)
    ensures Wrap32(Wrap32(s) + w) == Wrap32(s + w)
  {
  }

  /** The table the proxy loads; Parse fills the derived fields in place. */
  class Config {
    var routes: seq<Route>
    var routesByHost: map<string, seq<nat>>

    constructor (rs: seq<Route>)
      ensures routes == rs && routesByHost == map[]
    {
      routes := rs;
      routesByHost := map[];
    }

    /** routesByHost[host]: the empty list for a hostname without an entry. */
    function Lookup(host: string): seq<nat>
      reads this
    {
      if host in routesByHost then routesByHost[host] else []
    }

    /** The hostname index agrees with the table. */
    ghost predicate Indexed()
      reads this
    {
      forall host :: Lookup(host) == RoutesFor(routes, host, |routes|)
    }

    /** Config.Parse: backend IDs, total weights (an int32 sum), timeouts and the hostname
        index; it fails, leaving the index as it was, when some URL or duration is invalid. */
    method Parse(p: Parsers) returns (ok: bool)
      modifies this
      ensures ok <==> Parses(old(routes), p)
      ensures ok ==> |routes| == |old(routes)| && forall i :: 0 <= i < |routes| ==> routes[i] == ParsedRoute(old(routes)[i], p)
      ensures ok ==> Indexed()
      ensures !ok ==> routesByHost == old(routesByHost)
    {
      var i := 0;
      while i < |routes|
        invariant 0 <= i <= |routes| == |old(routes)|
        invariant forall k :: 0 <= k < i ==> RouteParses(old(routes)[k], p) && routes[k] == ParsedRoute(old(routes)[k], p)
        invariant forall k :: i <= k < |routes| ==> routes[k] == old(routes)[k]
        invariant routesByHost == old(routesByHost)
      {
        var parsed := ParseRoute(routes[i], p);
        if parsed.None? {
          return false;
        }
        routes := routes[i := parsed.value];
        i := i + 1;
      }
      BuildIndex();
      ok := true;
    }

    static method ParseRoute(route: Route, p: Parsers) returns (parsed: Option<Route>)
      ensures parsed == if RouteParses(route, p) then Some(ParsedRoute(route, p)) else None
    {
      var totalWeight := 0;
      var backends := route.backends;
      var j := 0;
      while j < |backends|
        invariant 0 <= j <= |backends| == |route.backends|
        invariant totalWeight == Wrap32(WeightBefore(route.backends, j))
        invariant forall k :: 0 <= k < j ==>
                    && p.backendID(route.backends[k].service).Some?
                    && backends[k] == route.backends[k].(id := p.backendID(route.backends[k].service).value)
        invariant forall k :: j <= k < |backends| ==> backends[k] == route.backends[k]
      {
        var b := backends[j];
        var id := p.backendID(b.service);
        if id.None? {
          return None;
        }
        backends := backends[j := b.(id := id.value)];
        WrapStep(WeightBefore(route.backends, j), b.weight);
        totalWeight := Wrap32(totalWeight + b.weight);
        j := j + 1;
      }
      var session := route.session;
      if session.Some? {
        var sp := session.value;
        if sp.absoluteText != "" {
          var d := p.duration(sp.absoluteText);
          if d.None? {
            return None;
          }
          sp := sp.(absoluteTimeout := d.value);
        }
        if sp.idleText != "" {
          var d := p.duration(sp.idleText);
          if d.None? {
            return None;
          }
          sp := sp.(idleTimeout := d.value);
        }
        session := Some(sp);
      }
      assert backends == ParsedBackends(route.backends, p);
      return Some(route.(backends := backends, totalWeight := totalWeight, session := session));
    }

    method BuildIndex()
      modifies this`routesByHost
      ensures Indexed()
    {
      routesByHost := map[];
      var i := 0;
      while i < |routes|
        invariant 0 <= i <= |routes|
        invariant forall host :: Lookup(host) == RoutesFor(routes, host, i)
      {
        var h := routes[i].hostname;
        routesByHost := routesByHost[h := Lookup(h) + [i]];
        i := i + 1;
      }
    }
  }
}
