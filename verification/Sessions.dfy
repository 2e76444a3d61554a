/** Session persistence over runs of requests: resolveSession, needsSessionCookie,
    setSessionCookie and cookieMaxAge of internal/proxy/proxy.go.

    Clock readings are Unix seconds, one per request, and timeouts are nanoseconds;
    conversions between them wrap as Go's int64 arithmetic does. */
module Sessions {
  import opened Base
  import opened ProxyConfig
  import opened SessionCookie
  import opened WeightedPick

  /** The last Unix second whose distance from the epoch a Duration can hold. */
  const MAX_CLOCK := 9_223_372_036

  // ---------- One request ----------

  /** How a session is written into a cookie and read back. */
  datatype Codec = Codec(write: (string, int, Option<int>) -> string, read: string -> Option<Session>)

  /** The codec of the source. */
  const COOKIE_CODEC := Codec(CookieValue, ParseCookie)

  /** All that session persistence needs of a codec. */
  ghost predicate RoundTrips(codec: Codec) {
    forall id: string, createdAt: int, activity: Option<int> ::
      '.' !in id && Int64(createdAt) && (activity.Some? ==> Int64(activity.value)) ==>
        codec.read(codec.write(id, createdAt, activity)) == Some(Written(id, createdAt, activity))
  }

  /** The source's cookies round-trip, so everything below holds of them. */
  lemma CookieCodecRoundTrips()
    ensures RoundTrips(COOKIE_CODEC)
  {
    forall id: string, createdAt: int, activity: Option<int> |
      '.' !in id && Int64(createdAt) && (activity.Some? ==> Int64(activity.value))
      ensures COOKIE_CODEC.read(COOKIE_CODEC.write(id, createdAt, activity)) == Some(Written(id, createdAt, activity))
    {
      ParseUndoesPrint(id, createdAt, activity);
    }
  }

  /** The first backend from index i on with the given ID and a positive weight. */
  function FindFrom(backends: seq<Backend>, id: string, i: nat): (r: Option<nat>)
    requires i <= |backends|
    ensures r.Some? ==> i <= r.value < |backends| && backends[r.value].id == id && backends[r.value].weight > 0
    ensures r.None? ==> forall k :: i <= k < |backends| ==> backends[k].id != id || backends[k].weight <= 0
    decreases |backends| - i
  {
    if i == |backends| then None
    else if backends[i].id == id && backends[i].weight > 0 then Some(i)
    else FindFrom(backends, id, i + 1)
  }

  /** findBackendByID */
  method FindBackendByID(route: Route, id: string) returns (r: Option<nat>)
    ensures r == FindFrom(route.backends, id, 0)
  {
    var i := 0;
    while i < |route.backends|
      invariant 0 <= i <= |route.backends|
      invariant FindFrom(route.backends, id, i) == FindFrom(route.backends, id, 0)
    {
      if route.backends[i].id == id && route.backends[i].weight > 0 {
        return Some(i);
      }
      i := i + 1;
    }
    return None;
  }

  /** time.Duration(now - since) * time.Second */
  function Elapsed(now: int, since: int): int {
    Wrap64(Wrap64(now - since) * SECOND)
  }

  predicate WithinTimeouts(sp: SessionPersistence, s: Session, now: int) {
    && (sp.absoluteTimeout > 0 ==> Elapsed(now, s.createdAt) <= sp.absoluteTimeout)
    && (sp.idleTimeout > 0 ==> Elapsed(now, s.lastActivity) <= sp.idleTimeout)
  }

  datatype Hit = Hit(backend: nat, createdAt: int)

  /** resolveSession: `cookie` is the request's session cookie, `header` its session header. */
  function ResolveSession(codec: Codec, route: Route, cookie: Option<string>, header: string, now: int): Option<Hit>
    requires route.session.Some?
  {
    var sp := route.session.value;
    if sp.kind == "Cookie" then
      if cookie.None? then None else
      var parsed := codec.read(cookie.value);
      if parsed.None? || !WithinTimeouts(sp, parsed.value, now) then None else
      var backend := FindFrom(route.backends, parsed.value.backendID, 0);
      if backend.None? then None else Some(Hit(backend.value, parsed.value.createdAt))
    else if sp.kind == "Header" then
      if header == "" then None else
      var backend := FindFrom(route.backends, header, 0);
      if backend.None? then None else Some(Hit(backend.value, 0))
    else None
  }

  predicate UsesCookie(route: Route) {
    route.session.Some? && route.session.value.kind == "Cookie"
  }

  /** needsSessionCookie */
  predicate NeedsCookie(route: Route, hit: bool) {
    UsesCookie(route) && (!hit || route.session.value.idleTimeout > 0)
  }

  /** int(d.Seconds()) for a positive duration. */
  function WholeSeconds(d: int): int
    requires d > 0
  {
    d / SECOND
  }

  /** cookieMaxAge */
  function MaxAge(sp: SessionPersistence, createdAt: int, now: int): int {
    if sp.absoluteTimeout > 0 && sp.idleTimeout > 0 then
      var remaining := Wrap64(WholeSeconds(sp.absoluteTimeout) - Wrap64(now - createdAt));
      var idle := WholeSeconds(sp.idleTimeout);
      if remaining < idle then remaining else idle
    else if sp.absoluteTimeout > 0 then WholeSeconds(sp.absoluteTimeout)
    else if sp.idleTimeout > 0 then WholeSeconds(sp.idleTimeout)
    else 0
  }

  /** A minted cookie; a Max-Age of 0 means that the attribute is absent. */
  datatype Cookie = Cookie(value: string, maxAge: int)

  datatype Response =
    | NoBackend
    | Served(backend: nat, hit: bool, createdAt: int, cookie: Option<Cookie>)

  /** setSessionCookie */
  function Mint(codec: Codec, route: Route, backend: nat, hit: bool, sessionCreatedAt: int, now: int): Cookie
    requires route.session.Some? && backend < |route.backends|
  {
    var sp := route.session.value;
    var createdAt := if hit then sessionCreatedAt else now;
    Cookie(
      codec.write(route.backends[backend].id, createdAt, if sp.idleTimeout > 0 then Some(now) else None),
      if sp.lifetimeType == "Permanent" then MaxAge(sp, createdAt, now) else 0)
  }

  /** resolveBackend on a matched route, and the cookie ServeHTTP or RoundTrip sets. */
  function Serve(codec: Codec, route: Route, cookie: Option<string>, header: string, now: int, draw: int): (r: Response)
    ensures r.Served? ==> r.backend < |route.backends|
  {
    var session := if route.session.Some? then ResolveSession(codec, route, cookie, header, now) else None;
    var picked := if session.Some? then Some(session.value.backend)
                  else Pick(route.backends, route.totalWeight, draw);
    if picked.None? then NoBackend else
    var hit := session.Some?;
    var createdAt := if hit then session.value.createdAt else 0;
    Served(picked.value, hit, createdAt,
           if NeedsCookie(route, hit) then Some(Mint(codec, route, picked.value, hit, createdAt, now)) else None)
  }

  /** The elapsed time of two clock readings does not wrap. */
  lemma ElapsedIsExact(now: int, since: int)
    requires 0 <= since <= MAX_CLOCK && 0 <= now <= MAX_CLOCK
    ensures Elapsed(now, since) == (now - since) * SECOND
  {
  }

  /** The session a printed cookie stands for is still usable on a route. */
  predicate Usable(route: Route, id: string, createdAt: int, lastActivity: int, now: int)
    requires route.session.Some?
  {
    var sp := route.session.value;
    && (sp.absoluteTimeout > 0 ==> (now - createdAt) * SECOND <= sp.absoluteTimeout)
    && (sp.idleTimeout > 0 ==> (now - lastActivity) * SECOND <= sp.idleTimeout)
    && FindFrom(route.backends, id, 0).Some?
  }

  /** A printed cookie is a hit exactly when its session is still usable. */
  lemma {:induction false} PrintedCookieHits(codec: Codec, route: Route, id: string, createdAt: int, activity: Option<int>, header: string, now: int)
    requires RoundTrips(codec) && UsesCookie(route) && '.' !in id
    requires 0 <= createdAt <= MAX_CLOCK && 0 <= Written(id, createdAt, activity).lastActivity <= MAX_CLOCK && 0 <= now <= MAX_CLOCK
    ensures ResolveSession(codec, route, Some(codec.write(id, createdAt, activity)), header, now)
            == if Usable(route, id, createdAt, Written(id, createdAt, activity).lastActivity, now)
               then Some(Hit(FindFrom(route.backends, id, 0).value, createdAt)) else None
  {
    ElapsedIsExact(now, createdAt);
    ElapsedIsExact(now, Written(id, createdAt, activity).lastActivity);
  }

  // ---------- Runs of requests that return the last minted cookie ----------

  /** The route may change from request to request, as the table may. */
  datatype Request = Request(route: Route, now: int, header: string, draw: int)

  ghost predicate ValidRun(run: seq<Request>) {
    && (forall i :: 0 <= i < |run| ==> 0 <= run[i].now <= MAX_CLOCK)
    && (forall i, b :: 0 <= i < |run| && 0 <= b < |run[i].route.backends| ==> '.' !in run[i].route.backends[b].id)
    && (forall i :: 0 <= i < |run| && run[i].route.session.Some? ==>
                      Int64(run[i].route.session.value.absoluteTimeout) && Int64(run[i].route.session.value.idleTimeout))
  }

  /** The cookie the client holds before request i. */
  function Jar(codec: Codec, run: seq<Request>, i: nat): Option<string>
    requires i <= |run|
    decreases i, 0
  {
    if i == 0 then None else
    var r := Reply(codec, run, i - 1);
    if r.Served? && r.cookie.Some? then Some(r.cookie.value.value) else Jar(codec, run, i - 1)
  }

  function Reply(codec: Codec, run: seq<Request>, i: nat): (r: Response)
    requires i < |run|
    ensures r.Served? ==> r.backend < |run[i].route.backends|
    decreases i, 1
  {
    var q := run[i];
    Serve(codec, q.route, Jar(codec, run, i), q.header, q.now, q.draw)
  }

  /** Request i was served from a session. */
  predicate Hits(codec: Codec, run: seq<Request>, i: nat)
    requires i < |run|
  {
    Reply(codec, run, i).Served? && Reply(codec, run, i).hit
  }

  /** Request i is given a cookie. */
  predicate Mints(codec: Codec, run: seq<Request>, i: nat)
    requires i < |run|
  {
    Reply(codec, run, i).Served? && Reply(codec, run, i).cookie.Some?
  }

  /** The request that started the session the held cookie belongs to. */
  function Anchor(codec: Codec, run: seq<Request>, i: nat): (m: Option<nat>)
    requires i <= |run|
    ensures m.Some? ==> m.value < i && Reply(codec, run, m.value).Served?
  {
    if i == 0 then None else
    var r := Reply(codec, run, i - 1);
    if r.Served? && r.cookie.Some? && !r.hit then Some(i - 1) else Anchor(codec, run, i - 1)
  }

  /** The activity marker in the held cookie. */
  function Activity(codec: Codec, run: seq<Request>, i: nat): Option<int>
    requires i <= |run|
  {
    if i == 0 then None else
    var r := Reply(codec, run, i - 1);
    if r.Served? && r.cookie.Some? then
      if UsesCookie(run[i - 1].route) && run[i - 1].route.session.value.idleTimeout > 0 then Some(run[i - 1].now) else None
    else Activity(codec, run, i - 1)
  }

  /** The ID of the backend that request m was sent to. */
  function ServedID(codec: Codec, run: seq<Request>, m: nat): string
    requires m < |run| && Reply(codec, run, m).Served?
  {
    run[m].route.backends[Reply(codec, run, m).backend].id
  }

  /** When the session was last active, as far as the held cookie tells. */
  function LastSeen(codec: Codec, run: seq<Request>, i: nat, m: nat): int
    requires i <= |run| && m < |run|
  {
    var a := Activity(codec, run, i);
    if a.Some? then a.value else run[m].now
  }

  /** The jar holds a cookie exactly when a session is anchored, and then one the proxy
      printed for the anchoring request's backend and time. */
  ghost predicate Anchored(codec: Codec, run: seq<Request>, i: nat)
    requires i <= |run|
  {
    match Anchor(codec, run, i)
    case None => Jar(codec, run, i).None?
    case Some(m) =>
      && Jar(codec, run, i) == Some(codec.write(ServedID(codec, run, m), run[m].now, Activity(codec, run, i)))
      && 0 <= LastSeen(codec, run, i, m) <= MAX_CLOCK
  }

  /** Request i hits the session that request m anchored. */
  ghost predicate HitsAnchor(codec: Codec, run: seq<Request>, i: nat, m: nat)
    requires i < |run| && m < |run| && Reply(codec, run, m).Served?
  {
    var r := Reply(codec, run, i);
    && r.Served? && r.hit
    && run[i].route.backends[r.backend].id == ServedID(codec, run, m)
    && run[i].route.backends[r.backend].weight > 0
    && r.createdAt == run[m].now
  }

  lemma {:induction false} CookieRequest(codec: Codec, run: seq<Request>, i: nat)
    requires RoundTrips(codec) && ValidRun(run) && i < |run| && UsesCookie(run[i].route) && Anchored(codec, run, i)
    ensures match Anchor(codec, run, i)
            case None => !Hits(codec, run, i)
            case Some(m) =>
              if Usable(run[i].route, ServedID(codec, run, m), run[m].now, LastSeen(codec, run, i, m), run[i].now)
              then HitsAnchor(codec, run, i, m)
              else !Hits(codec, run, i)
  {
    var q := run[i];
    match Anchor(codec, run, i) {
      case None =>
      case Some(m) =>
        PrintedCookieHits(codec, q.route, ServedID(codec, run, m), run[m].now, Activity(codec, run, i), q.header, q.now);
    }
  }

  /** A request that mints nothing leaves the jar as it is. */
  lemma UnmintedStaysAnchored(codec: Codec, run: seq<Request>, i: nat)
    requires ValidRun(run) && i < |run| && Anchored(codec, run, i)
    requires !Mints(codec, run, i)
    ensures Anchored(codec, run, i + 1)
  {
  }

  /** A miss anchors a new session, a hit rewrites the cookie of the old one. */
  lemma MintedIsAnchored(codec: Codec, run: seq<Request>, i: nat)
    requires RoundTrips(codec) && ValidRun(run) && i < |run| && Anchored(codec, run, i)
    requires Mints(codec, run, i)
    ensures Anchored(codec, run, i + 1)
  {
    if Reply(codec, run, i).hit {
      CookieRequest(codec, run, i);
    }
  }

  lemma {:induction false} JarIsAnchored(codec: Codec, run: seq<Request>, i: nat)
    requires RoundTrips(codec) && ValidRun(run) && i <= |run|
    ensures Anchored(codec, run, i)
  {
    if i > 0 {
      JarIsAnchored(codec, run, i - 1);
      if Mints(codec, run, i - 1) {
        MintedIsAnchored(codec, run, i - 1);
      } else {
        UnmintedStaysAnchored(codec, run, i - 1);
      }
    }
  }

  /** Session safety. On a route with cookie persistence a request hits a session exactly
      when some earlier miss anchored one, both timeouts still hold, and the anchoring
      backend still has a positive weight; it is then sent to that backend, and the session
      keeps the anchor's creation time. */
  lemma {:induction false} HitsKeepTheAnchor(codec: Codec, run: seq<Request>, i: nat)
    requires RoundTrips(codec) && ValidRun(run) && i < |run| && UsesCookie(run[i].route)
    ensures match Anchor(codec, run, i)
            case None => !Hits(codec, run, i)
            case Some(m) =>
              if Usable(run[i].route, ServedID(codec, run, m), run[m].now, LastSeen(codec, run, i, m), run[i].now)
              then HitsAnchor(codec, run, i, m)
              else !Hits(codec, run, i)
  {
    JarIsAnchored(codec, run, i);
    CookieRequest(codec, run, i);
  }

  /** A hit belongs to the anchored session. */
  lemma {:induction false} HitFollowsAnchor(codec: Codec, run: seq<Request>, i: nat)
    requires RoundTrips(codec) && ValidRun(run) && i < |run| && UsesCookie(run[i].route)
    requires Hits(codec, run, i)
    ensures Anchor(codec, run, i).Some?
    ensures var m := Anchor(codec, run, i).value;
            ServedID(codec, run, i) == ServedID(codec, run, m) && Reply(codec, run, i).createdAt == run[m].now
  {
    HitsKeepTheAnchor(codec, run, i);
  }

  /** A hit starts no new session. */
  lemma HitKeepsAnchor(codec: Codec, run: seq<Request>, i: nat)
    requires i < |run| && Hits(codec, run, i)
    ensures Anchor(codec, run, i + 1) == Anchor(codec, run, i)
  {
  }

  /** Along consecutive hits no new session is anchored. */
  lemma {:induction false} ConsecutiveHitsKeepAnchor(codec: Codec, run: seq<Request>, i: nat, j: nat)
    requires i <= j < |run| && forall k :: i <= k < j ==> Hits(codec, run, k)
    ensures Anchor(codec, run, i) == Anchor(codec, run, j)
    decreases j - i
  {
    if i < j {
      ConsecutiveHitsKeepAnchor(codec, run, i, j - 1);
      HitKeepsAnchor(codec, run, j - 1);
    }
  }

  /** Along consecutive hits neither the backend nor the creation time changes. */
  lemma {:induction false} ConsecutiveHitsAgree(codec: Codec, run: seq<Request>, i: nat, j: nat)
    requires RoundTrips(codec) && ValidRun(run) && i <= j < |run|
    requires forall k :: i <= k <= j ==>
                           UsesCookie(run[k].route) && Hits(codec, run, k)
    ensures Hits(codec, run, i) && Hits(codec, run, j)
    ensures ServedID(codec, run, i) == ServedID(codec, run, j)
    ensures Reply(codec, run, i).createdAt == Reply(codec, run, j).createdAt
  {
    ConsecutiveHitsKeepAnchor(codec, run, i, j);
    HitFollowsAnchor(codec, run, i);
    HitFollowsAnchor(codec, run, j);
  }

  /** With an idle timeout every served request refreshes the activity marker, so the next
      hit comes within the idle timeout of it. */
  lemma IdleTimeoutIsRefreshed(codec: Codec, run: seq<Request>, i: nat)
    requires RoundTrips(codec) && ValidRun(run) && 0 < i < |run|
    requires UsesCookie(run[i - 1].route) && run[i - 1].route.session.value.idleTimeout > 0
    requires UsesCookie(run[i].route) && run[i].route.session.value.idleTimeout > 0
    requires Reply(codec, run, i - 1).Served? && Hits(codec, run, i)
    ensures (run[i].now - run[i - 1].now) * SECOND <= run[i].route.session.value.idleTimeout
  {
    HitsKeepTheAnchor(codec, run, i);
    assert Activity(codec, run, i) == Some(run[i - 1].now);
  }

  // ---------- Sessions start, are refreshed and last ----------

  /** What a request leaves in the jar of a route with cookie persistence: after a served miss, a
      cookie for the backend it went to and the time; after a hit, the same session with a new
      activity marker when an idle timeout is configured, and otherwise what was there. */
  lemma {:induction false} ServedRequestKeepsJar(codec: Codec, run: seq<Request>, i: nat)
    requires i < |run| && run[i].route.session.Some? && run[i].route.session.value.kind == "Cookie"
    requires Reply(codec, run, i).Served?
    ensures var r, idle := Reply(codec, run, i), run[i].route.session.value.idleTimeout > 0;
            var id := run[i].route.backends[r.backend].id;
            && (!r.hit ==> Jar(codec, run, i + 1) == Some(codec.write(id, run[i].now, if idle then Some(run[i].now) else None)))
            && (r.hit && idle ==> Jar(codec, run, i + 1) == Some(codec.write(id, r.createdAt, Some(run[i].now))))
            && (r.hit && !idle ==> Jar(codec, run, i + 1) == Jar(codec, run, i))
  {
  }

  /** A hit on a cookie route belongs to an earlier served miss: it keeps that request's time as its
      creation, comes within the absolute timeout of it, and goes to its backend, whose weight is
      positive. */
  lemma HitMeans(codec: Codec, run: seq<Request>, i: nat) returns (m: nat)
    requires RoundTrips(codec) && ValidRun(run) && i < |run|
    requires run[i].route.session.Some? && run[i].route.session.value.kind == "Cookie" && Reply(codec, run, i).Served? && Reply(codec, run, i).hit
    ensures m < i && Reply(codec, run, m).Served? && !Reply(codec, run, m).hit
    ensures var r, sp := Reply(codec, run, i), run[i].route.session.value;
            && r.createdAt == run[m].now
            && (sp.absoluteTimeout > 0 ==> (run[i].now - run[m].now) * SECOND <= sp.absoluteTimeout)
            && run[i].route.backends[r.backend].id == run[m].route.backends[Reply(codec, run, m).backend].id
            && run[i].route.backends[r.backend].weight > 0
  {
    HitsKeepTheAnchor(codec, run, i);
    m := Anchor(codec, run, i).value;
    AnchorIsMiss(codec, run, i);
  }

  lemma {:induction false} AnchorIsMiss(codec: Codec, run: seq<Request>, i: nat)
    requires i <= |run| && Anchor(codec, run, i).Some?
    ensures !Reply(codec, run, Anchor(codec, run, i).value).hit
  {
    if i > 0 && !(Mints(codec, run, i - 1) && !Reply(codec, run, i - 1).hit) {
      AnchorIsMiss(codec, run, i - 1);
    }
  }

  /** Whatever is not a hit is drawn by weight. */
  lemma MissIsDrawn(codec: Codec, route: Route, cookie: Option<string>, header: string, now: int, draw: int)
    ensures var r, picked := Serve(codec, route, cookie, header, now, draw), Pick(route.backends, route.totalWeight, draw);
            && (r.NoBackend? ==> picked.None?)
            && (r.Served? && !r.hit ==> picked == Some(r.backend))
  {
  }

  /** No other request touches the jar: one that is not served, and one on a route without cookie
      persistence. */
  lemma OtherRequestKeepsJar(codec: Codec, run: seq<Request>, i: nat)
    requires i < |run|
    requires Reply(codec, run, i).NoBackend? || run[i].route.session.None? || run[i].route.session.value.kind != "Cookie"
    ensures Jar(codec, run, i + 1) == Jar(codec, run, i)
  {
  }

  /** Sessions last: after a miss that was served by a backend of positive weight, the next request
      on the same route that comes within both timeouts hits, goes to that backend, and keeps the
      time of the miss as the session's creation. */
  lemma SessionStartsWithMiss(codec: Codec, run: seq<Request>, i: nat)
    requires RoundTrips(codec) && ValidRun(run) && i + 1 < |run|
    requires run[i + 1].route == run[i].route && run[i].route.session.Some? && run[i].route.session.value.kind == "Cookie"
    requires Reply(codec, run, i).Served? && !Reply(codec, run, i).hit
    requires run[i].route.backends[Reply(codec, run, i).backend].weight > 0
    requires var sp, elapsed := run[i].route.session.value, (run[i + 1].now - run[i].now) * SECOND;
             && (sp.absoluteTimeout > 0 ==> elapsed <= sp.absoluteTimeout)
             && (sp.idleTimeout > 0 ==> elapsed <= sp.idleTimeout)
    ensures var r, next := Reply(codec, run, i), Reply(codec, run, i + 1);
            && next.Served? && next.hit && next.createdAt == run[i].now
            && run[i + 1].route.backends[next.backend].id == run[i].route.backends[r.backend].id
            && run[i + 1].route.backends[next.backend].weight > 0
  {
    var q, id := run[i + 1], run[i].route.backends[Reply(codec, run, i).backend].id;
    var activity := if q.route.session.value.idleTimeout > 0 then Some(run[i].now) else None;
    ServedRequestKeepsJar(codec, run, i);
    PrintedCookieHits(codec, q.route, id, run[i].now, activity, q.header, q.now);
  }

  /** With header persistence a request goes to the first backend of positive weight that its header
      names, and is drawn when there is none; it never gets a cookie. */
  lemma HeaderNamesBackend(codec: Codec, route: Route, cookie: Option<string>, header: string, now: int, draw: int)
    requires route.session.Some? && route.session.value.kind == "Header"
    ensures var r := Serve(codec, route, cookie, header, now, draw);
            if header != "" && exists b :: 0 <= b < |route.backends| && route.backends[b].id == header && route.backends[b].weight > 0
            then && r.Served? && r.hit && r.cookie.None?
                 && route.backends[r.backend].id == header && route.backends[r.backend].weight > 0
                 && forall b :: 0 <= b < r.backend ==> route.backends[b].id != header || route.backends[b].weight <= 0
            else r == var picked := Pick(route.backends, route.totalWeight, draw);
                      if picked.Some? then Served(picked.value, false, 0, None) else NoBackend
  {
    FindFromIsFirst(route.backends, header, 0);
  }

  lemma {:induction false} FindFromIsFirst(backends: seq<Backend>, id: string, i: nat)
    requires i <= |backends|
    ensures var r := FindFrom(backends, id, i);
            r.Some? ==> forall b :: i <= b < r.value ==> backends[b].id != id || backends[b].weight <= 0
    decreases |backends| - i
  {
    if i < |backends| { FindFromIsFirst(backends, id, i + 1); }
  }

  /** A route without session persistence, or of a kind the proxy does not know, draws every request
      and never sets a cookie. */
  lemma PlainRouteDraws(codec: Codec, route: Route, cookie: Option<string>, header: string, now: int, draw: int)
    requires route.session.None? || route.session.value.kind !in {"Cookie", "Header"}
    ensures Serve(codec, route, cookie, header, now, draw)
            == var picked := Pick(route.backends, route.totalWeight, draw);
               if picked.Some? then Served(picked.value, false, 0, None) else NoBackend
  {
  }

  // ---------- Max-Age ----------

  /** When the session of a minted cookie was created. */
  function CreatedAt(codec: Codec, run: seq<Request>, i: nat): int
    requires i < |run| && Reply(codec, run, i).Served?
  {
    if Reply(codec, run, i).hit then Reply(codec, run, i).createdAt else run[i].now
  }

  /** A cookie kept for n seconds outlives neither the session's creation plus the absolute timeout,
      nor the idle timeout. */
  predicate Lasts(sp: SessionPersistence, createdAt: int, now: int, n: int) {
    && (sp.absoluteTimeout > 0 ==> (now + n) * SECOND <= createdAt * SECOND + sp.absoluteTimeout)
    && (sp.idleTimeout > 0 ==> n * SECOND <= sp.idleTimeout)
  }

  /** The Max-Age of a permanent cookie is the greatest number of seconds that its configured
      timeouts allow; without a timeout, and for a session cookie, there is none. */
  lemma {:induction false} MaxAgeIsGreatest(codec: Codec, run: seq<Request>, i: nat, n: int)
    requires RoundTrips(codec) && ValidRun(run) && i < |run|
    requires Reply(codec, run, i).Served? && Reply(codec, run, i).cookie.Some?
    ensures var sp, maxAge := run[i].route.session.value, Reply(codec, run, i).cookie.value.maxAge;
            if sp.lifetimeType == "Permanent" && (sp.absoluteTimeout > 0 || sp.idleTimeout > 0)
            then Lasts(sp, CreatedAt(codec, run, i), run[i].now, n) <==> n <= maxAge
            else maxAge == 0
  {
    HitsKeepTheAnchor(codec, run, i);
    if Reply(codec, run, i).hit {
      assert Reply(codec, run, i).createdAt == run[Anchor(codec, run, i).value].now;
    }
  }

  /** A permanent cookie never asks to be kept beyond its creation plus the absolute timeout,
      and its Max-Age is never negative. */
  lemma {:induction false} MaxAgeStaysWithinAbsoluteTimeout(codec: Codec, run: seq<Request>, i: nat)
    requires RoundTrips(codec) && ValidRun(run) && i < |run|
    requires Reply(codec, run, i).Served? && Reply(codec, run, i).cookie.Some?
    ensures var sp, maxAge := run[i].route.session.value, Reply(codec, run, i).cookie.value.maxAge;
            && maxAge >= 0
            && (sp.absoluteTimeout > 0 ==>
                  (run[i].now + maxAge) * SECOND <= CreatedAt(codec, run, i) * SECOND + sp.absoluteTimeout)
  {
    HitsKeepTheAnchor(codec, run, i);
    var sp := run[i].route.session.value;
    if Reply(codec, run, i).hit {
      var m := Anchor(codec, run, i).value;
      assert Reply(codec, run, i).createdAt == run[m].now;
    }
  }

  /** The attribute is dropped, so that the cookie loses its permanence, exactly when a
      configured timeout has less than one whole second left. */
  lemma {:induction false} MaxAgeIsDroppedExactlyWhenExhausted(codec: Codec, run: seq<Request>, i: nat)
    requires RoundTrips(codec) && ValidRun(run) && i < |run|
    requires Reply(codec, run, i).Served? && Reply(codec, run, i).cookie.Some?
    requires run[i].route.session.value.lifetimeType == "Permanent"
    ensures var sp := run[i].route.session.value;
            Reply(codec, run, i).cookie.value.maxAge == 0 <==>
            || (sp.absoluteTimeout <= 0 && sp.idleTimeout <= 0)
            || (sp.absoluteTimeout > 0
                && CreatedAt(codec, run, i) * SECOND + sp.absoluteTimeout - run[i].now * SECOND < SECOND)
            || (0 < sp.idleTimeout < SECOND)
  {
    MaxAgeStaysWithinAbsoluteTimeout(codec, run, i);
    HitsKeepTheAnchor(codec, run, i);
    if Reply(codec, run, i).hit {
      var m := Anchor(codec, run, i).value;
      assert Reply(codec, run, i).createdAt == run[m].now;
    }
  }

  /** An hour of absolute and ten minutes of idle timeout, with permanent cookies. */
  function HourRoute(id: string): Route {
    Route("h", "/", "", "ns/r", "HTTPRoute", [Backend("http://s", 1, id)],
          Some(SessionPersistence("Cookie", "session", "1h", "10m", 3600 * SECOND, 600 * SECOND, "Permanent")), 1)
  }

  /** An input for that: a request in the last second of the hour is served from its session, and
      the cookie it gets back has no Max-Age. */
  lemma LastSecondLosesMaxAge(codec: Codec, id: string)
    requires RoundTrips(codec) && '.' !in id
    ensures var r := Serve(codec, HourRoute(id), Some(codec.write(id, 0, Some(3000))), "", 3600, 0);
            r.Served? && r.hit && r.cookie.Some? && r.cookie.value.maxAge == 0
  {
    PrintedCookieHits(codec, HourRoute(id), id, 0, Some(3000), "", 3600);
    assert FindFrom(HourRoute(id).backends, id, 0) == Some(0);
  }
}
