/** Convergence of the route claim table for a fixed route list with fixed grants: three passes
    reach a fixed point, and two do when all backends are granted. */
module ClaimConvergence {
  import opened Base
  import opened ProxyConfig
  import opened RouteObjects
  import opened RouteClaims

  /** The table after one pass: find conflicts, drop them, rebuild the table. */
  function Next(table: Option<seq<Route>>, routes: seq<RouteObject>): Option<seq<Route>> {
    Some(BuiltConfig(Accepted(table, routes)))
  }

  /** Namespaces are slash-free. */
  ghost predicate Named(routes: seq<RouteObject>) {
    forall i :: 0 <= i < |routes| ==> '/' !in routes[i].key.namespace
  }

  /** Every rule has backends, all of them granted. */
  ghost predicate AllServed(routes: seq<RouteObject>) {
    forall i :: 0 <= i < |routes| ==> FullyServed(routes[i])
  }

  lemma OwnerStringInjective(k: RouteKey, l: RouteKey)
    requires '/' !in k.namespace && '/' !in l.namespace && OwnerString(k) == OwnerString(l)
    ensures k == l
  {
    OwnerParsesBack("", k);
    OwnerParsesBack("", l);
  }

  /** Some route of this namespace and name has an entry for the key. */
  ghost predicate ServedBy(routes: seq<RouteObject>, owner: RouteKey, key: HostnamePathKey) {
    exists i :: 0 <= i < |routes| && routes[i].key == owner && Serves(routes[i], key)
  }

  /** A key claimed after a pass is served by its claimant, which won all its keys in that pass. */
  lemma ClaimAfterPass(table: Option<seq<Route>>, routes: seq<RouteObject>, key: HostnamePathKey)
    requires Named(routes) && key in InitialClaims(Next(table, routes))
    ensures var owner := InitialClaims(Next(table, routes))[key].key;
            Wins(table, routes, owner) && ServedBy(routes, owner, key)
  {
    var kept := Accepted(table, routes);
    AcceptedExactlyWhenWinning(table, routes);
    var entries := BuiltConfig(kept);
    BuiltIsOwned(kept);
    var a := ClaimComesFromEntry(entries, |entries|, key);
    var i := EntryHasRoute(kept, |kept|, a);
    assert kept[i] in routes;
    var j :| 0 <= j < |routes| && routes[j] == kept[i];
    OwnerStringInjective(kept[i].key, InitialClaims(Next(table, routes))[key].key);
  }

  /** Every key that a winner serves is claimed by it after the pass. */
  lemma WinnerHoldsServedKeys(table: Option<seq<Route>>, routes: seq<RouteObject>, owner: RouteKey, key: HostnamePathKey)
    requires Named(routes) && ServedBy(routes, owner, key) && Wins(table, routes, owner)
    ensures HeldBy(Next(table, routes), key, owner)
  {
    var i :| 0 <= i < |routes| && routes[i].key == owner && Serves(routes[i], key);
    var kept := Accepted(table, routes);
    AcceptedExactlyWhenWinning(table, routes);
    assert routes[i] in kept;
    var j :| 0 <= j < |kept| && kept[j] == routes[i];
    var a := ServedKeyHasEntry(kept, |kept|, j, key);
    BuiltIsOwned(kept);
    PassGivesSingleOwner(table, routes, kept);
    InitialClaimOf(BuiltConfig(kept), a);
    var b := ClaimComesFromEntry(BuiltConfig(kept), |BuiltConfig(kept)|, key);
    OwnerStringInjective(owner, InitialClaims(Next(table, routes))[key].key);
  }

  /** The table gives the key to the owner. */
  predicate HeldBy(table: Option<seq<Route>>, key: HostnamePathKey, owner: RouteKey) {
    key in InitialClaims(table) && InitialClaims(table)[key].key == owner
  }

  /** Every key that the table gives to a route is one that the route serves. */
  ghost predicate Backed(table: Option<seq<Route>>, routes: seq<RouteObject>) {
    forall i, key :: 0 <= i < |routes| && key in KeysOf(routes[i]) && HeldBy(table, key, routes[i].key) ==>
                       ServedBy(routes, routes[i].key, key)
  }

  /** Any table is backed when all backends are granted. */
  lemma ServedTablesAreBacked(table: Option<seq<Route>>, routes: seq<RouteObject>)
    requires AllServed(routes)
    ensures Backed(table, routes)
  {
    forall i, key | 0 <= i < |routes| && key in KeysOf(routes[i])
      ensures ServedBy(routes, routes[i].key, key)
    {
      FullyServedServes(routes[i], key);
    }
  }

  /** A table that a pass wrote is backed. */
  lemma WrittenTablesAreBacked(table: Option<seq<Route>>, routes: seq<RouteObject>)
    requires Named(routes)
    ensures Backed(Next(table, routes), routes)
  {
    forall i, key | 0 <= i < |routes| && HeldBy(Next(table, routes), key, routes[i].key)
      ensures ServedBy(routes, routes[i].key, key)
    {
      ClaimAfterPass(table, routes, key);
    }
  }

  lemma ClaimantIsUnique(table: Option<seq<Route>>, routes: seq<RouteObject>, key: HostnamePathKey, owner: RouteKey)
    requires Named(routes) && key in InitialClaims(Next(table, routes))
    requires Claimant(InitialClaims(table), routes, |routes|, key) == Some(owner)
    ensures InitialClaims(Next(table, routes))[key].key == owner
  {
    var other := InitialClaims(Next(table, routes))[key].key;
    ClaimAfterPass(table, routes, key);
    var i :| 0 <= i < |routes| && routes[i].key == other && Serves(routes[i], key);
    ServedKeyIsRouteKey(routes[i], key);
  }

  /** A key of a winner is its own after the pass exactly when it serves the key or is the first
      to list it. */
  lemma {:induction false} KeyIsKeptExactly(table: Option<seq<Route>>, routes: seq<RouteObject>, owner: RouteKey, key: HostnamePathKey)
    requires Named(routes) && Wins(table, routes, owner)
    requires Claimant(InitialClaims(table), routes, |routes|, key) == Some(owner)
    ensures Claimant(InitialClaims(Next(table, routes)), routes, |routes|, key) == Some(owner) <==>
            ServedBy(routes, owner, key) || FirstWith(routes, |routes|, key) == Some(owner)
  {
    if key in InitialClaims(Next(table, routes)) {
      ClaimantIsUnique(table, routes, key, owner);
      ClaimAfterPass(table, routes, key);
    } else if ServedBy(routes, owner, key) {
      WinnerHoldsServedKeys(table, routes, owner, key);
    }
  }

  /** Each key of the owner's routes is one that it serves or is the first to list. */
  ghost predicate Tenable(routes: seq<RouteObject>, owner: RouteKey) {
    forall i, key :: 0 <= i < |routes| && routes[i].key == owner && key in KeysOf(routes[i]) ==>
                       ServedBy(routes, owner, key) || FirstWith(routes, |routes|, key) == Some(owner)
  }

  lemma TenableWinnerStays(table: Option<seq<Route>>, routes: seq<RouteObject>, owner: RouteKey)
    requires Named(routes) && Wins(table, routes, owner) && Tenable(routes, owner)
    ensures Wins(Next(table, routes), routes, owner)
  {
    var after := InitialClaims(Next(table, routes));
    forall i, key | 0 <= i < |routes| && routes[i].key == owner && key in KeysOf(routes[i])
      ensures Claimant(after, routes, |routes|, key) == Some(owner)
    {
      KeyIsKeptExactly(table, routes, owner, key);
    }
  }

  lemma StayingWinnerIsTenable(table: Option<seq<Route>>, routes: seq<RouteObject>, owner: RouteKey)
    requires Named(routes) && Wins(table, routes, owner) && Wins(Next(table, routes), routes, owner)
    ensures Tenable(routes, owner)
  {
    var after := InitialClaims(Next(table, routes));
    forall i, key | 0 <= i < |routes| && routes[i].key == owner && key in KeysOf(routes[i])
      ensures ServedBy(routes, owner, key) || FirstWith(routes, |routes|, key) == Some(owner)
    {
      assert Claimant(after, routes, |routes|, key) == Some(owner);
      KeyIsKeptExactly(table, routes, owner, key);
    }
  }

  /** Which winners stay: whatever the table, a winner wins the next pass too if and only if it
      serves, or is the first to list, each of its keys. The condition speaks of the routes and
      their grants alone. */
  lemma WinnerStaysExactly(table: Option<seq<Route>>, routes: seq<RouteObject>, owner: RouteKey)
    requires Named(routes) && Wins(table, routes, owner)
    ensures Wins(Next(table, routes), routes, owner) <==> Tenable(routes, owner)
  {
    if Tenable(routes, owner) {
      TenableWinnerStays(table, routes, owner);
    } else if Wins(Next(table, routes), routes, owner) {
      StayingWinnerIsTenable(table, routes, owner);
    }
  }

  /** A key that a backed table gives a winner is one that it serves, and any other key of a winner
      is one that it is the first to list. */
  lemma BackedWinnerIsTenable(table: Option<seq<Route>>, routes: seq<RouteObject>, owner: RouteKey)
    requires Backed(table, routes) && Wins(table, routes, owner)
    ensures Tenable(routes, owner)
  {
    forall i, key | 0 <= i < |routes| && routes[i].key == owner && key in KeysOf(routes[i])
      ensures ServedBy(routes, owner, key) || FirstWith(routes, |routes|, key) == Some(owner)
    {
      assert Claimant(InitialClaims(table), routes, |routes|, key) == Some(owner);
      assert key in InitialClaims(table) ==> HeldBy(table, key, owner);
    }
  }

  /** So from a backed table winning persists. */
  lemma WinnersStay(table: Option<seq<Route>>, routes: seq<RouteObject>, owner: RouteKey)
    requires Named(routes) && Backed(table, routes) && Wins(table, routes, owner)
    ensures Wins(Next(table, routes), routes, owner)
  {
    BackedWinnerIsTenable(table, routes, owner);
    TenableWinnerStays(table, routes, owner);
  }

  /** So an accepted route is rejected by the next pass exactly when it is not tenable. */
  lemma AcceptedStaysExactly(table: Option<seq<Route>>, routes: seq<RouteObject>, i: nat)
    requires Named(routes) && i < |routes| && routes[i] in Accepted(table, routes)
    ensures routes[i] in Accepted(Next(table, routes), routes) <==> Tenable(routes, routes[i].key)
  {
    AcceptedWhenWinning(table, routes, i);
    AcceptedWhenWinning(Next(table, routes), routes, i);
    WinnerStaysExactly(table, routes, routes[i].key);
  }

  lemma AcceptedWhenWinning(table: Option<seq<Route>>, routes: seq<RouteObject>, i: nat)
    requires i < |routes|
    ensures routes[i] in Accepted(table, routes) <==> Wins(table, routes, routes[i].key)
  {
    AcceptedExactlyWhenWinning(table, routes);
  }

  /** Every route that wins from the table is tenable, as from any backed table. */
  ghost predicate TenableWinners(table: Option<seq<Route>>, routes: seq<RouteObject>) {
    forall owner :: Wins(table, routes, owner) ==> Tenable(routes, owner)
  }

  lemma BackedWinnersAreTenable(table: Option<seq<Route>>, routes: seq<RouteObject>)
    requires Named(routes) && Backed(table, routes)
    ensures TenableWinners(table, routes)
  {
    forall owner | Wins(table, routes, owner)
      ensures Tenable(routes, owner)
    {
      BackedWinnerIsTenable(table, routes, owner);
    }
  }

  /** The owner serves a key that another one lists. */
  ghost predicate ServesKeyOf(routes: seq<RouteObject>, owner: RouteKey, other: RouteKey) {
    exists i, key :: 0 <= i < |routes| && routes[i].key == other && key in KeysOf(routes[i]) && ServedBy(routes, owner, key)
  }

  ghost predicate FirstOfAll(routes: seq<RouteObject>, owner: RouteKey) {
    forall i, key :: 0 <= i < |routes| && routes[i].key == owner && key in KeysOf(routes[i]) ==>
                       FirstWith(routes, |routes|, key) == Some(owner)
  }

  /** Another owner that wins from the table serves a key of this one. */
  ghost predicate Blocks(table: Option<seq<Route>>, routes: seq<RouteObject>, other: RouteKey, owner: RouteKey) {
    other != owner && Wins(table, routes, other) && ServesKeyOf(routes, other, owner)
  }

  /** The owner is the first to list each of its keys, some other one blocks it, and all that do
      are not tenable: it has to wait until they are gone. */
  ghost predicate Delayed(table: Option<seq<Route>>, routes: seq<RouteObject>, owner: RouteKey) {
    && FirstOfAll(routes, owner)
    && (exists other :: Blocks(table, routes, other, owner))
    && forall other :: Blocks(table, routes, other, owner) ==> !Tenable(routes, other)
  }

  /** The keys of an owner that did not win the pass are not claimed by it. */
  lemma ClaimedByOther(table: Option<seq<Route>>, routes: seq<RouteObject>, owner: RouteKey, i: nat, key: HostnamePathKey)
    requires Named(routes) && i < |routes| && routes[i].key == owner && key in KeysOf(routes[i])
    requires key in InitialClaims(Next(table, routes)) && InitialClaims(Next(table, routes))[key].key != owner
    ensures Blocks(table, routes, InitialClaims(Next(table, routes))[key].key, owner)
  {
    ClaimAfterPass(table, routes, key);
  }

  /** Wins the pass after next, but not the next one. */
  ghost predicate WinsLate(table: Option<seq<Route>>, routes: seq<RouteObject>, owner: RouteKey) {
    !Wins(Next(table, routes), routes, owner) && Wins(Next(Next(table, routes), routes), routes, owner)
  }

  /** A new winner holds keys that nobody claimed before it. */
  lemma {:induction false} NewWinnersKeyIsFree(table: Option<seq<Route>>, routes: seq<RouteObject>, owner: RouteKey, i: nat, key: HostnamePathKey)
    requires Named(routes) && !Wins(table, routes, owner) && Wins(Next(table, routes), routes, owner)
    requires i < |routes| && routes[i].key == owner && key in KeysOf(routes[i])
    ensures key !in InitialClaims(Next(table, routes)) && FirstWith(routes, |routes|, key) == Some(owner)
  {
    assert Claimant(InitialClaims(Next(table, routes)), routes, |routes|, key) == Some(owner);
    if key in InitialClaims(Next(table, routes)) {
      ClaimAfterPass(table, routes, key);
    }
  }

  lemma LateWinnerIsFirst(table: Option<seq<Route>>, routes: seq<RouteObject>, owner: RouteKey)
    requires Named(routes) && WinsLate(table, routes, owner)
    ensures FirstOfAll(routes, owner)
  {
    forall i, key | 0 <= i < |routes| && routes[i].key == owner && key in KeysOf(routes[i])
      ensures FirstWith(routes, |routes|, key) == Some(owner)
    {
      NewWinnersKeyIsFree(Next(table, routes), routes, owner, i, key);
    }
  }

  /** Being the first to list all its keys, it can only have lost the next pass over a key that
      somebody else held. */
  lemma FirstLosesOnlyWhenBlocked(table: Option<seq<Route>>, routes: seq<RouteObject>, owner: RouteKey) returns (other: RouteKey)
    requires Named(routes) && FirstOfAll(routes, owner) && !Wins(Next(table, routes), routes, owner)
    ensures Blocks(table, routes, other, owner)
  {
    var c1 := InitialClaims(Next(table, routes));
    var i, key :| 0 <= i < |routes| && routes[i].key == owner && key in KeysOf(routes[i])
                  && Claimant(c1, routes, |routes|, key) != Some(owner);
    ClaimedByOther(table, routes, owner, i, key);
    other := c1[key].key;
  }

  /** A tenable holder would have kept it out of the pass after next, too. */
  lemma BlockerIsUntenable(table: Option<seq<Route>>, routes: seq<RouteObject>, owner: RouteKey, other: RouteKey)
    requires Named(routes) && WinsLate(table, routes, owner) && Blocks(table, routes, other, owner)
    ensures !Tenable(routes, other)
  {
    var i, key :| 0 <= i < |routes| && routes[i].key == owner && key in KeysOf(routes[i]) && ServedBy(routes, other, key);
    NewWinnersKeyIsFree(Next(table, routes), routes, owner, i, key);
    if Tenable(routes, other) {
      TenableWinnerStays(table, routes, other);
      WinnerHoldsServedKeys(Next(table, routes), routes, other, key);
    }
  }

  /** So whoever wins late is delayed. */
  lemma NewWinnerIsDelayed(table: Option<seq<Route>>, routes: seq<RouteObject>, owner: RouteKey)
    requires Named(routes) && WinsLate(table, routes, owner)
    ensures Delayed(table, routes, owner)
  {
    LateWinnerIsFirst(table, routes, owner);
    var blocker := FirstLosesOnlyWhenBlocked(table, routes, owner);
    forall other | Blocks(table, routes, other, owner)
      ensures !Tenable(routes, other)
    {
      BlockerIsUntenable(table, routes, owner, other);
    }
  }

  /** A blocked owner does not win the next pass. */
  lemma BlockedOwnerLoses(table: Option<seq<Route>>, routes: seq<RouteObject>, owner: RouteKey, other: RouteKey)
    requires Named(routes) && Blocks(table, routes, other, owner)
    ensures !Wins(Next(table, routes), routes, owner)
  {
    var i, key :| 0 <= i < |routes| && routes[i].key == owner && key in KeysOf(routes[i]) && ServedBy(routes, other, key);
    WinnerHoldsServedKeys(table, routes, other, key);
    LosesOver(Next(table, routes), routes, i, key);
  }

  /** A delayed owner's keys are free after the next pass: their holder would have won both it and
      the first one, and so be tenable. */
  lemma DelayedKeysAreFree(table: Option<seq<Route>>, routes: seq<RouteObject>, owner: RouteKey, i: nat, key: HostnamePathKey)
    requires Named(routes) && Delayed(table, routes, owner)
    requires i < |routes| && routes[i].key == owner && key in KeysOf(routes[i])
    ensures key !in InitialClaims(Next(Next(table, routes), routes))
  {
    var t1 := Next(table, routes);
    var other :| Blocks(table, routes, other, owner);
    BlockedOwnerLoses(table, routes, owner, other);
    if key in InitialClaims(Next(t1, routes)) {
      var holder := InitialClaims(Next(t1, routes))[key].key;
      ClaimAfterPass(t1, routes, key);
      var j :| 0 <= j < |routes| && routes[j].key == holder && Serves(routes[j], key);
      ServedKeyIsRouteKey(routes[j], key);
      assert Claimant(InitialClaims(t1), routes, |routes|, key) == Some(holder);
      ClaimAfterPass(table, routes, key);
      assert Blocks(table, routes, holder, owner);
      WinnerStaysExactly(table, routes, holder);
    }
  }

  /** A delayed owner is the new winner of the pass after next. */
  lemma DelayedOwnerWinsLate(table: Option<seq<Route>>, routes: seq<RouteObject>, owner: RouteKey)
    requires Named(routes) && Delayed(table, routes, owner)
    ensures WinsLate(table, routes, owner)
  {
    var other :| Blocks(table, routes, other, owner);
    BlockedOwnerLoses(table, routes, owner, other);
    var c2 := InitialClaims(Next(Next(table, routes), routes));
    forall i, key | 0 <= i < |routes| && routes[i].key == owner && key in KeysOf(routes[i])
      ensures Claimant(c2, routes, |routes|, key) == Some(owner)
    {
      DelayedKeysAreFree(table, routes, owner, i, key);
    }
  }

  /** When all winners are tenable, nobody new wins two passes later. */
  lemma NoNewWinners(table: Option<seq<Route>>, routes: seq<RouteObject>, owner: RouteKey)
    requires Named(routes) && TenableWinners(table, routes)
    requires Wins(Next(Next(table, routes), routes), routes, owner)
    ensures Wins(Next(table, routes), routes, owner)
  {
    if !Wins(Next(table, routes), routes, owner) {
      NewWinnerIsDelayed(table, routes, owner);
    }
  }

  lemma {:induction false} SameWinnersSameAccepted(c: map<RouteKey, seq<Issue>>, d: map<RouteKey, seq<Issue>>, routes: seq<RouteObject>, n: nat)
    requires n <= |routes| && forall owner :: owner in c <==> owner in d
    ensures Unlisted(c, routes, n) == Unlisted(d, routes, n)
  {
    if n > 0 { SameWinnersSameAccepted(c, d, routes, n - 1); }
  }

  /** No route of the list is delayed. */
  ghost predicate NoneDelayed(table: Option<seq<Route>>, routes: seq<RouteObject>) {
    forall i :: 0 <= i < |routes| ==> !Delayed(table, routes, routes[i].key)
  }

  /** Exactly when two passes settle the accepted routes: from any table, the third pass accepts
      what the second accepted if and only if no route is delayed. The table the two passes wrote
      is then a fixed point. */
  lemma TwoPassesSettleExactly(table: Option<seq<Route>>, routes: seq<RouteObject>)
    requires Named(routes)
    ensures var t1 := Next(table, routes);
            var t2 := Next(t1, routes);
            && (Accepted(t2, routes) == Accepted(t1, routes) <==> NoneDelayed(table, routes))
            && (NoneDelayed(table, routes) ==> Next(t2, routes) == t2)
  {
    var t1 := Next(table, routes);
    var t2 := Next(t1, routes);
    if NoneDelayed(table, routes) {
      SettledWhenNoneDelayed(table, routes);
    } else {
      var i :| 0 <= i < |routes| && Delayed(table, routes, routes[i].key);
      DelayedRouteIsAcceptedLate(table, routes, i);
    }
  }

  lemma SettledWhenNoneDelayed(table: Option<seq<Route>>, routes: seq<RouteObject>)
    requires Named(routes) && NoneDelayed(table, routes)
    ensures Accepted(Next(Next(table, routes), routes), routes) == Accepted(Next(table, routes), routes)
  {
    var t1 := Next(table, routes);
    var t2 := Next(t1, routes);
    AcceptedExactlyWhenWinning(t1, routes);
    AcceptedExactlyWhenWinning(t2, routes);
    WrittenTablesAreBacked(table, routes);
    forall owner
      ensures owner in Scanned(t1, routes).conflicts <==> owner in Scanned(t2, routes).conflicts
    {
      if Wins(t1, routes, owner) {
        WinnersStay(t1, routes, owner);
      } else if Wins(t2, routes, owner) {
        NewWinnerIsDelayed(table, routes, owner);
      }
    }
    SameWinnersSameAccepted(Scanned(t1, routes).conflicts, Scanned(t2, routes).conflicts, routes, |routes|);
  }

  /** A delayed route is rejected by the second pass and accepted by the third. */
  lemma DelayedRouteIsAcceptedLate(table: Option<seq<Route>>, routes: seq<RouteObject>, i: nat)
    requires Named(routes) && i < |routes| && Delayed(table, routes, routes[i].key)
    ensures var t1 := Next(table, routes);
            routes[i] !in Accepted(t1, routes) && routes[i] in Accepted(Next(t1, routes), routes)
  {
    DelayedOwnerWinsLate(table, routes, routes[i].key);
    AcceptedWhenWinning(Next(table, routes), routes, i);
    AcceptedWhenWinning(Next(Next(table, routes), routes), routes, i);
  }

  /** When the first pass accepts tenable routes only, nothing is delayed, and the accepted set
      only grows. */
  lemma TenableWinnersConverge(table: Option<seq<Route>>, routes: seq<RouteObject>)
    requires Named(routes) && TenableWinners(table, routes)
    ensures var t1 := Next(table, routes);
            var t2 := Next(t1, routes);
            && (forall r :: r in Accepted(table, routes) ==> r in Accepted(t1, routes))
            && Accepted(t2, routes) == Accepted(t1, routes)
            && Next(t2, routes) == t2
  {
    AcceptedExactlyWhenWinning(table, routes);
    AcceptedExactlyWhenWinning(Next(table, routes), routes);
    forall r | r in Accepted(table, routes)
      ensures r in Accepted(Next(table, routes), routes)
    {
      TenableWinnerStays(table, routes, r.key);
    }
    TwoPassesSettleExactly(table, routes);
  }

  /** With all backends granted, from any starting table: the accepted set only grows, the third
      pass accepts what the second accepted, and the table two passes write is a fixed point. */
  lemma TwoPassesConverge(table: Option<seq<Route>>, routes: seq<RouteObject>)
    requires Named(routes) && AllServed(routes)
    ensures var t1 := Next(table, routes);
            var t2 := Next(t1, routes);
            && (forall r :: r in Accepted(table, routes) ==> r in Accepted(t1, routes))
            && Accepted(t2, routes) == Accepted(t1, routes)
            && Next(t2, routes) == t2
  {
    ServedTablesAreBacked(table, routes);
    BackedWinnersAreTenable(table, routes);
    TenableWinnersConverge(table, routes);
  }

  /** With any grants, from any starting table: the accepted set only grows from the second pass
      on, and the table three passes write is a fixed point. */
  lemma ThreePassesConverge(table: Option<seq<Route>>, routes: seq<RouteObject>)
    requires Named(routes)
    ensures var t1 := Next(table, routes);
            var t2 := Next(t1, routes);
            var t3 := Next(t2, routes);
            && (forall r :: r in Accepted(t1, routes) ==> r in Accepted(t2, routes))
            && Accepted(t3, routes) == Accepted(t2, routes)
            && Next(t3, routes) == t3
  {
    WrittenTablesAreBacked(table, routes);
    BackedWinnersAreTenable(Next(table, routes), routes);
    TenableWinnersConverge(Next(table, routes), routes);
  }

  function Iterate<T>(f: T -> T, x: T, n: nat): T {
    if n == 0 then x else f(Iterate(f, x, n - 1))
  }

  lemma {:induction false} FixedPointStays<T>(f: T -> T, x: T, n: nat, more: nat)
    requires f(Iterate(f, x, n)) == Iterate(f, x, n)
    ensures Iterate(f, x, n + more) == Iterate(f, x, n)
  {
    if more > 0 { FixedPointStays(f, x, n, more - 1); }
  }

  lemma StaysFromTwo<T>(f: T -> T, x: T, more: nat)
    requires f(f(f(x))) == f(f(x))
    ensures Iterate(f, x, 2 + more) == Iterate(f, x, 2)
  {
    assert Iterate(f, x, 0) == x;
    assert Iterate(f, x, 1) == f(x);
    FixedPointStays(f, x, 2, more);
  }

  lemma StaysFromThree<T>(f: T -> T, x: T, more: nat)
    requires f(f(f(f(x)))) == f(f(f(x)))
    ensures Iterate(f, x, 3 + more) == Iterate(f, x, 3)
  {
    assert Iterate(f, x, 0) == x;
    assert Iterate(f, x, 1) == f(x);
    assert Iterate(f, x, 2) == f(f(x));
    FixedPointStays(f, x, 3, more);
  }

  /** The table after a number of passes. */
  function After(table: Option<seq<Route>>, routes: seq<RouteObject>, passes: nat): Option<seq<Route>> {
    Iterate(t => Next(t, routes), table, passes)
  }

  /** However many passes follow, the table stays the one the third pass wrote. */
  lemma StableFromThirdPass(table: Option<seq<Route>>, routes: seq<RouteObject>, more: nat)
    requires Named(routes)
    ensures After(table, routes, 3 + more) == After(table, routes, 3)
  {
    ThreePassesConverge(table, routes);
    StaysFromThree(t => Next(t, routes), table, more);
  }

  /** With all backends granted it is already the one the second pass wrote. */
  lemma StableFromSecondPass(table: Option<seq<Route>>, routes: seq<RouteObject>, more: nat)
    requires Named(routes) && AllServed(routes)
    ensures After(table, routes, 2 + more) == After(table, routes, 2)
  {
    TwoPassesConverge(table, routes);
    StaysFromTwo(t => Next(t, routes), table, more);
  }

  // ---------- The hypotheses are needed ----------

  function PathRule(path: string, grant: Resolution): Rule {
    Rule([Some(PathMatch(None, Some(path)))], [grant], None)
  }

  function RouteWith(name: string, rules: seq<Rule>): RouteObject {
    RouteObject(HTTPRoute, RouteKey("ns", name), ["h"], rules)
  }

  function PathKey(path: string): HostnamePathKey {
    HostnamePathKey("h", path, "")
  }

  lemma PathRuleKeys(name: string, rules: seq<Rule>, path: string, grant: Resolution)
    ensures RuleKeys(RouteWith(name, rules), PathRule(path, grant)) == [PathKey(path)]
  {
    assert PathFromMatches(PathRule(path, grant).matches) == path;
    assert RulePath(RouteWith(name, rules), PathRule(path, grant)) == path && Protocol(RouteWith(name, rules)) == "";
  }

  function SimpleRoute(name: string, grant: Resolution): RouteObject {
    RouteWith(name, [PathRule("/", grant)])
  }

  const SHARED_KEY := PathKey("/")

  lemma OneRuleKeys(name: string, path: string, grant: Resolution)
    ensures KeysOf(RouteWith(name, [PathRule(path, grant)])) == [PathKey(path)]
  {
    var r := RouteWith(name, [PathRule(path, grant)]);
    assert KeysOfRules(r, 0) == [];
    PathRuleKeys(name, r.rules, path, grant);
  }

  /** A table that gives the shared key to `ns/name`. */
  function TableOf(name: string): Option<seq<Route>> {
    Some([Route("h", "/", "", OwnerString(RouteKey("ns", name)), "HTTPRoute", [], None, 0)])
  }

  lemma TableOfClaims(name: string)
    ensures InitialClaims(TableOf(name)) == map[SHARED_KEY := RouteOwner(RouteKey("ns", name), "HTTPRoute")]
  {
    var entries := TableOf(name).value;
    OwnerParsesBack("HTTPRoute", RouteKey("ns", name));
    assert ExistingClaims(entries, 0) == map[];
  }

  lemma LosesOver(table: Option<seq<Route>>, routes: seq<RouteObject>, i: nat, key: HostnamePathKey)
    requires i < |routes| && key in KeysOf(routes[i])
    requires Claimant(InitialClaims(table), routes, |routes|, key) != Some(routes[i].key)
    ensures !Wins(table, routes, routes[i].key)
  {
  }

  lemma WinsAlone(table: Option<seq<Route>>, routes: seq<RouteObject>, i: nat)
    requires i < |routes| && forall j :: 0 <= j < |routes| && routes[j].key == routes[i].key ==> j == i
    requires forall key :: key in KeysOf(routes[i]) ==> Claimant(InitialClaims(table), routes, |routes|, key) == Some(routes[i].key)
    ensures Wins(table, routes, routes[i].key)
  {
  }

  lemma OnlyKey(routes: seq<RouteObject>, owner: RouteKey, key: HostnamePathKey, i: nat)
    requires i < |routes| && routes[i].key == owner && (forall j :: 0 <= j < |routes| && routes[j].key == owner ==> j == i)
    ensures ServedBy(routes, owner, key) <==> Serves(routes[i], key)
  {
  }

  lemma {:induction false} FrontRouteIsFirst(routes: seq<RouteObject>, n: nat, key: HostnamePathKey)
    requires 0 < n <= |routes| && key in KeysOf(routes[0])
    ensures FirstWith(routes, n, key) == Some(routes[0].key)
  {
    if n == 1 {
      assert FirstWith(routes, 0, key) == None;
    } else {
      FrontRouteIsFirst(routes, n - 1, key);
    }
  }

  /** One pass is not enough: while the table still names a deleted owner the route is
      rejected, and it is accepted only in the second pass. */
  lemma OnePassIsNotEnough(grant: Backend)
    ensures var routes := [SimpleRoute("new", Granted(grant))];
            && AllServed(routes) && Accepted(TableOf("deleted"), routes) == []
            && routes[0] in Accepted(Next(TableOf("deleted"), routes), routes)
  {
    NewRouteFacts(grant);
    DeletedOwnerHolds(grant);
    LoneRouteNeedsTwoPasses(TableOf("deleted"), [SimpleRoute("new", Granted(grant))]);
  }

  lemma NewRouteFacts(grant: Backend)
    ensures var routes := [SimpleRoute("new", Granted(grant))];
            AllServed(routes) && KeysOf(routes[0]) == [SHARED_KEY]
  {
    OneRuleKeys("new", "/", Granted(grant));
  }

  lemma DeletedOwnerHolds(grant: Backend)
    ensures HeldBy(TableOf("deleted"), SHARED_KEY, RouteKey("ns", "deleted"))
    ensures SimpleRoute("new", Granted(grant)).key != RouteKey("ns", "deleted")
  {
    TableOfClaims("deleted");
    assert "deleted"[0] != "new"[0];
  }

  lemma LoneRouteNeedsTwoPasses(table: Option<seq<Route>>, routes: seq<RouteObject>)
    requires |routes| == 1 && KeysOf(routes[0]) == [SHARED_KEY]
    requires SHARED_KEY in InitialClaims(table) && InitialClaims(table)[SHARED_KEY].key != routes[0].key
    ensures Accepted(table, routes) == [] && routes[0] in Accepted(Next(table, routes), routes)
  {
    LoneRouteIsRejected(table, routes);
    LoneRouteIsAccepted(Next(table, routes), routes);
  }

  /** A lone route whose one key another owner holds is rejected, and the next table is empty. */
  lemma LoneRouteIsRejected(table: Option<seq<Route>>, routes: seq<RouteObject>)
    requires |routes| == 1 && KeysOf(routes[0]) == [SHARED_KEY]
    requires SHARED_KEY in InitialClaims(table) && InitialClaims(table)[SHARED_KEY].key != routes[0].key
    ensures Accepted(table, routes) == [] && InitialClaims(Next(table, routes)) == map[]
  {
    assert KeysOf(routes[0])[0] == SHARED_KEY;
    LosesOver(table, routes, 0, SHARED_KEY);
    AcceptedExactlyWhenWinning(table, routes);
    assert Unlisted(Scanned(table, routes).conflicts, routes, 0) == [];
    assert BuiltConfig([]) == [];
  }

  lemma LoneRouteIsAccepted(table: Option<seq<Route>>, routes: seq<RouteObject>)
    requires |routes| == 1 && KeysOf(routes[0]) == [SHARED_KEY] && InitialClaims(table) == map[]
    ensures routes[0] in Accepted(table, routes)
  {
    FrontRouteIsFirst(routes, 1, SHARED_KEY);
    WinsAlone(table, routes, 0);
    AcceptedWhenWinning(table, routes, 0);
  }

  lemma DeniedRouteServesNothing(name: string, ref: string, key: HostnamePathKey)
    ensures !Serves(SimpleRoute(name, Denied(ref)), key)
  {
    var r := SimpleRoute(name, Denied(ref));
    assert !AllGranted(r.rules[0].backendRefs) by { assert !r.rules[0].backendRefs[0].Granted?; }
    assert EntriesOfRules(r, 0) == [];
    assert EntriesOf(r) == [];
  }

  /** With a denied backend an accepted route can be lost: it owns its key but leaves no entry
      behind, so the next pass gives the key to the route listed first. */
  lemma DeniedBackendLosesItsKey(grant: Backend, ref: string)
    ensures var routes := [SimpleRoute("a", Granted(grant)), SimpleRoute("b", Denied(ref))];
            && routes[1] in Accepted(TableOf("b"), routes)
            && routes[1] !in Accepted(Next(TableOf("b"), routes), routes)
  {
    var routes := [SimpleRoute("a", Granted(grant)), SimpleRoute("b", Denied(ref))];
    OneRuleKeys("a", "/", Granted(grant));
    OneRuleKeys("b", "/", Denied(ref));
    TableOfClaims("b");
    DeniedRouteServesNothing("b", ref, SHARED_KEY);
    assert routes[0].key != routes[1].key by { assert "a"[0] != "b"[0]; }
    OwnerIsDisplaced(TableOf("b"), routes);
  }

  /** Of two routes that list one key, the second keeps it only for one pass when it does not
      serve it. */
  lemma OwnerIsDisplaced(table: Option<seq<Route>>, routes: seq<RouteObject>)
    requires Named(routes) && |routes| == 2 && routes[0].key != routes[1].key
    requires KeysOf(routes[0]) == [SHARED_KEY] && KeysOf(routes[1]) == [SHARED_KEY] && !Serves(routes[1], SHARED_KEY)
    requires HeldBy(table, SHARED_KEY, routes[1].key)
    ensures routes[1] in Accepted(table, routes) && routes[1] !in Accepted(Next(table, routes), routes)
  {
    assert KeysOf(routes[0])[0] == SHARED_KEY && KeysOf(routes[1])[0] == SHARED_KEY;
    WinsAlone(table, routes, 1);
    AcceptedWhenWinning(table, routes, 1);
    OnlyKey(routes, routes[1].key, SHARED_KEY, 1);
    FrontRouteIsFirst(routes, 2, SHARED_KEY);
    assert !Tenable(routes, routes[1].key);
    AcceptedStaysExactly(table, routes, 1);
  }

  // ---------- With a denied backend, three passes can be needed ----------

  lemma {:induction false} SecondRouteIsFirst(routes: seq<RouteObject>, n: nat, key: HostnamePathKey)
    requires 2 <= n <= |routes| && key !in KeysOf(routes[0]) && key in KeysOf(routes[1])
    ensures FirstWith(routes, n, key) == Some(routes[1].key)
  {
    if n == 2 {
      assert FirstWith(routes, 0, key) == None;
      assert FirstWith(routes, 1, key) == None;
    } else {
      SecondRouteIsFirst(routes, n - 1, key);
    }
  }

  /** Three routes: the last one serves the key m and lists the key d, whose backend is denied;
      the first serves d, the second m. */
  ghost predicate Chain(routes: seq<RouteObject>, d: HostnamePathKey, m: HostnamePathKey) {
    && |routes| == 3 && Named(routes) && d != m
    && (forall i, j :: 0 <= i < j < 3 ==> routes[i].key != routes[j].key)
    && KeysOf(routes[0]) == [d] && KeysOf(routes[1]) == [m] && KeysOf(routes[2]) == [m, d]
    && Serves(routes[0], d) && Serves(routes[2], m) && !Serves(routes[2], d)
  }

  /** First the table gives both keys to the last route, which is accepted alone. Its denied key
      is then free, so the first route takes it and the last one is rejected; that in turn frees
      its other key, for which the second route was waiting. */
  lemma ChainDelaysSecond(table: Option<seq<Route>>, routes: seq<RouteObject>, d: HostnamePathKey, m: HostnamePathKey)
    requires Chain(routes, d, m)
    requires HeldBy(table, d, routes[2].key) && HeldBy(table, m, routes[2].key)
    ensures Delayed(table, routes, routes[1].key)
  {
    assert KeysOf(routes[1])[0] == m && KeysOf(routes[2])[1] == d;
    SecondRouteIsFirst(routes, 3, m);
    OnlyKey(routes, routes[2].key, m, 2);
    WinsAlone(table, routes, 2);
    assert Blocks(table, routes, routes[2].key, routes[1].key);
    LastIsUntenable(routes, d, m);
    forall other | Blocks(table, routes, other, routes[1].key)
      ensures other == routes[2].key
    {
      OnlyLastServes(routes, d, m, other);
    }
  }

  lemma LastIsUntenable(routes: seq<RouteObject>, d: HostnamePathKey, m: HostnamePathKey)
    requires Chain(routes, d, m)
    ensures !Tenable(routes, routes[2].key)
  {
    assert KeysOf(routes[2])[1] == d;
    OnlyKey(routes, routes[2].key, d, 2);
    FrontRouteIsFirst(routes, 3, d);
  }

  lemma OnlyLastServes(routes: seq<RouteObject>, d: HostnamePathKey, m: HostnamePathKey, owner: RouteKey)
    requires Chain(routes, d, m) && owner != routes[1].key && ServesKeyOf(routes, owner, routes[1].key)
    ensures owner == routes[2].key
  {
    assert ServedBy(routes, owner, m);
    var i :| 0 <= i < 3 && routes[i].key == owner && Serves(routes[i], m);
    ServedKeyIsRouteKey(routes[i], m);
  }

  function ChainRoutes(grant: Backend, ref: string): seq<RouteObject> {
    [RouteWith("a", [PathRule("/d", Granted(grant))]),
     RouteWith("c", [PathRule("/m", Granted(grant))]),
     RouteWith("w", [PathRule("/m", Granted(grant)), PathRule("/d", Denied(ref))])]
  }

  lemma OneRuleServes(name: string, path: string, grant: Backend)
    ensures Serves(RouteWith(name, [PathRule(path, Granted(grant))]), PathKey(path))
  {
    var r := RouteWith(name, [PathRule(path, Granted(grant))]);
    OneRuleKeys(name, path, Granted(grant));
    assert KeysOf(r)[0] == PathKey(path);
    FullyServedServes(r, PathKey(path));
  }

  lemma LastRouteOfChain(grant: Backend, ref: string)
    ensures var w := ChainRoutes(grant, ref)[2];
            KeysOf(w) == [PathKey("/m"), PathKey("/d")] && Serves(w, PathKey("/m")) && !Serves(w, PathKey("/d"))
  {
    var w := ChainRoutes(grant, ref)[2];
    assert KeysOfRules(w, 0) == [];
    PathRuleKeys("w", w.rules, "/m", Granted(grant));
    PathRuleKeys("w", w.rules, "/d", Denied(ref));
    assert KeysOfRules(w, 1) == [PathKey("/m")];
    assert EntriesOfRules(w, 0) == [];
    var entries := RuleEntries(w, w.rules[0]);
    assert EntriesOfRules(w, 1) == entries;
    assert !AllGranted(w.rules[1].backendRefs) by { assert !w.rules[1].backendRefs[0].Granted?; }
    assert EntriesOf(w) == entries;
    assert RulePath(w, w.rules[0]) == "/m" by { assert PathFromMatches(w.rules[0].matches) == "/m"; }
    assert Protocol(w) == "";
    assert |entries| == 1 && EntryKey(entries[0]) == PathKey("/m");
    assert "/m"[1] != "/d"[1];
  }

  lemma ChainExists(grant: Backend, ref: string)
    ensures Chain(ChainRoutes(grant, ref), PathKey("/d"), PathKey("/m"))
  {
    var routes := ChainRoutes(grant, ref);
    OneRuleKeys("a", "/d", Granted(grant));
    OneRuleKeys("c", "/m", Granted(grant));
    OneRuleServes("a", "/d", grant);
    LastRouteOfChain(grant, ref);
    assert "/m"[1] != "/d"[1];
    assert "a"[0] != "c"[0] && "a"[0] != "w"[0] && "c"[0] != "w"[0];
  }

  /** A table that gives both keys of the chain to its last route. */
  function ChainTable(): seq<Route> {
    [Route("h", "/d", "", OwnerString(RouteKey("ns", "w")), "HTTPRoute", [], None, 0),
     Route("h", "/m", "", OwnerString(RouteKey("ns", "w")), "HTTPRoute", [], None, 0)]
  }

  /** With a denied backend two passes are not enough: the accepted routes still change in the
      third. */
  lemma TwoPassesAreNotEnough(grant: Backend, ref: string)
    ensures var routes, t1 := ChainRoutes(grant, ref), Next(Some(ChainTable()), ChainRoutes(grant, ref));
            routes[1] !in Accepted(t1, routes) && routes[1] in Accepted(Next(t1, routes), routes)
  {
    var routes, entries := ChainRoutes(grant, ref), ChainTable();
    ChainExists(grant, ref);
    OwnerParsesBack("HTTPRoute", RouteKey("ns", "w"));
    var w := RouteOwner(RouteKey("ns", "w"), "HTTPRoute");
    assert ExistingClaims(entries, 1) == map[PathKey("/d") := w] by { assert ExistingClaims(entries, 0) == map[]; }
    assert ExistingClaims(entries, 2) == map[PathKey("/d") := w][PathKey("/m") := w];
    ChainDelaysSecond(Some(entries), routes, PathKey("/d"), PathKey("/m"));
    DelayedRouteIsAcceptedLate(Some(entries), routes, 1);
  }
}
