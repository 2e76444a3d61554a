/** The CLI's view of a rolling update: rotationWatcher, its handlers and the order check of
    printReport in cmd/cfgwctl/watch_rotation.go. */
module RotationWatcher {
  import opened Base
  import opened Rollout

  datatype EventKind = TokenUpdated | RolledOut | PodEvent | GatewayEvent

  /** A recorded event: `name` is the Deployment or pod it concerns, `hash` the new hash of a
      token-updated event. */
  datatype Event = Event(time: int, kind: EventKind, name: string, hash: string)

  /** The watched Gateway: its two conditions, its rotation annotation and whether it is suspended. */
  datatype GatewayState = GatewayState(programmed: string, ready: string, rotateAt: string, suspended: bool)

  datatype WatchResult = WatchResult(done: bool, suspended: bool)

  /** How many events of a kind concern a Deployment. */
  function Count(events: seq<Event>, kind: EventKind, name: string): nat {
    if events == [] then 0
    else Count(events[..|events| - 1], kind, name)
         + if events[|events| - 1].kind == kind && events[|events| - 1].name == name then 1 else 0
  }

  lemma {:induction false} CountAppend(events: seq<Event>, e: Event, kind: EventKind, name: string)
    ensures Count(events + [e], kind, name)
            == Count(events, kind, name) + if e.kind == kind && e.name == name then 1 else 0
  {
    assert (events + [e])[..|events|] == events;
  }

  /** Every rolled-out event comes after a token-updated event of the same Deployment. */
  ghost predicate Ordered(events: seq<Event>) {
    forall i :: 0 <= i < |events| && events[i].kind == RolledOut ==>
                  exists j :: 0 <= j < i && events[j].kind == TokenUpdated && events[j].name == events[i].name
  }

  lemma OrderedAppend(events: seq<Event>, e: Event)
    requires Ordered(events)
    requires e.kind == RolledOut ==> exists j :: 0 <= j < |events| && events[j].kind == TokenUpdated && events[j].name == e.name
    ensures Ordered(events + [e])
  {
    var all := events + [e];
    forall i | 0 <= i < |all| && all[i].kind == RolledOut
      ensures exists j :: 0 <= j < i && all[j].kind == TokenUpdated && all[j].name == all[i].name
    {
      if i < |events| {
        var j :| 0 <= j < i && events[j].kind == TokenUpdated && events[j].name == events[i].name;
        assert all[j] == events[j];
      } else {
        var j :| 0 <= j < |events| && events[j].kind == TokenUpdated && events[j].name == e.name;
        assert all[j] == events[j];
      }
    }
  }

  lemma {:induction false} CountedEventExists(events: seq<Event>, kind: EventKind, name: string) returns (j: nat)
    requires Count(events, kind, name) > 0
    ensures j < |events| && events[j].kind == kind && events[j].name == name
  {
    var last := |events| - 1;
    if events[last].kind == kind && events[last].name == name {
      j := last;
    } else {
      j := CountedEventExists(events[..last], kind, name);
    }
  }

  /** The log of a watch: one token-updated event for each updated Deployment, one later
      rolled-out event for each rolled-out one, and none for any other name. */
  ghost predicate LogMatches(events: seq<Event>, tokenUpdated: set<string>, rolledOut: set<string>) {
    && Ordered(events)
    && forall n {:trigger Count(events, TokenUpdated, n)} {:trigger Count(events, RolledOut, n)} ::
         && Count(events, TokenUpdated, n) == (if n in tokenUpdated then 1 else 0)
         && Count(events, RolledOut, n) == (if n in rolledOut then 1 else 0)
  }

  lemma LogTokenUpdated(events: seq<Event>, tokenUpdated: set<string>, rolledOut: set<string>, e: Event)
    requires LogMatches(events, tokenUpdated, rolledOut) && e.kind == TokenUpdated && e.name !in tokenUpdated
    ensures LogMatches(events + [e], tokenUpdated + {e.name}, rolledOut)
  {
    OrderedAppend(events, e);
    forall n, kind { CountAppend(events, e, kind, n); }
  }

  lemma LogRolledOut(events: seq<Event>, tokenUpdated: set<string>, rolledOut: set<string>, e: Event)
    requires LogMatches(events, tokenUpdated, rolledOut) && e.kind == RolledOut && e.name in tokenUpdated && e.name !in rolledOut
    ensures LogMatches(events + [e], tokenUpdated, rolledOut + {e.name})
  {
    var j := CountedEventExists(events, TokenUpdated, e.name);
    OrderedAppend(events, e);
    forall n, kind { CountAppend(events, e, kind, n); }
  }

  lemma LogOther(events: seq<Event>, tokenUpdated: set<string>, rolledOut: set<string>, e: Event)
    requires LogMatches(events, tokenUpdated, rolledOut) && (e.kind == PodEvent || e.kind == GatewayEvent)
    ensures LogMatches(events + [e], tokenUpdated, rolledOut)
  {
    OrderedAppend(events, e);
    forall n, kind { CountAppend(events, e, kind, n); }
  }

  lemma SubsetSize(a: set<string>, b: set<string>)
    requires a <= b
    ensures |a| <= |b| && (|a| == |b| ==> a == b)
  {
    assert b == a + (b - a);
    assert |b| == |a| + |b - a|;
    if |a| == |b| {
      assert b - a == {};
    }
  }

  /** Each event carries the clock reading taken for it. */
  ghost predicate Timed(events: seq<Event>, clock: nat -> int) {
    forall i :: 0 <= i < |events| ==> events[i].time == clock(i)
  }

  /** What the informers deliver. */
  datatype InformerEvent =
    | DeploymentUpdated(name: string, deployment: Deployment)
    | PodAdded(pod: string, phase: string)
    | PodUpdated(pod: string, phase: string, ready: bool)
    | PodDeleted(pod: string)
    | GatewayUpdated(state: GatewayState)

  datatype WatchEnd = Finished | Suspended | TimedOut

  /** Attaching to an ongoing rotation: the synthetic events of the Deployments whose hash is
      already new, in any order. */
  method TakeOver(deployments: map<string, Deployment>, currentTokenHash: string, clock: nat -> int)
    returns (log: seq<Event>, updated: set<string>, rolled: set<string>)
    ensures LogMatches(log, updated, rolled) && Timed(log, clock)
    ensures forall n :: n in updated <==> n in deployments && deployments[n].spec.tokenHash != currentTokenHash
    ensures forall n :: n in rolled <==> n in updated && IsRolledOut(deployments[n])
  {
    log, updated, rolled := [], {}, {};
    var pending := deployments.Keys;
    while pending != {}
      invariant pending <= deployments.Keys
      invariant LogMatches(log, updated, rolled) && Timed(log, clock)
      invariant forall n :: n in updated <==> n in deployments && n !in pending && deployments[n].spec.tokenHash != currentTokenHash
      invariant forall n :: n in rolled <==> n in updated && IsRolledOut(deployments[n])
      decreases |pending|
    {
      var n :| n in pending;
      pending := pending - {n};
      var hash := deployments[n].spec.tokenHash;
      if hash != currentTokenHash {
        log, updated, rolled := TakeOverOne(log, updated, rolled, n, hash, IsRolledOut(deployments[n]), clock);
      }
    }
  }

  method TakeOverOne(before: seq<Event>, tokenUpdated: set<string>, rolledOut: set<string>, name: string, hash: string,
                     rolled: bool, clock: nat -> int)
    returns (log: seq<Event>, nowUpdated: set<string>, nowRolled: set<string>)
    requires LogMatches(before, tokenUpdated, rolledOut) && Timed(before, clock)
    requires name !in tokenUpdated && name !in rolledOut
    ensures LogMatches(log, nowUpdated, nowRolled) && Timed(log, clock)
    ensures nowUpdated == tokenUpdated + {name} && nowRolled == rolledOut + if rolled then {name} else {}
  {
    var e := Event(clock(|before|), TokenUpdated, name, hash);
    LogTokenUpdated(before, tokenUpdated, rolledOut, e);
    log, nowUpdated, nowRolled := before + [e], tokenUpdated + {name}, rolledOut;
    if rolled {
      var f := Event(clock(|log|), RolledOut, name, "");
      LogRolledOut(log, nowUpdated, rolledOut, f);
      log, nowRolled := log + [f], nowRolled + {name};
    }
  }

  class Watcher {
    /** The initial Deployments; events about others are not delivered. */
    ghost const names: set<string>
    /** The clock reading taken for each recorded event. */
    const clock: nat -> int
    const currentTokenHash: string
    const numDeployments: nat
    var currentHash: map<string, string>
    var podState: map<string, string>
    var gateway: GatewayState
    var tokenUpdated: set<string>
    var rolledOut: set<string>
    var allRolledOut: bool
    var events: seq<Event>

    ghost predicate Valid()
      reads this
    {
      && numDeployments == |names| && currentHash.Keys == names
      && rolledOut <= tokenUpdated <= names
      && (allRolledOut <==> rolledOut == names)
      && LogMatches(events, tokenUpdated, rolledOut)
      && Timed(events, clock)
    }

    /** The watch starts: a new rotation starts with nothing updated; attaching to an ongoing
        one takes over the Deployments whose hash is already new, with synthetic events. */
    constructor (deployments: map<string, Deployment>, gateway: GatewayState, currentTokenHash: string,
                 attach: bool, pods: map<string, string>, clock: nat -> int)
      ensures Valid() && names == deployments.Keys && this.currentTokenHash == currentTokenHash
      ensures this.gateway == gateway.(suspended := false) && this.clock == clock
      ensures forall n :: n in tokenUpdated <==> attach && n in deployments && deployments[n].spec.tokenHash != currentTokenHash
      ensures forall n :: n in rolledOut <==> n in tokenUpdated && IsRolledOut(deployments[n])
      ensures podState == pods
    {
      names := deployments.Keys;
      this.clock := clock;
      this.currentTokenHash, numDeployments := currentTokenHash, |deployments|;
      currentHash := map n | n in deployments :: deployments[n].spec.tokenHash;
      podState := pods;
      this.gateway := gateway.(suspended := false);
      var updated, rolled := {}, {};
      var log: seq<Event> := [];
      if attach {
        log, updated, rolled := TakeOver(deployments, currentTokenHash, clock);
      }
      SubsetSize(rolled, deployments.Keys);
      tokenUpdated, rolledOut, events := updated, rolled, log;
      allRolledOut := |rolled| == |deployments|;
    }

    predicate IsDone()
      reads this
    {
      allRolledOut && gateway.ready == "True"
    }

    function NextEvent(kind: EventKind, name: string, hash: string): Event
      reads this
    {
      Event(clock(|events|), kind, name, hash)
    }

    method RecordTokenUpdated(name: string, hash: string)
      requires Valid() && name in names && name !in tokenUpdated
      modifies this`tokenUpdated, this`events
      ensures Valid() && tokenUpdated == old(tokenUpdated) + {name}
      ensures events == old(events) + [old(NextEvent(TokenUpdated, name, hash))]
    {
      LogTokenUpdated(events, tokenUpdated, rolledOut, NextEvent(TokenUpdated, name, hash));
      tokenUpdated, events := tokenUpdated + {name}, events + [NextEvent(TokenUpdated, name, hash)];
    }

    method RecordRolledOut(name: string)
      requires Valid() && name in tokenUpdated && name !in rolledOut
      modifies this`rolledOut, this`allRolledOut, this`events
      ensures Valid() && rolledOut == old(rolledOut) + {name}
      ensures events == old(events) + [old(NextEvent(RolledOut, name, ""))]
    {
      LogRolledOut(events, tokenUpdated, rolledOut, NextEvent(RolledOut, name, ""));
      rolledOut, events := rolledOut + {name}, events + [NextEvent(RolledOut, name, "")];
      SubsetSize(rolledOut, names);
      if |rolledOut| == numDeployments {
        allRolledOut := true;
      }
    }

    /** The first half of handleDeployUpdate: a hash that is neither the last one seen nor the
        old token's marks the Deployment as updated. */
    method NoteHash(name: string, newHash: string)
      requires Valid() && name in names
      modifies this`currentHash, this`tokenUpdated, this`events
      ensures Valid() && old(events) <= events
      ensures currentHash == if newHash != currentTokenHash then old(currentHash)[name := newHash] else old(currentHash)
      ensures tokenUpdated == old(tokenUpdated)
                + if newHash != old(currentHash[name]) && newHash != currentTokenHash then {name} else {}
    {
      if newHash != currentHash[name] && newHash != currentTokenHash {
        if name !in tokenUpdated {
          RecordTokenUpdated(name, newHash);
        }
        currentHash := currentHash[name := newHash];
      }
    }

    /** handleDeployUpdate, for one of the initial Deployments. */
    method HandleDeployUpdate(name: string, deploy: Deployment) returns (r: WatchResult)
      requires Valid() && name in names
      modifies this`currentHash, this`tokenUpdated, this`rolledOut, this`allRolledOut, this`events
      ensures Valid() && old(events) <= events
      ensures tokenUpdated == old(tokenUpdated)
                + if deploy.spec.tokenHash != old(currentHash[name]) && deploy.spec.tokenHash != currentTokenHash then {name} else {}
      ensures currentHash == if deploy.spec.tokenHash != currentTokenHash
                             then old(currentHash)[name := deploy.spec.tokenHash] else old(currentHash)
      ensures rolledOut == old(rolledOut) + if name in tokenUpdated && IsRolledOut(deploy) then {name} else {}
      ensures r.done <==> rolledOut == names && gateway.ready == "True"
      ensures !r.suspended
    {
      NoteHash(name, deploy.spec.tokenHash);
      if name in tokenUpdated && name !in rolledOut && IsRolledOut(deploy) {
        RecordRolledOut(name);
      }
      r := WatchResult(allRolledOut && gateway.ready == "True", false);
    }

    /** handlePodAdd: the pod's phase. */
    method HandlePodAdd(pod: string, phase: string)
      requires Valid()
      modifies this`events, this`podState
      ensures Valid() && events == old(events) + [old(NextEvent(PodEvent, pod, ""))] && podState == old(podState)[pod := phase]
    {
      AddOther(PodEvent, pod);
      podState := podState[pod := phase];
    }

    /** handlePodUpdate: an event is recorded when the pod's state changed. */
    method HandlePodUpdate(pod: string, phase: string, ready: bool)
      requires Valid()
      modifies this`events, this`podState
      ensures Valid()
      ensures var newState := if ready then "Ready" else phase;
              var oldState := if pod in old(podState) then old(podState)[pod] else "";
              if newState != oldState
              then events == old(events) + [old(NextEvent(PodEvent, pod, ""))] && podState == old(podState)[pod := newState]
              else events == old(events) && podState == old(podState)
    {
      var newState := phase;
      if ready {
        newState := "Ready";
      }
      var oldState := if pod in podState then podState[pod] else "";
      if newState != oldState {
        AddOther(PodEvent, pod);
        podState := podState[pod := newState];
      }
    }

    /** handlePodDelete */
    method HandlePodDelete(pod: string)
      requires Valid()
      modifies this`events, this`podState
      ensures Valid() && events == old(events) + [old(NextEvent(PodEvent, pod, ""))] && podState == old(podState) - {pod}
    {
      AddOther(PodEvent, pod);
      podState := podState - {pod};
    }

    method AddOther(kind: EventKind, name: string)
      requires Valid() && (kind == PodEvent || kind == GatewayEvent)
      modifies this`events
      ensures Valid() && events == old(events) + [old(NextEvent(kind, name, ""))]
    {
      LogOther(events, tokenUpdated, rolledOut, NextEvent(kind, name, ""));
      events := events + [NextEvent(kind, name, "")];
    }

    /** The first half of handleGatewayUpdate: a new rotation request, new conditions. */
    method NoteGateway(g: GatewayState)
      requires Valid()
      modifies this`events, this`gateway
      ensures Valid() && gateway == g.(suspended := old(gateway).suspended) && old(events) <= events
    {
      if g.rotateAt != gateway.rotateAt {
        AddOther(GatewayEvent, "");
        gateway := gateway.(rotateAt := g.rotateAt);
      }
      if g.programmed != gateway.programmed || g.ready != gateway.ready {
        AddOther(GatewayEvent, "");
        gateway := gateway.(programmed := g.programmed, ready := g.ready);
      }
    }

    /** handleGatewayUpdate: suspension is reported once, when it begins before every
        Deployment has rolled out; otherwise the watch is done when the Gateway is ready. */
    method HandleGatewayUpdate(g: GatewayState) returns (r: WatchResult)
      requires Valid()
      modifies this`events, this`gateway
      ensures Valid() && gateway == g && old(events) <= events
      ensures r.suspended <==> g.suspended && !old(gateway).suspended && !allRolledOut
      ensures r.done <==> IsDone() && !r.suspended
      ensures r.done ==> rolledOut == names && gateway.ready == "True"
    {
      NoteGateway(g);
      if g.suspended != gateway.suspended {
        gateway := gateway.(suspended := g.suspended);
        if g.suspended && !allRolledOut {
          AddOther(GatewayEvent, "");
          return WatchResult(false, true);
        }
      }
      r := WatchResult(allRolledOut && gateway.ready == "True", false);
    }

    // ---------- The watch loop ----------

    predicate Concerns(e: InformerEvent, names: set<string>) {
      e.DeploymentUpdated? ==> e.name in names
    }

    /** What a pod event leaves of the pods' states. */
    function PodStates(states: map<string, string>, e: InformerEvent): map<string, string> {
      match e
      case PodAdded(pod, phase) => states[pod := phase]
      case PodUpdated(pod, phase, ready) =>
        var newState := if ready then "Ready" else phase;
        if newState == "" && pod !in states then states else states[pod := newState]
      case PodDeleted(pod) => states - {pod}
      case _ => states
    }

    method ProcessPod(e: InformerEvent)
      requires Valid() && (e.PodAdded? || e.PodUpdated? || e.PodDeleted?)
      modifies this`events, this`podState
      ensures Valid() && old(events) <= events && podState == PodStates(old(podState), e)
    {
      match e {
        case PodAdded(pod, phase) => HandlePodAdd(pod, phase);
        case PodUpdated(pod, phase, ready) => HandlePodUpdate(pod, phase, ready);
        case PodDeleted(pod) => HandlePodDelete(pod);
      }
    }

    /** processEvent: each kind of event adds what its handler does and nothing seen is ever
        forgotten; the watch ends exactly when it is done or the Gateway was suspended. */
    method ProcessEvent(e: InformerEvent) returns (r: WatchResult)
      requires Valid() && Concerns(e, names)
      modifies this
      ensures Valid() && old(events) <= events && old(tokenUpdated) <= tokenUpdated && old(rolledOut) <= rolledOut
      ensures r.done ==> IsDone()
      ensures IsDone() && !old(IsDone()) ==> r.done
      ensures r.suspended <==> e.GatewayUpdated? && e.state.suspended && !old(gateway).suspended && rolledOut != names
      ensures e.DeploymentUpdated? ==>
                tokenUpdated == old(tokenUpdated)
                  + if e.deployment.spec.tokenHash != old(currentHash[e.name]) && e.deployment.spec.tokenHash != currentTokenHash
                    then {e.name} else {}
      ensures e.DeploymentUpdated? ==>
                rolledOut == old(rolledOut) + if e.name in tokenUpdated && IsRolledOut(e.deployment) then {e.name} else {}
      ensures e.DeploymentUpdated? ==>
                currentHash == if e.deployment.spec.tokenHash != currentTokenHash
                               then old(currentHash)[e.name := e.deployment.spec.tokenHash] else old(currentHash)
      ensures !e.DeploymentUpdated? ==>
                tokenUpdated == old(tokenUpdated) && rolledOut == old(rolledOut) && currentHash == old(currentHash)
      ensures gateway == if e.GatewayUpdated? then e.state else old(gateway)
      ensures podState == PodStates(old(podState), e)
    {
      r := WatchResult(false, false);
      if e.DeploymentUpdated? {
        r := HandleDeployUpdate(e.name, e.deployment);
      } else if e.GatewayUpdated? {
        r := HandleGatewayUpdate(e.state);
      } else {
        ProcessPod(e);
      }
    }

    /** What a finished watch still receives. */
    method Drain(late: seq<InformerEvent>)
      requires Valid() && rolledOut == names
      requires forall i :: 0 <= i < |late| ==> Concerns(late[i], names)
      modifies this
      ensures Valid() && old(events) <= events && rolledOut == names
    {
      for k := 0 to |late|
        invariant Valid() && old(events) <= events && rolledOut == names
      {
        var ignored := ProcessEvent(late[k]);
      }
    }

    /** Among the first n events, some show a new hash for the Deployment, and it or a later one shows
        it rolled out. */
    ghost predicate ShowsRolledOut(stream: seq<InformerEvent>, n: nat, name: string, before: string)
      requires n <= |stream|
    {
      exists k, l :: 0 <= k <= l < n && Shows(stream[k], name, before) && stream[l].DeploymentUpdated? && stream[l].name == name
                     && IsRolledOut(stream[l].deployment)
    }

    ghost predicate Shows(e: InformerEvent, name: string, before: string) {
      e.DeploymentUpdated? && e.name == name && e.deployment.spec.tokenHash != before && e.deployment.spec.tokenHash != currentTokenHash
    }

    /** The watch loop over everything delivered before the time-out; `late` is delivered while
        a finished watch drains its channel. A watch finishes only when every Deployment rolled
        out, is suspended only before that, and times out only when it never was done. */
    method Watch(stream: seq<InformerEvent>, late: seq<InformerEvent>) returns (end: WatchEnd)
      requires Valid()
      requires forall i :: 0 <= i < |stream| ==> Concerns(stream[i], names)
      requires forall i :: 0 <= i < |late| ==> Concerns(late[i], names)
      modifies this
      ensures Valid() && old(events) <= events
      ensures end.Finished? ==> rolledOut == names
      ensures end.Suspended? ==> rolledOut != names && gateway.suspended
      ensures end.TimedOut? ==> !IsDone()
      ensures end.TimedOut? ==> forall n :: n in names && ShowsRolledOut(stream, |stream|, n, old(currentHash)[n]) ==> n in rolledOut
    {
      if IsDone() {
        return Finished;
      }
      for i := 0 to |stream|
        invariant Valid() && old(events) <= events && !IsDone()
        invariant forall n :: n in names ==> currentHash[n] == old(currentHash)[n] || n in tokenUpdated
        invariant forall n, k :: n in names && 0 <= k < i && Shows(stream[k], n, old(currentHash)[n]) ==> n in tokenUpdated
        invariant forall n :: n in names && ShowsRolledOut(stream, i, n, old(currentHash)[n]) ==> n in rolledOut
      {
        var r := ProcessEvent(stream[i]);
        if r.suspended {
          return Suspended;
        }
        if r.done {
          Drain(late);
          return Finished;
        }
      }
      return TimedOut;
    }
  }

  // ---------- The order check of the report ----------

  /** One Deployment's rollout: from its token update until it rolled out. */
  datatype Timeline = Timeline(name: string, tokenUpdated: int, rolledOut: int)

  ghost predicate Sorted(ts: seq<Timeline>) {
    forall i, j :: 0 <= i < j < |ts| ==> ts[i].tokenUpdated <= ts[j].tokenUpdated
  }

  /** Rollouts take time. */
  ghost predicate Proper(ts: seq<Timeline>) {
    forall i :: 0 <= i < |ts| ==> ts[i].tokenUpdated < ts[i].rolledOut
  }

  predicate Disjoint(s: Timeline, t: Timeline) {
    s.rolledOut <= t.tokenUpdated || t.rolledOut <= s.tokenUpdated
  }

  /** No two of the rollouts overlap. */
  ghost predicate OneAtATimeReport(ts: seq<Timeline>) {
    forall i, j :: 0 <= i < j < |ts| ==> Disjoint(ts[i], ts[j])
  }

  predicate NeighboursInOrder(ts: seq<Timeline>, n: nat)
    requires n <= |ts|
  {
    forall i :: 0 < i < n ==> ts[i - 1].rolledOut <= ts[i].tokenUpdated
  }

  /** The neighbour check of printReport: the index of the last violation, if any. */
  method CheckOrder(timelines: seq<Timeline>) returns (violation: Option<nat>)
    ensures violation.None? <==> NeighboursInOrder(timelines, |timelines|)
    ensures violation.Some? ==> 0 < violation.value < |timelines|
                                && timelines[violation.value].tokenUpdated < timelines[violation.value - 1].rolledOut
  {
    violation := None;
    for i := 0 to |timelines|
      invariant violation.None? <==> NeighboursInOrder(timelines, i)
      invariant violation.Some? ==> 0 < violation.value < i
                                    && timelines[violation.value].tokenUpdated < timelines[violation.value - 1].rolledOut
    {
      if i > 0 && timelines[i].tokenUpdated < timelines[i - 1].rolledOut {
        violation := Some(i);
      }
    }
  }

  lemma {:induction false} NeighboursReach(ts: seq<Timeline>, i: nat, j: nat)
    requires Proper(ts) && NeighboursInOrder(ts, |ts|) && i < j < |ts|
    ensures ts[i].rolledOut <= ts[j].tokenUpdated
    decreases j
  {
    if i < j - 1 {
      NeighboursReach(ts, i, j - 1);
    }
    assert ts[j - 1].rolledOut <= ts[j].tokenUpdated;
  }

  /** For timelines sorted by their token updates, the neighbour check passes exactly when all
      rollouts are pairwise disjoint. */
  lemma NeighbourCheckIsExact(ts: seq<Timeline>)
    requires Sorted(ts) && Proper(ts)
    ensures NeighboursInOrder(ts, |ts|) <==> OneAtATimeReport(ts)
  {
    if NeighboursInOrder(ts, |ts|) {
      forall i, j | 0 <= i < j < |ts|
        ensures Disjoint(ts[i], ts[j])
      {
        NeighboursReach(ts, i, j);
      }
    }
    if OneAtATimeReport(ts) {
      forall i | 0 < i < |ts|
        ensures ts[i - 1].rolledOut <= ts[i].tokenUpdated
      {
        assert Disjoint(ts[i - 1], ts[i]);
      }
    }
  }
}
