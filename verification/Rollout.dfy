/** The rolling update of a Gateway's tunnel Deployments: applyTunnelDeployments and
    checkAllDeploymentsReadiness of internal/controller/gateway_tunnel.go, over runs of passes
    interleaved with status changes. */
module Rollout {
  import opened Base
  import opened Names

  /** A pod-template hash, the wanted number of pods, and everything else in the spec. */
  datatype Spec = Spec(tokenHash: string, replicas: Option<int>, rest: string)

  datatype Status = Status(observedGeneration: int, updated: int, replicas: int, ready: int, progressingFalse: bool)

  datatype Deployment = Deployment(spec: Spec, generation: int, status: Status)

  /** The wanted number of pods: one unless the spec says otherwise. */
  function Wanted(d: Deployment): (n: int)
    ensures d.spec.replicas.None? ==> n == 1
    ensures d.spec.replicas.Some? ==> n == d.spec.replicas.value
  {
    if d.spec.replicas.Some? then d.spec.replicas.value else 1
  }

  /** isDeploymentRolledOut */
  predicate IsRolledOut(d: Deployment) {
    && d.status.observedGeneration >= d.generation
    && d.status.updated >= Wanted(d)
    && d.status.replicas <= d.status.updated
    && d.status.ready >= d.status.updated
  }

  /** How the API calls of a pass end, by replica: whether Get fails, and what Apply does. */
  datatype Faults = Faults(get: nat -> bool, apply: nat -> Call)

  const NO_FAULTS := Faults(_ => false, _ => Call.Done)

  /** The Deployments by name, and those the controller has updated and has since seen neither
      rolled out nor failed. */
  datatype State = State(deployments: map<string, Deployment>, inFlight: set<string>)

  /** Why a walk over the replicas ended. */
  datatype Outcome = Completed | Waiting(i: nat) | Updated(i: nat) | Error(i: nat)

  datatype Walked = Walked(state: State, outcome: Outcome)

  type Desired = string -> Spec

  predicate Outdated(s: State, name: string, desired: Desired) {
    name !in s.deployments || s.deployments[name].spec != desired(name)
  }

  /** Server-side apply: a change bumps the generation; a new Deployment has an empty status. */
  function Applied(s: State, name: string, desired: Desired): State {
    if !Outdated(s, name, desired) then s
    else if name in s.deployments then
      var d := s.deployments[name];
      State(s.deployments[name := d.(spec := desired(name), generation := d.generation + 1)], s.inFlight + {name})
    else
      s.(deployments := s.deployments[name := Deployment(desired(name), 1, Status(0, 0, 0, 0, false))])
  }

  /** The walk over the replicas from index i on. */
  function Walk(names: seq<string>, desired: Desired, faults: Faults, i: nat, s: State): Walked
    requires i <= |names|
    decreases |names| - i
  {
    if i == |names| then Walked(s, Completed) else
    var name := names[i];
    var present := name in s.deployments;
    if faults.get(i) then Walked(s, Error(i))
    else if present && !IsRolledOut(s.deployments[name]) && !s.deployments[name].status.progressingFalse then
      Walked(s, Waiting(i))
    else
      var seen := s.(inFlight := s.inFlight - {name});
      match faults.apply(i)
      case Refused => Walked(seen, Error(i))
      case Lost => Walked(Applied(seen, name, desired), Error(i))
      case Done =>
        if present && Outdated(seen, name, desired) then Walked(Applied(seen, name, desired), Updated(i))
        else Walk(names, desired, faults, i + 1, Applied(seen, name, desired))
  }

  datatype GetResult = Found(deployment: Deployment) | NotFound | GetError

  datatype ApplyResult = Changed | Unchanged | ApplyError

  /** The cluster as one Gateway's reconciler sees and changes it. */
  class Cluster {
    var deployments: map<string, Deployment>
    ghost var inFlight: set<string>

    constructor (existing: map<string, Deployment>)
      ensures Snapshot() == State(existing, {})
    {
      deployments := existing;
      inFlight := {};
    }

    ghost function Snapshot(): State
      reads this
    {
      State(deployments, inFlight)
    }

    method Get(name: string, fails: bool) returns (r: GetResult)
      ensures r == if fails then GetError else if name in deployments then Found(deployments[name]) else NotFound
    {
      if fails {
        r := GetError;
      } else if name in deployments {
        r := Found(deployments[name]);
      } else {
        r := NotFound;
      }
    }

    /** applyOneDeployment */
    method ApplyOne(name: string, desired: Desired, call: Call) returns (r: ApplyResult)
      modifies this
      ensures Snapshot() == if call.Refused? then old(Snapshot()) else Applied(old(Snapshot()), name, desired)
      ensures r == if !call.Done? then ApplyError
                   else if Outdated(old(Snapshot()), name, desired) then Changed else Unchanged
    {
      if call.Refused? {
        return ApplyError;
      }
      var changed := true;
      if name in deployments {
        var d := deployments[name];
        if d.spec == desired(name) {
          changed := false;
        } else {
          deployments := deployments[name := d.(spec := desired(name), generation := d.generation + 1)];
          inFlight := inFlight + {name};
        }
      } else {
        deployments := deployments[name := Deployment(desired(name), 1, Status(0, 0, 0, 0, false))];
      }
      r := if call.Lost? then ApplyError else if changed then Changed else Unchanged;
    }

    /** applyTunnelDeployments: one pass. */
    method ApplyTunnelDeployments(names: seq<string>, desired: Desired, faults: Faults) returns (outcome: Outcome)
      modifies this
      ensures Walked(Snapshot(), outcome) == Walk(names, desired, faults, 0, old(Snapshot()))
      ensures Distinct(names) ==>
                forall n :: n in old(deployments) && n in deployments && deployments[n] != old(deployments)[n] ==>
                              var d := old(deployments)[n];
                              d.status.progressingFalse
                              || (d.generation <= d.status.observedGeneration && Wanted(d) <= d.status.updated
                                  && d.status.replicas <= d.status.updated <= d.status.ready)
    {
      if Distinct(names) {
        WalkTouchesOnlyRolledOut(names, desired, faults, 0, Snapshot());
      }
      var i := 0;
      while i < |names|
        invariant 0 <= i <= |names|
        invariant Walk(names, desired, faults, i, Snapshot()) == Walk(names, desired, faults, 0, old(Snapshot()))
      {
        var name := names[i];
        var existing := Get(name, faults.get(i));
        if existing.GetError? {
          return Error(i);
        }
        if existing.Found? && !IsRolledOut(existing.deployment) {
          if existing.deployment.status.progressingFalse {
            inFlight := inFlight - {name};
            var r := ApplyOne(name, desired, faults.apply(i));
            if r.ApplyError? {
              return Error(i);
            }
            if r.Changed? {
              return Updated(i);
            }
            i := i + 1;
            continue;
          }
          return Waiting(i);
        }
        inFlight := inFlight - {name};
        var r := ApplyOne(name, desired, faults.apply(i));
        if r.ApplyError? {
          return Error(i);
        }
        if r.Changed? && existing.Found? {
          return Updated(i);
        }
        i := i + 1;
      }
      outcome := Completed;
    }
  }

  // ---------- Safety ----------

  predicate Distinct(names: seq<string>) {
    forall i, j :: 0 <= i < j < |names| ==> names[i] != names[j]
  }

  /** The Deployment names of a Gateway's replicas. */
  function DeploymentNames(gw: GatewayKey, replicas: seq<string>): (names: seq<string>)
    ensures |names| == |replicas|
  {
    seq(|replicas|, i requires 0 <= i < |replicas| => GatewayReplicaName(gw, replicas[i]))
  }

  /** Distinct replicas have distinct Deployments. */
  lemma DistinctReplicasHaveDistinctNames(gw: GatewayKey, replicas: seq<string>)
    ensures Distinct(DeploymentNames(gw, replicas)) <==> Distinct(replicas)
  {
    forall i, j | 0 <= i < j < |replicas|
      ensures DeploymentNames(gw, replicas)[i] == DeploymentNames(gw, replicas)[j] <==> replicas[i] == replicas[j]
    {
      ReplicaNameIsInjective(gw, replicas[i], replicas[j]);
    }
  }

  ghost predicate UpToDate(s: State, names: seq<string>, desired: Desired, n: nat)
    requires n <= |names|
  {
    forall j :: 0 <= j < n ==> !Outdated(s, names[j], desired)
  }

  /** Replica k is in flight, and it and every earlier replica has the desired spec. */
  ghost predicate InFlightAt(s: State, names: seq<string>, desired: Desired, k: nat) {
    k < |names| && names[k] in s.inFlight && UpToDate(s, names, desired, k + 1)
  }

  /** Nothing is in flight, or exactly one replica is, behind replicas that have the desired spec. */
  ghost predicate OneAtATime(s: State, names: seq<string>, desired: Desired) {
    s.inFlight == {} || exists k: nat :: InFlightAt(s, names, desired, k) && s.inFlight == {names[k]}
  }

  /** No replica before index n is in flight. */
  ghost predicate Cleared(s: State, names: seq<string>, n: nat)
    requires n <= |names|
  {
    forall j :: 0 <= j < n ==> names[j] !in s.inFlight
  }

  /** A walk keeps at most one update in flight, once it has found the replicas before i up to
      date and cleared them. */
  lemma {:induction false} WalkIsSafe(names: seq<string>, desired: Desired, faults: Faults, i: nat, s: State)
    requires Distinct(names) && i <= |names|
    requires OneAtATime(s, names, desired) && UpToDate(s, names, desired, i) && Cleared(s, names, i)
    ensures OneAtATime(Walk(names, desired, faults, i, s).state, names, desired)
    decreases |names| - i
  {
    if i < |names| {
      var name := names[i];
      var seen := s.(inFlight := s.inFlight - {name});
      ClearingIsSafe(names, desired, i, s);
      ApplyIsSafe(names, desired, i, seen);
      if !(name in s.deployments && Outdated(seen, name, desired)) {
        WalkIsSafe(names, desired, faults, i + 1, Applied(seen, name, desired));
      }
    }
  }

  lemma ClearingIsSafe(names: seq<string>, desired: Desired, i: nat, s: State)
    requires Distinct(names) && i < |names|
    requires OneAtATime(s, names, desired) && UpToDate(s, names, desired, i) && Cleared(s, names, i)
    ensures var seen := s.(inFlight := s.inFlight - {names[i]});
            OneAtATime(seen, names, desired) && UpToDate(seen, names, desired, i) && Cleared(seen, names, i + 1)
  {
    var seen := s.(inFlight := s.inFlight - {names[i]});
    assert forall j :: 0 <= j < |names| ==> Outdated(seen, names[j], desired) == Outdated(s, names[j], desired);
    if s.inFlight != {} {
      var k: nat :| InFlightAt(s, names, desired, k) && s.inFlight == {names[k]};
      if k == i {
        assert seen.inFlight == {};
      } else {
        assert seen.inFlight == {names[k]} && InFlightAt(seen, names, desired, k);
      }
    }
  }

  /** Applying replica i, with all earlier ones up to date and none up to it in flight. Were a
      later one in flight, replica i would be up to date already and the apply a no-op. */
  lemma ApplyIsSafe(names: seq<string>, desired: Desired, i: nat, s: State)
    requires Distinct(names) && i < |names|
    requires OneAtATime(s, names, desired) && UpToDate(s, names, desired, i) && Cleared(s, names, i + 1)
    ensures var t := Applied(s, names[i], desired);
            && OneAtATime(t, names, desired) && UpToDate(t, names, desired, i + 1)
            && (!(names[i] in s.deployments && Outdated(s, names[i], desired)) ==> Cleared(t, names, i + 1))
  {
    var t := Applied(s, names[i], desired);
    assert forall j :: 0 <= j < i ==> Outdated(t, names[j], desired) == Outdated(s, names[j], desired);
    if s.inFlight != {} {
      var k: nat :| InFlightAt(s, names, desired, k) && s.inFlight == {names[k]};
      assert !Outdated(s, names[i], desired);
    } else if t.inFlight != {} {
      assert t.inFlight == {names[i]} && InFlightAt(t, names, desired, i);
    }
  }

  /** A pass updates at most one existing Deployment; every other existing one keeps its spec,
      generation and status. */
  lemma {:induction false} WalkUpdatesAtMostOne(names: seq<string>, desired: Desired, faults: Faults, i: nat, s: State)
    requires i <= |names|
    ensures var w := Walk(names, desired, faults, i, s);
            && w.state.deployments.Keys >= s.deployments.Keys
            && (w.outcome.Completed? || w.outcome.i < |names|)
            && forall n :: n in s.deployments && w.state.deployments[n] != s.deployments[n] ==>
                             !w.outcome.Completed? && !w.outcome.Waiting? && n == names[w.outcome.i]
    decreases |names| - i
  {
    if i < |names| {
      var seen := s.(inFlight := s.inFlight - {names[i]});
      if !(names[i] in s.deployments && Outdated(seen, names[i], desired)) {
        WalkUpdatesAtMostOne(names, desired, faults, i + 1, Applied(seen, names[i], desired));
      }
    }
  }

  // ---------- What a pass asks of the replicas ----------

  /** A pass changes an existing Deployment only when it is rolled out or has failed, and waits
      only for one that is neither. */
  lemma {:induction false} WalkTouchesOnlyRolledOut(names: seq<string>, desired: Desired, faults: Faults, i: nat, s: State)
    requires i <= |names| && Distinct(names)
    ensures var w := Walk(names, desired, faults, i, s);
            && w.state.deployments.Keys >= s.deployments.Keys
            && (forall n :: n in s.deployments && w.state.deployments[n] != s.deployments[n] ==>
                              var st, g := s.deployments[n].status, s.deployments[n].generation;
                              st.progressingFalse || (g <= st.observedGeneration && Wanted(s.deployments[n]) <= st.updated
                                                      && st.replicas <= st.updated <= st.ready))
            && (w.outcome.Waiting? ==>
                  && i <= w.outcome.i < |names| && names[w.outcome.i] in s.deployments
                  && var d := s.deployments[names[w.outcome.i]]; var st := d.status;
                     !st.progressingFalse && !(d.generation <= st.observedGeneration && Wanted(d) <= st.updated
                                               && st.replicas <= st.updated <= st.ready))
    decreases |names| - i
  {
    if i < |names| {
      var seen := s.(inFlight := s.inFlight - {names[i]});
      if !(names[i] in s.deployments && Outdated(seen, names[i], desired)) {
        WalkTouchesOnlyRolledOut(names, desired, faults, i + 1, Applied(seen, names[i], desired));
      }
    }
  }

  /** Absent replicas are all created in one pass: a faultless pass that meets no existing replica
      in need of it ends with every replica present and at its desired spec, the existing ones
      untouched. */
  lemma {:induction false} PassCreatesAllAbsent(names: seq<string>, desired: Desired, faults: Faults, i: nat, s: State)
    requires i <= |names| && Distinct(names)
    requires forall j :: i <= j < |names| ==> !faults.get(j) && faults.apply(j).Done?
    requires forall j :: i <= j < |names| && names[j] in s.deployments ==>
                           var d := s.deployments[names[j]];
                           d.spec == desired(names[j]) && (IsRolledOut(d) || d.status.progressingFalse)
    ensures var w := Walk(names, desired, faults, i, s);
            && w.outcome.Completed?
            && (forall j :: i <= j < |names| ==> names[j] in w.state.deployments && w.state.deployments[names[j]].spec == desired(names[j]))
            && (forall j :: i <= j < |names| && names[j] !in s.deployments ==>
                              w.state.deployments[names[j]].status.observedGeneration < w.state.deployments[names[j]].generation)
            && forall n :: n in s.deployments ==> n in w.state.deployments && w.state.deployments[n] == s.deployments[n]
    decreases |names| - i
  {
    if i < |names| {
      var seen := s.(inFlight := s.inFlight - {names[i]});
      PassCreatesAllAbsent(names, desired, faults, i + 1, Applied(seen, names[i], desired));
    }
  }

  // ---------- Progress ----------

  /** How many replicas from index i on are absent or outdated. */
  function OutdatedFrom(s: State, names: seq<string>, desired: Desired, i: nat): nat
    requires i <= |names|
    decreases |names| - i
  {
    if i == |names| then 0
    else (if Outdated(s, names[i], desired) then 1 else 0) + OutdatedFrom(s, names, desired, i + 1)
  }

  lemma {:induction false} SameOutdated(s: State, t: State, names: seq<string>, desired: Desired, i: nat)
    requires i <= |names|
    requires forall j :: i <= j < |names| ==> Outdated(s, names[j], desired) == Outdated(t, names[j], desired)
    ensures OutdatedFrom(s, names, desired, i) == OutdatedFrom(t, names, desired, i)
    decreases |names| - i
  {
    if i < |names| { SameOutdated(s, t, names, desired, i + 1); }
  }

  lemma {:induction false} WalkKeepsBefore(names: seq<string>, desired: Desired, faults: Faults, i: nat, s: State, name: string)
    requires i <= |names| && forall j :: i <= j < |names| ==> names[j] != name
    ensures Outdated(Walk(names, desired, faults, i, s).state, name, desired) == Outdated(s, name, desired)
    decreases |names| - i
  {
    if i < |names| {
      var seen := s.(inFlight := s.inFlight - {names[i]});
      WalkKeepsBefore(names, desired, faults, i + 1, Applied(seen, names[i], desired), name);
    }
  }

  /** A replica a pass waits for exists, is not rolled out and has not failed. */
  ghost predicate RollingOut(s: State, name: string) {
    && name in s.deployments && !IsRolledOut(s.deployments[name])
    && !s.deployments[name].status.progressingFalse
  }

  /** What the first outdated replica of a walk contributes to the count. */
  lemma {:induction false} ApplyLowersOutdated(names: seq<string>, desired: Desired, i: nat, s: State)
    requires Distinct(names) && i < |names|
    ensures var t := Applied(s.(inFlight := s.inFlight - {names[i]}), names[i], desired);
            && !Outdated(t, names[i], desired)
            && OutdatedFrom(t, names, desired, i + 1) == OutdatedFrom(s, names, desired, i + 1)
            && OutdatedFrom(t, names, desired, i) == OutdatedFrom(s, names, desired, i + 1)
  {
    var t := Applied(s.(inFlight := s.inFlight - {names[i]}), names[i], desired);
    SameOutdated(s, t, names, desired, i + 1);
  }

  /** A walk never adds outdated replicas; without faults it waits on one that is still
      rolling out, or ends with none outdated, or has strictly fewer than before. */
  ghost predicate Progresses(names: seq<string>, desired: Desired, faults: Faults, i: nat, s: State)
    requires i <= |names|
  {
    var w := Walk(names, desired, faults, i, s);
    && OutdatedFrom(w.state, names, desired, i) <= OutdatedFrom(s, names, desired, i)
    && match w.outcome
       case Completed => OutdatedFrom(w.state, names, desired, i) == 0
       case Updated(_) => OutdatedFrom(w.state, names, desired, i) < OutdatedFrom(s, names, desired, i)
       case Waiting(k) => i <= k < |names| && RollingOut(w.state, names[k])
       case Error(k) => i <= k < |names| && (faults.get(k) || !faults.apply(k).Done?)
  }

  lemma {:induction false} WalkProgresses(names: seq<string>, desired: Desired, faults: Faults, i: nat, s: State)
    requires Distinct(names) && i <= |names|
    ensures Progresses(names, desired, faults, i, s)
    decreases |names| - i
  {
    if i < |names| {
      var name := names[i];
      var seen := s.(inFlight := s.inFlight - {name});
      var applied := Applied(seen, name, desired);
      ApplyLowersOutdated(names, desired, i, s);
      if faults.get(i) || RollingOut(s, name) {
      } else if faults.apply(i).Refused? {
        SameOutdated(s, seen, names, desired, i);
      } else if faults.apply(i).Done? && !(name in s.deployments && Outdated(seen, name, desired)) {
        WalkProgresses(names, desired, faults, i + 1, applied);
        WalkKeepsBefore(names, desired, faults, i + 1, applied, name);
      }
    }
  }

  // ---------- Runs ----------

  /** A pass with its faults, or a change of Deployment statuses by the environment. */
  datatype Step = Pass(faults: Faults) | StatusChange

  /** The environment may change every status at will; specs and generations are the controller's. */
  ghost predicate StatusChanged(s: State, t: State) {
    && s.deployments.Keys == t.deployments.Keys && s.inFlight == t.inFlight
    && forall n :: n in s.deployments ==>
                     s.deployments[n].spec == t.deployments[n].spec && s.deployments[n].generation == t.deployments[n].generation
  }

  ghost predicate IsStep(s: State, step: Step, t: State, names: seq<string>, desired: Desired) {
    match step
    case Pass(faults) => t == Walk(names, desired, faults, 0, s).state
    case StatusChange => StatusChanged(s, t)
  }

  /** A run with a fixed replica list and a fixed desired spec, from any cluster in which the
      controller has nothing in flight. */
  ghost predicate IsRun(states: seq<State>, steps: seq<Step>, names: seq<string>, desired: Desired) {
    && Distinct(names) && |states| == |steps| + 1 && states[0].inFlight == {}
    && forall i :: 0 <= i < |steps| ==> IsStep(states[i], steps[i], states[i + 1], names, desired)
  }

  lemma {:induction false} StatusChangeIsSafe(s: State, t: State, names: seq<string>, desired: Desired)
    requires StatusChanged(s, t)
    ensures OneAtATime(s, names, desired) ==> OneAtATime(t, names, desired)
    ensures OutdatedFrom(t, names, desired, 0) == OutdatedFrom(s, names, desired, 0)
  {
    assert forall n :: Outdated(s, n, desired) == Outdated(t, n, desired);
    SameOutdated(s, t, names, desired, 0);
    if OneAtATime(s, names, desired) && s.inFlight != {} {
      var k: nat :| InFlightAt(s, names, desired, k) && s.inFlight == {names[k]};
      assert InFlightAt(t, names, desired, k);
    }
  }

  /** One rollout at a time, at every point of every run: whatever the environment does and
      whichever API calls fail, at most one replica has been updated and not since been seen
      rolled out or failed, and every replica before it already has the desired spec. */
  lemma {:induction false} OneRolloutAtATime(states: seq<State>, steps: seq<Step>, names: seq<string>, desired: Desired, i: nat)
    requires IsRun(states, steps, names, desired) && i < |states|
    ensures OneAtATime(states[i], names, desired)
  {
    if i > 0 {
      OneRolloutAtATime(states, steps, names, desired, i - 1);
      assert IsStep(states[i - 1], steps[i - 1], states[i], names, desired);
      match steps[i - 1] {
        case Pass(faults) => WalkIsSafe(names, desired, faults, 0, states[i - 1]);
        case StatusChange => StatusChangeIsSafe(states[i - 1], states[i], names, desired);
      }
    }
  }

  // ---------- The same without bookkeeping ----------

  /** Kubernetes has not yet observed the Deployment's latest spec. */
  predicate Unobserved(s: State, name: string) {
    name in s.deployments && s.deployments[name].status.observedGeneration < s.deployments[name].generation
  }

  /** No replica whose spec is unobserved carries a Progressing=False, which could only be about
      an earlier spec. */
  ghost predicate NoStaleFailure(s: State) {
    forall n :: Unobserved(s, n) ==> !s.deployments[n].status.progressingFalse
  }

  ghost predicate AllExist(s: State, names: seq<string>) {
    forall j :: 0 <= j < |names| ==> names[j] in s.deployments
  }

  /** Every replica exists, and only updates in flight are unobserved. */
  ghost predicate Observed(s: State, names: seq<string>) {
    AllExist(s, names) && forall n :: Unobserved(s, n) ==> n in s.inFlight
  }

  lemma {:induction false} WalkKeepsObserved(names: seq<string>, desired: Desired, faults: Faults, i: nat, s: State)
    requires i <= |names| && Observed(s, names) && NoStaleFailure(s)
    ensures Observed(Walk(names, desired, faults, i, s).state, names)
    decreases |names| - i
  {
    if i < |names| {
      var seen := s.(inFlight := s.inFlight - {names[i]});
      if !RollingOut(s, names[i]) {
        assert Observed(seen, names) && NoStaleFailure(seen) by {
          assert forall n :: Unobserved(seen, n) ==> Unobserved(s, n) && n != names[i];
        }
        assert Observed(Applied(seen, names[i], desired), names);
        if !Outdated(seen, names[i], desired) {
          WalkKeepsObserved(names, desired, faults, i + 1, Applied(seen, names[i], desired));
        }
      }
    }
  }

  /** Once observed, a generation stays observed. */
  ghost predicate ObservationsLast(states: seq<State>) {
    forall i, n :: 0 <= i < |states| - 1 && n in states[i].deployments && n in states[i + 1].deployments ==>
                     states[i].deployments[n].status.observedGeneration <= states[i + 1].deployments[n].status.observedGeneration
  }

  lemma {:induction false} RunKeepsObserved(states: seq<State>, steps: seq<Step>, names: seq<string>, desired: Desired, i: nat)
    requires IsRun(states, steps, names, desired) && ObservationsLast(states) && i < |states|
    requires Observed(states[0], names) && forall k :: 0 <= k < |states| ==> NoStaleFailure(states[k])
    ensures Observed(states[i], names)
  {
    if i > 0 {
      RunKeepsObserved(states, steps, names, desired, i - 1);
      assert IsStep(states[i - 1], steps[i - 1], states[i], names, desired);
      match steps[i - 1] {
        case Pass(faults) => WalkKeepsObserved(names, desired, faults, 0, states[i - 1]);
        case StatusChange =>
          assert forall n :: Unobserved(states[i], n) ==> Unobserved(states[i - 1], n);
      }
    }
  }

  /** What a cluster shows of it: from replicas that all exist and are observed, no two replicas
      ever have a spec that Kubernetes has not observed, as long as no failure outlives the
      update meant to cure it. Replicas with an observed spec may fail at will. */
  lemma UnobservedAtMostOne(states: seq<State>, steps: seq<Step>, names: seq<string>, desired: Desired, i: nat, a: string, b: string)
    requires IsRun(states, steps, names, desired) && ObservationsLast(states) && i < |states|
    requires Observed(states[0], names) && forall k :: 0 <= k < |states| ==> NoStaleFailure(states[k])
    requires Unobserved(states[i], a) && Unobserved(states[i], b)
    ensures a == b
  {
    OneRolloutAtATime(states, steps, names, desired, i);
    RunKeepsObserved(states, steps, names, desired, i);
  }

  /** A walk from replica i on gets to replica j: no call on the way fails, and no replica on the
      way is rolling out or outdated. */
  ghost predicate Reaches(s: State, names: seq<string>, desired: Desired, faults: Faults, i: nat, j: nat) {
    && i <= j < |names| && !faults.get(j)
    && forall k :: i <= k < j ==>
                     !faults.get(k) && faults.apply(k).Done? && !RollingOut(s, names[k]) && !Outdated(s, names[k], desired)
  }

  /** It also updates it. */
  ghost predicate Updates(s: State, names: seq<string>, desired: Desired, faults: Faults, i: nat, j: nat) {
    && Reaches(s, names, desired, faults, i, j) && !faults.apply(j).Refused?
    && !RollingOut(s, names[j]) && Outdated(s, names[j], desired)
  }

  /** When all replicas exist, a walk changes exactly the one replica that it updates, and
      nothing when there is none. */
  lemma {:induction false} WalkUpdatesExactly(names: seq<string>, desired: Desired, faults: Faults, i: nat, s: State)
    returns (hit: Option<nat>)
    requires i <= |names| && AllExist(s, names)
    ensures hit.Some? ==> hit.value < |names|
    ensures forall j: nat :: Updates(s, names, desired, faults, i, j) <==> hit == Some(j)
    ensures Walk(names, desired, faults, i, s).state.deployments
            == if hit.Some? then Applied(s, names[hit.value], desired).deployments else s.deployments
    decreases |names| - i
  {
    hit := None;
    if i < |names| {
      var seen := s.(inFlight := s.inFlight - {names[i]});
      if Updates(s, names, desired, faults, i, i) {
        hit := Some(i);
      } else if !faults.get(i) && faults.apply(i).Done? && !RollingOut(s, names[i]) {
        hit := WalkUpdatesExactly(names, desired, faults, i + 1, seen);
        forall j: nat
          ensures Updates(s, names, desired, faults, i, j) <==> Updates(seen, names, desired, faults, i + 1, j)
        {
          SameUpdates(s, seen, names, desired, faults, i + 1, j);
        }
      }
    }
  }

  lemma SameUpdates(s: State, t: State, names: seq<string>, desired: Desired, faults: Faults, i: nat, j: nat)
    requires s.deployments == t.deployments
    ensures Updates(s, names, desired, faults, i, j) == Updates(t, names, desired, faults, i, j)
  {
    assert forall n :: RollingOut(s, n) == RollingOut(t, n) && Outdated(s, n, desired) == Outdated(t, n, desired);
  }

  /** When a pass starts a second rollout: while one replica is unobserved, a pass leaves another
      one unobserved too if and only if it updates a replica other than that one. To get past the
      unobserved replica, that one must be up to date and carry a Progressing=False; to stop
      before it, an earlier replica must be outdated. */
  lemma {:induction false} SecondRolloutExactly(names: seq<string>, desired: Desired, faults: Faults, s: State, k: nat)
    requires Distinct(names) && AllExist(s, names) && k < |names|
    requires forall n :: Unobserved(s, n) <==> n == names[k]
    requires forall n :: n in s.deployments ==> s.deployments[n].status.observedGeneration <= s.deployments[n].generation
    ensures (exists n :: n != names[k] && Unobserved(Walk(names, desired, faults, 0, s).state, n)) <==>
            (exists j: nat :: j != k && Updates(s, names, desired, faults, 0, j))
  {
    var t := Walk(names, desired, faults, 0, s).state;
    var hit := WalkUpdatesExactly(names, desired, faults, 0, s);
    if hit.Some? {
      var j := hit.value;
      assert Updates(s, names, desired, faults, 0, j);
      assert Unobserved(t, names[j]);
      assert forall n :: n != names[j] ==> Unobserved(t, n) == Unobserved(s, n);
    } else {
      assert forall n :: Unobserved(t, n) == Unobserved(s, n);
    }
  }

  /** Replica j is outdated and free to be updated, and nothing between replica k and it is
      rolling out or outdated. */
  ghost predicate NextInLine(s: State, names: seq<string>, desired: Desired, k: nat, j: nat) {
    && k < j < |names| && Outdated(s, names[j], desired) && !RollingOut(s, names[j])
    && forall l :: k < l < j ==> !RollingOut(s, names[l]) && !Outdated(s, names[l], desired)
  }

  /** With a fixed desired spec the unobserved replica and all before it are up to date. Then a
      faultless pass starts a second rollout if and only if the unobserved replica carries a
      Progressing=False, none before it is rolling out, and another replica is next in line. */
  lemma {:induction false} FaultlessSecondRollout(names: seq<string>, desired: Desired, s: State, k: nat)
    requires Distinct(names) && AllExist(s, names) && k < |names| && UpToDate(s, names, desired, k + 1)
    requires forall n :: Unobserved(s, n) <==> n == names[k]
    requires forall n :: n in s.deployments ==> s.deployments[n].status.observedGeneration <= s.deployments[n].generation
    ensures (exists n :: n != names[k] && Unobserved(Walk(names, desired, NO_FAULTS, 0, s).state, n)) <==>
            && s.deployments[names[k]].status.progressingFalse
            && (forall l :: 0 <= l < k ==> !RollingOut(s, names[l]))
            && exists j: nat :: NextInLine(s, names, desired, k, j)
  {
    SecondRolloutExactly(names, desired, NO_FAULTS, s, k);
    assert Unobserved(s, names[k]);
    if j: nat :| j != k && Updates(s, names, desired, NO_FAULTS, 0, j) {
      assert Outdated(s, names[j], desired) && k < j;
      assert NextInLine(s, names, desired, k, j);
    }
    if s.deployments[names[k]].status.progressingFalse && forall l :: 0 <= l < k ==> !RollingOut(s, names[l]) {
      if j: nat :| NextInLine(s, names, desired, k, j) {
        assert Updates(s, names, desired, NO_FAULTS, 0, j);
      }
    }
  }

  /** Such a failure does start one: the pass after the update of a failed replica updates the
      next replica, if the condition is still there. */
  lemma {:induction false} StaleFailureStartsSecondRollout(names: seq<string>, desired: Desired, s: State)
    requires Distinct(names) && |names| == 2 && s.inFlight == {}
    requires forall j :: 0 <= j < 2 ==>
                           names[j] in s.deployments && Outdated(s, names[j], desired)
                           && s.deployments[names[j]].status.observedGeneration == s.deployments[names[j]].generation
    requires !IsRolledOut(s.deployments[names[0]]) && s.deployments[names[0]].status.progressingFalse
    requires IsRolledOut(s.deployments[names[1]])
    ensures var once := Walk(names, desired, NO_FAULTS, 0, s).state;
            var twice := Walk(names, desired, NO_FAULTS, 0, once).state;
            && OneAtATime(once, names, desired) && Unobserved(twice, names[0]) && Unobserved(twice, names[1])
  {
    var once := Walk(names, desired, NO_FAULTS, 0, s).state;
    var first := WalkUpdatesExactly(names, desired, NO_FAULTS, 0, s);
    assert Updates(s, names, desired, NO_FAULTS, 0, 0);
    WalkIsSafe(names, desired, NO_FAULTS, 0, s);
    var second := WalkUpdatesExactly(names, desired, NO_FAULTS, 0, once);
    assert Updates(once, names, desired, NO_FAULTS, 0, 1);
  }

  // ---------- Bounded progress ----------

  /** Step i is a pass that neither waits nor fails, with something left to bring up to date. */
  predicate Advances(states: seq<State>, steps: seq<Step>, names: seq<string>, desired: Desired, i: nat)
    requires |states| == |steps| + 1 && i < |steps|
  {
    && steps[i].Pass? && OutdatedFrom(states[i], names, desired, 0) > 0
    && var o := Walk(names, desired, steps[i].faults, 0, states[i]).outcome; !o.Waiting? && !o.Error?
  }

  function Advancing(states: seq<State>, steps: seq<Step>, names: seq<string>, desired: Desired, n: nat): nat
    requires |states| == |steps| + 1 && n <= |steps|
  {
    if n == 0 then 0
    else Advancing(states, steps, names, desired, n - 1) + if Advances(states, steps, names, desired, n - 1) then 1 else 0
  }

  /** Bounded progress: the passes that neither wait nor fail while something is outdated are,
      over any run, at most as many as the replicas outdated at its start. */
  lemma {:induction false} RolloutIsBounded(states: seq<State>, steps: seq<Step>, names: seq<string>, desired: Desired, n: nat)
    requires IsRun(states, steps, names, desired) && n <= |steps|
    ensures Advancing(states, steps, names, desired, n) + OutdatedFrom(states[n], names, desired, 0)
            <= OutdatedFrom(states[0], names, desired, 0)
  {
    if n > 0 {
      RolloutIsBounded(states, steps, names, desired, n - 1);
      assert IsStep(states[n - 1], steps[n - 1], states[n], names, desired);
      match steps[n - 1] {
        case Pass(faults) => WalkProgresses(names, desired, faults, 0, states[n - 1]);
        case StatusChange => StatusChangeIsSafe(states[n - 1], states[n], names, desired);
      }
    }
  }

  // ---------- Readiness ----------

  datatype Readiness = Ready | Failed(notReady: seq<string>) | Progressing(notReady: seq<string>)

  predicate DeadlineExceeded(s: map<string, Deployment>, name: string) {
    name in s && s[name].status.progressingFalse
  }

  predicate Serving(s: map<string, Deployment>, name: string, tokenHash: string) {
    name in s && s[name].spec.tokenHash == tokenHash && IsRolledOut(s[name])
  }

  /** The replicas that keep the Gateway from being ready, in order. */
  function NotReady(s: map<string, Deployment>, names: seq<string>, tokenHash: string, n: nat): seq<string>
    requires n <= |names|
  {
    if n == 0 then [] else
    NotReady(s, names, tokenHash, n - 1)
    + if DeadlineExceeded(s, names[n - 1]) || !Serving(s, names[n - 1], tokenHash) then [names[n - 1]] else []
  }

  /** A name is listed exactly when it is one of a replica that is absent, has failed, carries another
      token, or is not rolled out. */
  lemma {:induction false} NotReadyMeans(s: map<string, Deployment>, names: seq<string>, tokenHash: string, n: nat, name: string)
    requires n <= |names|
    ensures name in NotReady(s, names, tokenHash, n) <==>
            name in names[..n] && !(name in s && !s[name].status.progressingFalse && s[name].spec.tokenHash == tokenHash
                                    && s[name].generation <= s[name].status.observedGeneration && Wanted(s[name]) <= s[name].status.updated
                                    && s[name].status.replicas <= s[name].status.updated <= s[name].status.ready)
  {
    if n > 0 {
      NotReadyMeans(s, names, tokenHash, n - 1, name);
      assert names[..n] == names[..n - 1] + [names[n - 1]];
    }
  }

  /** checkAllDeploymentsReadiness, where a failed Get counts as an absent Deployment: Ready
      exactly when every replica exists with the current token, is rolled out and has not
      exceeded its deadline; failed exactly when some replica exceeded it. */
  method CheckAllDeploymentsReadiness(visible: map<string, Deployment>, names: seq<string>, tokenHash: string)
    returns (r: Readiness)
    ensures r.Ready? <==> forall j :: 0 <= j < |names| ==>
                                        && names[j] in visible
                                        && var d := visible[names[j]];
                                           var wanted := if d.spec.replicas.Some? then d.spec.replicas.value else 1;
                                           && d.spec.tokenHash == tokenHash && !d.status.progressingFalse
                                           && d.generation <= d.status.observedGeneration
                                           && wanted <= d.status.updated && d.status.replicas <= d.status.updated
                                           && d.status.updated <= d.status.ready
    ensures r.Failed? <==> exists j :: 0 <= j < |names| && names[j] in visible && visible[names[j]].status.progressingFalse
    ensures !r.Ready? ==> r.notReady == NotReady(visible, names, tokenHash, |names|)
  {
    var allRolledOut, anyDeadlineExceeded := true, false;
    var notReady := [];
    for i := 0 to |names|
      invariant notReady == NotReady(visible, names, tokenHash, i)
      invariant anyDeadlineExceeded <==> exists j :: 0 <= j < i && DeadlineExceeded(visible, names[j])
      invariant !anyDeadlineExceeded ==> (allRolledOut <==> forall j :: 0 <= j < i ==> Serving(visible, names[j], tokenHash))
    {
      var rolledOut, deadlineExceeded := false, false;
      if names[i] in visible {
        var deploy := visible[names[i]];
        rolledOut := deploy.spec.tokenHash == tokenHash && IsRolledOut(deploy);
        deadlineExceeded := deploy.status.progressingFalse;
      }
      if deadlineExceeded {
        anyDeadlineExceeded := true;
        notReady := notReady + [names[i]];
      } else if !rolledOut {
        allRolledOut := false;
        notReady := notReady + [names[i]];
      }
    }
    r := if anyDeadlineExceeded then Failed(notReady) else if allRolledOut then Ready else Progressing(notReady);
  }

  /** A ready Gateway never waits: the next pass is done, or updates, or fails at a call. */
  lemma {:induction false} ReadyNeverWaits(names: seq<string>, desired: Desired, faults: Faults, i: nat, s: State)
    requires Distinct(names) && i <= |names|
    requires forall j :: i <= j < |names| ==> names[j] in s.deployments && IsRolledOut(s.deployments[names[j]])
    ensures !Walk(names, desired, faults, i, s).outcome.Waiting?
    decreases |names| - i
  {
    if i < |names| {
      var seen := s.(inFlight := s.inFlight - {names[i]});
      if !Outdated(seen, names[i], desired) {
        ReadyNeverWaits(names, desired, faults, i + 1, Applied(seen, names[i], desired));
      }
    }
  }

  /** The fixed desired spec is needed: a change of it while the second replica is in flight
      sends the walk back to the first and starts a second rollout. */
  lemma {:induction false} SpecChangeStartsSecondRollout(names: seq<string>, first: Desired, second: Desired, s: State)
    requires Distinct(names) && |names| == 2
    requires forall j :: 0 <= j < 2 ==> names[j] in s.deployments
    requires InFlightAt(s, names, first, 1) && s.inFlight == {names[1]} && IsRolledOut(s.deployments[names[0]])
    requires first(names[0]) != second(names[0])
    ensures Walk(names, second, NO_FAULTS, 0, s).state.inFlight == {names[0], names[1]}
  {
    assert !Outdated(s, names[0], first);
  }
}
