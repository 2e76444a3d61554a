/** The order in which a token's hash reaches the status object and the Deployments, call by
    call, when any call of any pass may fail: reconcile, patchCGSTokenHash,
    reconcileTunnelTokenSecret and applyOneDeployment as the steps of one machine.

    A token is identified with its hash; every rotation gives a token never used before. */
module TokenHashOrder {
  import opened Base
  import opened Schedule
  import opened Rotation

  /** How far the current pass has come. `seen` is the annotation it read at its start,
      `reported` the rotation time it is going to record, `hash` the token it fetched. */
  datatype Phase =
    | Idle
    | Started(seen: string)
    | Decided(seen: string, reported: Option<int>)
    | Fetched(seen: string, reported: Option<int>, hash: nat)
    | Patched(seen: string, reported: Option<int>, hash: nat)

  /** The token part of a live status object. */
  datatype Record = Record(hash: Option<nat>, lastRotatedAt: Option<int>, lastHandled: string)

  datatype State = State(
    token: nat,
    cgs: Record,
    deployments: map<string, nat>,
    annotation: string,
    now: int,
    phase: Phase)

  /** One call of a pass, the passing of time, or a new request. MaybeRotate checks at the current
      instant and reads the clock again, `later`, for the time that it reports. */
  datatype Action =
    | Tick(time: int)
    | Request(text: string)
    | Begin
    | MaybeRotate(call: Call, later: int)
    | GetToken(call: Call)
    | PatchHash(call: Call)
    | Apply(name: string, call: Call)
    | Finish(ready: bool, call: Call)
    | Abort

  /** The rotation module's view of the status object. */
  function View(r: Record): Option<CGS> {
    Some(CGS("", r.lastRotatedAt, r.lastHandled))
  }

  predicate MustRotate(parse: Parse, settings: Settings, annotation: string, r: Record, now: int)
    requires forall t :: t < settings.next(t)
  {
    Rotates(parse, annotation, View(r), settings, now)
  }

  /** Whether a pass that read `annotation` will rotate, or seed the record. */
  predicate WillReport(parse: Parse, settings: Settings, annotation: string, r: Record, now: int)
    requires forall t :: t < settings.next(t)
  {
    MustRotate(parse, settings, annotation, r, now) || (settings.enabled && r.lastRotatedAt.None?)
  }

  /** A request is newer than the current one. */
  predicate Newer(parse: Parse, text: string, current: string) {
    && text != "" && parse(text).Some?
    && (current != "" ==> parse(current).Some? && parse(current).value < parse(text).value)
  }

  /** The state after an action, or None when the action cannot happen. */
  function Next(parse: Parse, settings: Settings, s: State, a: Action): Option<State>
    requires forall t :: t < settings.next(t)
  {
    match (a, s.phase)
    case (Tick(time), _) => if time < s.now then None else Some(s.(now := time))
    case (Request(text), _) => if Newer(parse, text, s.annotation) then Some(s.(annotation := text)) else None
    case (Abort, _) => Some(s.(phase := Idle))
    case (Begin, Idle) => Some(s.(phase := Started(s.annotation)))
    case (MaybeRotate(call, later), Started(seen)) =>
      if later < s.now then None
      else if MustRotate(parse, settings, seen, s.cgs, s.now) then
        match call
        case Done => Some(s.(token := s.token + 1, now := later, phase := Decided(seen, Some(Seconds(later)))))
        case Refused => Some(s.(now := later, phase := Idle))
        case Lost => Some(s.(token := s.token + 1, now := later, phase := Idle))
      else
        var seed := if settings.enabled && s.cgs.lastRotatedAt.None? then Some(Seconds(later)) else None;
        Some(s.(now := later, phase := Decided(seen, seed)))
    case (GetToken(call), Decided(seen, reported)) =>
      Some(s.(phase := if call.Done? then Fetched(seen, reported, s.token) else Idle))
    case (PatchHash(call), Fetched(seen, reported, hash)) =>
      if reported.None? || s.cgs.hash == Some(hash) then Some(s.(phase := Patched(seen, reported, hash)))
      else
        (match call
         case Done => Some(s.(cgs := s.cgs.(hash := Some(hash)), phase := Patched(seen, reported, hash)))
         case Refused => Some(s.(phase := Idle))
         case Lost => Some(s.(cgs := s.cgs.(hash := Some(hash)), phase := Idle)))
    case (Apply(name, call), Patched(_, _, hash)) =>
      (match call
       case Done => Some(s.(deployments := s.deployments[name := hash]))
       case Refused => Some(s.(phase := Idle))
       case Lost => Some(s.(deployments := s.deployments[name := hash], phase := Idle)))
    case (Finish(ready, call), Patched(seen, reported, hash)) =>
      var record := Record(Some(hash), if reported.Some? then reported else s.cgs.lastRotatedAt,
                           if ready then seen else s.cgs.lastHandled);
      Some(s.(cgs := if call.Refused? then s.cgs else record, phase := Idle))
    case _ => None
  }

  /** A Deployment that carries the current token's hash implies that the status object does. */
  ghost predicate HashOrder(s: State) {
    (exists n :: n in s.deployments && s.deployments[n] == s.token) ==> s.cgs.hash == Some(s.token)
  }

  // ---------- The invariant ----------

  /** The most recent trigger, as the look-back search answers it. */
  function Prev(settings: Settings, now: int): int
    requires forall t :: t < settings.next(t)
  {
    PrevAndNext(settings.next, now).0
  }

  /** From an instant on, the most recent trigger never goes back. */
  ghost predicate Forward(settings: Settings, from: int)
    requires WellFormed(settings)
  {
    settings.enabled ==> forall t, u :: from <= t <= u ==> Prev(settings, t) <= Prev(settings, u)
  }

  /** The annotation that decides what the current, or else the next, pass does. */
  function Effective(s: State): string {
    if s.phase.Idle? then s.annotation else s.phase.seen
  }

  ghost predicate NoLater(parse: Parse, a: string, b: string) {
    a == "" || a == b || (b != "" && parse(a).Some? && parse(b).Some? && parse(a).value < parse(b).value)
  }

  ghost predicate Timestamp(parse: Parse, a: string) {
    a == "" || parse(a).Some?
  }

  /** The status object carries the current token's hash, or the current or next pass will report. */
  ghost predicate PendingOrPatched(parse: Parse, settings: Settings, s: State)
    requires WellFormed(settings)
  {
    s.cgs.hash == Some(s.token) || WillReport(parse, settings, Effective(s), s.cgs, s.now)
  }

  ghost predicate Inv(parse: Parse, settings: Settings, from: int, s: State)
    requires WellFormed(settings)
  {
    && s.now >= from
    && Timestamp(parse, s.annotation) && Timestamp(parse, Effective(s))
    && NoLater(parse, s.cgs.lastHandled, Effective(s)) && NoLater(parse, Effective(s), s.annotation)
    && (forall n :: n in s.deployments ==> s.deployments[n] <= s.token)
    && HashOrder(s)
    && PendingOrPatched(parse, settings, s)
    && (s.phase.Decided? || s.phase.Fetched? ==> s.phase.reported.Some? || s.cgs.hash == Some(s.token))
    && (s.phase.Fetched? || s.phase.Patched? ==> s.phase.hash == s.token)
    && (s.phase.Patched? ==> s.cgs.hash == Some(s.token))
  }

  /** What a pass would report, it still would later and for a newer request. */
  lemma WillReportPersists(parse: Parse, settings: Settings, from: int, a: string, b: string, r: Record, t: int, u: int)
    requires WellFormed(settings) && Forward(settings, from) && from <= t <= u
    requires Timestamp(parse, a) && NoLater(parse, r.lastHandled, a) && NoLater(parse, a, b)
    requires WillReport(parse, settings, a, r, t)
    ensures WillReport(parse, settings, b, r, u)
  {
    assert settings.enabled ==> Prev(settings, t) <= Prev(settings, u);
  }

  lemma KeepsPending(parse: Parse, settings: Settings, from: int, s: State, t: State)
    requires WellFormed(settings) && Forward(settings, from) && Inv(parse, settings, from, s)
    requires t.cgs == s.cgs && t.now >= s.now && NoLater(parse, Effective(s), Effective(t))
    requires t.token == s.token || WillReport(parse, settings, Effective(s), s.cgs, s.now)
    ensures PendingOrPatched(parse, settings, t)
  {
    if WillReport(parse, settings, Effective(s), s.cgs, s.now) {
      WillReportPersists(parse, settings, from, Effective(s), Effective(t), s.cgs, s.now, t.now);
    }
  }

  lemma EnvironmentKeepsInv(parse: Parse, settings: Settings, from: int, s: State, a: Action)
    requires WellFormed(settings) && Forward(settings, from) && Inv(parse, settings, from, s)
    requires (a.Tick? || a.Request? || a.Abort? || a.Begin?) && Next(parse, settings, s, a).Some?
    ensures Inv(parse, settings, from, Next(parse, settings, s, a).value)
  {
    KeepsPending(parse, settings, from, s, Next(parse, settings, s, a).value);
  }

  lemma RotateKeepsInv(parse: Parse, settings: Settings, from: int, s: State, a: Action)
    requires WellFormed(settings) && Forward(settings, from) && Inv(parse, settings, from, s)
    requires a.MaybeRotate? && Next(parse, settings, s, a).Some?
    ensures Inv(parse, settings, from, Next(parse, settings, s, a).value)
  {
    KeepsPending(parse, settings, from, s, Next(parse, settings, s, a).value);
  }

  lemma FetchKeepsInv(parse: Parse, settings: Settings, from: int, s: State, a: Action)
    requires WellFormed(settings) && Forward(settings, from) && Inv(parse, settings, from, s)
    requires (a.GetToken? || a.PatchHash?) && Next(parse, settings, s, a).Some?
    ensures Inv(parse, settings, from, Next(parse, settings, s, a).value)
  {
    var t := Next(parse, settings, s, a).value;
    if t.cgs == s.cgs {
      KeepsPending(parse, settings, from, s, t);
    }
  }

  lemma WriteKeepsInv(parse: Parse, settings: Settings, from: int, s: State, a: Action)
    requires WellFormed(settings) && Inv(parse, settings, from, s)
    requires (a.Apply? || a.Finish?) && Next(parse, settings, s, a).Some?
    ensures Inv(parse, settings, from, Next(parse, settings, s, a).value)
  {
  }

  lemma NextKeepsInv(parse: Parse, settings: Settings, from: int, s: State, a: Action)
    requires WellFormed(settings) && Forward(settings, from)
    requires Inv(parse, settings, from, s) && Next(parse, settings, s, a).Some?
    ensures Inv(parse, settings, from, Next(parse, settings, s, a).value)
  {
    match a {
      case Tick(_) => EnvironmentKeepsInv(parse, settings, from, s, a);
      case Request(_) => EnvironmentKeepsInv(parse, settings, from, s, a);
      case Abort => EnvironmentKeepsInv(parse, settings, from, s, a);
      case Begin => EnvironmentKeepsInv(parse, settings, from, s, a);
      case MaybeRotate(_, _) => RotateKeepsInv(parse, settings, from, s, a);
      case GetToken(_) => FetchKeepsInv(parse, settings, from, s, a);
      case PatchHash(_) => FetchKeepsInv(parse, settings, from, s, a);
      case Apply(_, _) => WriteKeepsInv(parse, settings, from, s, a);
      case Finish(_, _) => WriteKeepsInv(parse, settings, from, s, a);
    }
  }

  // ---------- Runs ----------

  /** A run of the machine with fixed settings, from some instant on and from a live status object
      that is up to date. */
  ghost predicate IsRun(parse: Parse, settings: Settings, from: int, states: seq<State>, actions: seq<Action>)
    requires WellFormed(settings)
  {
    && |states| == |actions| + 1
    && states[0].phase.Idle? && states[0].now >= from
    && states[0].cgs.hash == Some(states[0].token)
    && (forall n :: n in states[0].deployments ==> states[0].deployments[n] <= states[0].token)
    && Timestamp(parse, states[0].annotation) && NoLater(parse, states[0].cgs.lastHandled, states[0].annotation)
    && forall i :: 0 <= i < |actions| ==> Next(parse, settings, states[i], actions[i]) == Some(states[i + 1])
  }

  lemma {:induction false} RunKeepsInv(parse: Parse, settings: Settings, from: int, states: seq<State>, actions: seq<Action>, i: nat)
    requires WellFormed(settings) && Forward(settings, from)
    requires IsRun(parse, settings, from, states, actions) && i < |states|
    ensures Inv(parse, settings, from, states[i])
  {
    if i > 0 {
      RunKeepsInv(parse, settings, from, states, actions, i - 1);
      assert Next(parse, settings, states[i - 1], actions[i - 1]) == Some(states[i]);
      NextKeepsInv(parse, settings, from, states[i - 1], actions[i - 1]);
    }
  }

  /** Hash order at every point of every run, as long as the most recent trigger never goes back:
      whichever calls fail, wherever passes stop, no Deployment carries the current token's hash
      before the status object does. */
  lemma HashOrderAlways(parse: Parse, settings: Settings, from: int, states: seq<State>, actions: seq<Action>, i: nat)
    requires WellFormed(settings) && Forward(settings, from)
    requires IsRun(parse, settings, from, states, actions) && i < |states|
    ensures HashOrder(states[i])
  {
    RunKeepsInv(parse, settings, from, states, actions, i);
  }

  /** A pass in which no call fails spreads the hash: the status object and the Deployment it applies
      carry the current token, and the annotation counts as handled when the Gateway is ready. */
  lemma FaultlessPassSpreadsHash(parse: Parse, settings: Settings, s: State, name: string, later: int, ready: bool)
    requires WellFormed(settings) && s.phase.Idle? && s.now <= later
    ensures var s1 := Next(parse, settings, s, Begin);
            && s1.Some? && var s2 := Next(parse, settings, s1.value, MaybeRotate(Done, later));
            && s2.Some? && var s3 := Next(parse, settings, s2.value, GetToken(Done));
            && s3.Some? && var s4 := Next(parse, settings, s3.value, PatchHash(Done));
            && s4.Some? && var s5 := Next(parse, settings, s4.value, Apply(name, Done));
            && s5.Some? && var end := Next(parse, settings, s5.value, Finish(ready, Done));
            && end.Some? && end.value.phase.Idle?
            && end.value.token == s.token + (if MustRotate(parse, settings, s.annotation, s.cgs, s.now) then 1 else 0)
            && end.value.cgs.hash == Some(end.value.token) && end.value.deployments == s.deployments[name := end.value.token]
            && end.value.cgs.lastHandled == (if ready then s.annotation else s.cgs.lastHandled)
            && (WillReport(parse, settings, s.annotation, s.cgs, s.now) ==> end.value.cgs.lastRotatedAt == Some(later / SECOND))
            && (!WillReport(parse, settings, s.annotation, s.cgs, s.now) ==> end.value.cgs.lastRotatedAt == s.cgs.lastRotatedAt)
  {
  }

  // ---------- The condition on the schedule is exact ----------

  /** The state after the first n actions. */
  function After(parse: Parse, settings: Settings, s: State, actions: seq<Action>): Option<State>
    requires forall t :: t < settings.next(t)
  {
    if actions == [] then Some(s) else
    var before := After(parse, settings, s, actions[..|actions| - 1]);
    if before.None? then None else Next(parse, settings, before.value, actions[|actions| - 1])
  }

  /** Actions that can happen one after the other make a run. */
  lemma {:induction false} RunTo(parse: Parse, settings: Settings, from: int, s: State, actions: seq<Action>) returns (states: seq<State>)
    requires WellFormed(settings) && IsRun(parse, settings, from, [s], [])
    requires After(parse, settings, s, actions).Some?
    ensures IsRun(parse, settings, from, states, actions)
    ensures states[0] == s && states[|actions|] == After(parse, settings, s, actions).value
  {
    if actions == [] {
      states := [s];
    } else {
      var init := actions[..|actions| - 1];
      var before := RunTo(parse, settings, from, s, init);
      states := before + [After(parse, settings, s, actions).value];
      forall i | 0 <= i < |actions|
        ensures Next(parse, settings, states[i], actions[i]) == Some(states[i + 1])
      {
        assert i < |init| ==> Next(parse, settings, before[i], init[i]) == Some(before[i + 1]);
      }
    }
  }

  lemma {:induction false} AfterStep(parse: Parse, settings: Settings, s: State, actions: seq<Action>, a: Action)
    requires WellFormed(settings) && After(parse, settings, s, actions).Some?
    ensures After(parse, settings, s, actions + [a]) == Next(parse, settings, After(parse, settings, s, actions).value, a)
  {
    assert (actions + [a])[..|actions|] == actions;
  }

  lemma {:induction false} AfterBoth(parse: Parse, settings: Settings, s: State, first: seq<Action>, second: seq<Action>)
    requires WellFormed(settings) && After(parse, settings, s, first).Some?
    ensures After(parse, settings, s, first + second) == After(parse, settings, After(parse, settings, s, first).value, second)
  {
    if second == [] {
      assert first + second == first;
    } else {
      var init := second[..|second| - 1];
      assert (first + second)[..|first + second| - 1] == first + init;
      AfterBoth(parse, settings, s, first, init);
    }
  }

  /** A rotation whose answer is lost, and then time passes. */
  function LostRotation(t: int, u: int): seq<Action> {
    [Begin] + [MaybeRotate(Lost, t)] + [Tick(u)]
  }

  /** A pass up to its first Deployment. */
  function PassOver(now: int, name: string): seq<Action> {
    [Begin] + [MaybeRotate(Done, now)] + [GetToken(Done)] + [PatchHash(Done)] + [Apply(name, Done)]
  }

  function UpToDateAt(now: int, lastRotatedAt: int): State {
    State(0, Record(Some(0), Some(lastRotatedAt), ""), map[], "", now, Idle)
  }

  lemma {:induction false} RotationIsLost(parse: Parse, settings: Settings, t: int, u: int, last: int)
    requires WellFormed(settings) && settings.enabled && t <= u && last * SECOND < Prev(settings, t)
    ensures After(parse, settings, UpToDateAt(t, last), LostRotation(t, u)) == Some(UpToDateAt(u, last).(token := 1))
  {
    var s := UpToDateAt(t, last);
    assert MustRotate(parse, settings, "", s.cgs, t);
    assert After(parse, settings, s, []) == Some(s);
    AfterStep(parse, settings, s, [], Begin);
    assert [] + [Begin] == [Begin];
    AfterStep(parse, settings, s, [Begin], MaybeRotate(Lost, t));
    AfterStep(parse, settings, s, [Begin] + [MaybeRotate(Lost, t)], Tick(u));
  }

  /** A pass that has nothing to report skips the patch, whichever hash the status object carries. */
  lemma {:induction false} QuietPassSkipsPatch(parse: Parse, settings: Settings, s: State, name: string)
    requires WellFormed(settings) && s.phase.Idle? && s.annotation == ""
    requires !WillReport(parse, settings, "", s.cgs, s.now)
    ensures After(parse, settings, s, PassOver(s.now, name))
            == Some(s.(deployments := s.deployments[name := s.token], phase := Patched("", None, s.token)))
  {
    assert After(parse, settings, s, []) == Some(s);
    AfterStep(parse, settings, s, [], Begin);
    assert [] + [Begin] == [Begin];
    var actions := [Begin];
    AfterStep(parse, settings, s, actions, MaybeRotate(Done, s.now));
    actions := actions + [MaybeRotate(Done, s.now)];
    assert After(parse, settings, s, actions) == Some(s.(phase := Decided("", None)));
    AfterStep(parse, settings, s, actions, GetToken(Done));
    actions := actions + [GetToken(Done)];
    AfterStep(parse, settings, s, actions, PatchHash(Done));
    actions := actions + [PatchHash(Done)];
    AfterStep(parse, settings, s, actions, Apply(name, Done));
  }

  /** When the next pass comes after the trigger has left the look-back window, the rotation is
      forgotten and the Deployment gets the new hash first. */
  lemma {:induction false} ForgottenRotationBreaksOrder(parse: Parse, settings: Settings, t: int, u: int, last: int, name: string)
    requires WellFormed(settings) && settings.enabled && t <= u
    requires Prev(settings, u) <= last * SECOND < Prev(settings, t)
    ensures var end := After(parse, settings, UpToDateAt(t, last), LostRotation(t, u) + PassOver(u, name));
            end.Some? && !HashOrder(end.value)
  {
    RotationIsLost(parse, settings, t, u, last);
    var s := UpToDateAt(u, last).(token := 1);
    QuietPassSkipsPatch(parse, settings, s, name);
    AfterBoth(parse, settings, UpToDateAt(t, last), LostRotation(t, u), PassOver(u, name));
    var end := After(parse, settings, s, PassOver(u, name)).value;
    assert end.deployments[name] == end.token;
  }

  /** From an instant on, no trigger is followed by more than a look-back without one. */
  ghost predicate GapFree(next: int -> int, trig: int -> bool, from: int) {
    forall g {:trigger next(g)} :: trig(g) && from < g + CRON_LOOK_BACK ==> next(g) <= g + CRON_LOOK_BACK
  }

  /** The look-back is long enough for a schedule that triggers on every leap day of a four-year
      cycle, 1461 days apart. */
  lemma FourYearCycleIsGapFree(next: int -> int, trig: int -> bool, from: int)
    requires forall g :: trig(g) ==> next(g) <= g + 1461 * 24 * 3600 * SECOND
    ensures GapFree(next, trig, from)
  {
  }

  lemma {:induction false} LatestTrigger(next: int -> int, trig: int -> bool, p: int, until: int) returns (q: int)
    requires Enumerates(next, trig) && trig(p) && p <= until
    ensures trig(q) && p <= q <= until < next(q)
    decreases until - p
  {
    assert p < next(p) && trig(next(p));
    if next(p) <= until {
      q := LatestTrigger(next, trig, next(p), until);
    } else {
      q := p;
    }
  }

  lemma PrevIsExact(settings: Settings, trig: int -> bool, t: int)
    requires CronSchedule(settings.next, trig) && CRON_LOOK_BACK <= t
    ensures WellFormed(settings) && Exact(trig, t - CRON_LOOK_BACK, t + 1, Prev(settings, t))
    ensures Prev(settings, t) >= ZERO_TIME && Prev(settings, t) % SECOND == 0
  {
    assert WellFormed(settings);
    PrevAndNextAreExact(settings.next, trig, t);
  }

  /** After a trigger, every look-back window holds a later one. */
  lemma LaterTrigger(next: int -> int, trig: int -> bool, from: int, p: int, u: int) returns (v: int)
    requires Enumerates(next, trig) && GapFree(next, trig, from) && trig(p)
    requires from < p + CRON_LOOK_BACK <= u
    ensures trig(v) && p < v && u - CRON_LOOK_BACK < v <= u
  {
    var q := LatestTrigger(next, trig, p, u - CRON_LOOK_BACK);
    v := next(q);
    assert trig(v);
  }

  /** A window that ends no earlier, and holds the earlier answer or a later trigger, has an
      answer no earlier. */
  lemma LaterWindow(trig: int -> bool, t: int, u: int, p: int, r: int, v: int)
    requires t <= u && Exact(trig, t - CRON_LOOK_BACK, t + 1, p) && Exact(trig, u - CRON_LOOK_BACK, u + 1, r)
    requires r >= ZERO_TIME && (p == ZERO_TIME || (trig(v) && p <= v && u - CRON_LOOK_BACK < v <= u))
    ensures p <= r
  {
  }

  lemma GapFreeGoesForward(settings: Settings, trig: int -> bool, from: int, t: int, u: int)
    requires CronSchedule(settings.next, trig) && WellFormed(settings) && GapFree(settings.next, trig, from)
    requires CRON_LOOK_BACK <= from <= t <= u
    ensures Prev(settings, t) <= Prev(settings, u)
  {
    PrevIsExact(settings, trig, t);
    PrevIsExact(settings, trig, u);
    var p, r := Prev(settings, t), Prev(settings, u);
    var v := p;
    if p != ZERO_TIME && p <= u - CRON_LOOK_BACK {
      v := LaterTrigger(settings.next, trig, from, p, u);
    }
    LaterWindow(trig, t, u, p, r, v);
  }

  lemma GapGoesBack(settings: Settings, trig: int -> bool, from: int, g: int) returns (t: int, u: int)
    requires CronSchedule(settings.next, trig) && WellFormed(settings) && CRON_LOOK_BACK <= from
    requires trig(g) && from < g + CRON_LOOK_BACK < settings.next(g)
    ensures from <= t <= u && Prev(settings, u) < Prev(settings, t)
  {
    t, u := if g < from then from else g, g + CRON_LOOK_BACK;
    assert NoTrigger(trig, g, settings.next(g));
    PrevIsExact(settings, trig, t);
    PrevIsExact(settings, trig, u);
  }

  lemma ForwardExactlyWhenGapFree(settings: Settings, trig: int -> bool, from: int)
    requires CronSchedule(settings.next, trig) && WellFormed(settings) && CRON_LOOK_BACK <= from
    ensures Forward(settings, from) <==> (settings.enabled ==> GapFree(settings.next, trig, from))
  {
    if settings.enabled && GapFree(settings.next, trig, from) {
      forall t, u | from <= t <= u
        ensures Prev(settings, t) <= Prev(settings, u)
      {
        GapFreeGoesForward(settings, trig, from, t, u);
      }
    }
    if settings.enabled && Forward(settings, from) {
      forall g | trig(g) && from < g + CRON_LOOK_BACK
        ensures settings.next(g) <= g + CRON_LOOK_BACK
      {
        if settings.next(g) > g + CRON_LOOK_BACK {
          var t, u := GapGoesBack(settings, trig, from, g);
          assert false;
        }
      }
    }
  }

  /** Every run from the instant on keeps the order of hashes. */
  ghost predicate KeepsHashOrder(parse: Parse, settings: Settings, from: int)
    requires WellFormed(settings)
  {
    forall states, actions, i: nat {:trigger IsRun(parse, settings, from, states, actions), HashOrder(states[i])} ::
      IsRun(parse, settings, from, states, actions) && i < |states| ==> HashOrder(states[i])
  }

  /** When the order of hashes is kept: every run from an instant on keeps it if and only if
      scheduled rotation is disabled or no trigger from then on is followed by more than a
      look-back without one. A schedule for 29 February has such a gap across most century years. */
  lemma HashOrderExactly(parse: Parse, settings: Settings, trig: int -> bool, from: int)
    requires CronSchedule(settings.next, trig) && WellFormed(settings) && CRON_LOOK_BACK <= from
    ensures KeepsHashOrder(parse, settings, from) <==> (settings.enabled ==> GapFree(settings.next, trig, from))
  {
    ForwardExactlyWhenGapFree(settings, trig, from);
    if Forward(settings, from) {
      forall states, actions, i: nat | IsRun(parse, settings, from, states, actions) && i < |states|
        ensures HashOrder(states[i])
      {
        HashOrderAlways(parse, settings, from, states, actions, i);
      }
    } else {
      var t, u :| from <= t <= u && Prev(settings, t) > Prev(settings, u);
      PrevIsExact(settings, trig, u);
      ForgottenTrigger(parse, settings, from, t, u, Seconds(Prev(settings, u)));
    }
  }

  lemma ForgottenTrigger(parse: Parse, settings: Settings, from: int, t: int, u: int, last: int)
    requires WellFormed(settings) && settings.enabled && from <= t <= u
    requires Prev(settings, u) <= last * SECOND < Prev(settings, t)
    ensures !KeepsHashOrder(parse, settings, from)
  {
    ForgottenRotationBreaksOrder(parse, settings, t, u, last, "gateway");
    var s, actions := UpToDateAt(t, last), LostRotation(t, u) + PassOver(u, "gateway");
    var states := RunTo(parse, settings, from, s, actions);
    assert !HashOrder(states[|actions|]);
  }

  /** A gap longer than a look-back: eight years, as a schedule for 29 February has across most
      century years. */
  const LONG_GAP := 8 * 366 * 24 * 3600 * SECOND

  function GappedNext(t: int): int {
    if t < LONG_GAP then LONG_GAP else (t / LONG_GAP + 1) * LONG_GAP
  }

  predicate GappedTrigger(t: int) { t > 0 && t % LONG_GAP == 0 }

  lemma MultiplesBetween(k: int, u: int)
    requires k * LONG_GAP < u < (k + 1) * LONG_GAP
    ensures u % LONG_GAP != 0
  {
    assert u / LONG_GAP == k;
  }

  lemma GappedIsCron()
    ensures CronSchedule(GappedNext, GappedTrigger)
  {
    forall t
      ensures t < GappedNext(t) && GappedTrigger(GappedNext(t)) && forall u :: t < u < GappedNext(t) ==> !GappedTrigger(u)
    {
      var k := if t < LONG_GAP then 0 else t / LONG_GAP;
      assert GappedNext(t) == (k + 1) * LONG_GAP;
      forall u | t < u < GappedNext(t) && u > 0
        ensures u % LONG_GAP != 0
      {
        MultiplesBetween(k, u);
      }
    }
    forall t | GappedTrigger(t)
      ensures t % SECOND == 0
    {
      assert t == t / LONG_GAP * LONG_GAP;
    }
  }

  /** With such a schedule, some run breaks the order of hashes. */
  lemma LongGapBreaksHashOrder(parse: Parse)
    ensures WellFormed(Settings(true, GappedNext)) && !KeepsHashOrder(parse, Settings(true, GappedNext), CRON_LOOK_BACK)
  {
    GappedIsCron();
    var settings := Settings(true, GappedNext);
    assert WellFormed(settings);
    assert GappedTrigger(LONG_GAP) && settings.next(LONG_GAP) == 2 * LONG_GAP;
    assert !GapFree(settings.next, GappedTrigger, CRON_LOOK_BACK);
    HashOrderExactly(parse, settings, GappedTrigger, CRON_LOOK_BACK);
  }

  /** Fixed settings are needed: when scheduled rotation is switched off after a rotation whose
      answer was lost, the next pass reports nothing, skips the patch, and the Deployment gets
      the new hash first. */
  lemma {:induction false} SettingsChangeBreaksHashOrder(parse: Parse, on: Settings, off: Settings, s: State, name: string)
    requires WellFormed(on) && WellFormed(off) && on.enabled && !off.enabled
    requires s.phase.Idle? && s.cgs.hash == Some(s.token) && s.annotation == ""
    requires s.cgs.lastRotatedAt.Some? && MustRotate(parse, on, s.annotation, s.cgs, s.now)
    ensures var begun := Next(parse, on, s, Begin).value;
            var lost := Next(parse, on, begun, MaybeRotate(Lost, s.now)).value;
            var end := After(parse, off, lost, PassOver(s.now, name));
            end.Some? && !HashOrder(end.value)
  {
    var lost := Next(parse, on, Next(parse, on, s, Begin).value, MaybeRotate(Lost, s.now)).value;
    QuietPassSkipsPatch(parse, off, lost, name);
    var end := After(parse, off, lost, PassOver(s.now, name)).value;
    assert end.deployments[name] == end.token;
  }
}
