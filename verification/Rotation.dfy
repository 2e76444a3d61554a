/** When the tunnel token is rotated, and what the status object records of it:
    maybeRotateToken of internal/controller/gateway_tunnel.go and the token part of
    reconcileCGS of internal/controller/gateway_helpers.go.

    Instants are nanoseconds since the zero instant. LastRotatedAt is kept in whole seconds and
    requests carry nanoseconds, both as RFC 3339 (section 5.6) texts; `parse` reads a request's
    text and is None for a text that is not a timestamp. */
module Rotation {
  import opened Base
  import opened Schedule

  /** The whole second an instant falls in, as time.RFC3339 prints it. */
  function Seconds(t: int): int { t / SECOND }

  /** The first whole second at or after an instant. */
  function CeilSeconds(t: int): int { (t + SECOND - 1) / SECOND }

  type Parse = string -> Option<int>

  /** The token part of the CloudflareGatewayStatus; "" stands for an absent text or hash. */
  datatype CGS = CGS(hash: string, lastRotatedAt: Option<int>, lastHandled: string)

  /** A request is pending: it differs from the one last handled, and no rotation is recorded
      at or after it. */
  predicate OnDemand(parse: Parse, annotation: string, cgs: Option<CGS>) {
    var lastHandled := if cgs.Some? then cgs.value.lastHandled else "";
    var lastRotatedAt := if cgs.Some? then cgs.value.lastRotatedAt else None;
    && annotation != "" && annotation != lastHandled
    && !(lastRotatedAt.Some? && parse(annotation).Some? && lastRotatedAt.value * SECOND >= parse(annotation).value)
  }

  /** The last recorded rotation came before the most recent trigger. */
  predicate Scheduled(cgs: Option<CGS>, prevTrigger: int) {
    cgs.Some? && cgs.value.lastRotatedAt.Some? && cgs.value.lastRotatedAt.value * SECOND < prevTrigger
  }

  predicate NeverRotated(cgs: Option<CGS>) {
    cgs.None? || cgs.value.lastRotatedAt.None?
  }

  /** Rotation settings: whether scheduled rotation is enabled, and the schedule. */
  datatype Settings = Settings(enabled: bool, next: int -> int)

  /** The three clock readings of one pass. */
  datatype Clock = Clock(check: int, seed: int, rotate: int)

  ghost predicate WellFormed(settings: Settings) {
    forall t :: t < settings.next(t)
  }

  predicate Rotates(parse: Parse, annotation: string, cgs: Option<CGS>, settings: Settings, check: int)
    requires forall t :: t < settings.next(t)
  {
    OnDemand(parse, annotation, cgs) || (settings.enabled && Scheduled(cgs, PrevAndNext(settings.next, check).0))
  }

  /** The rotation time a pass reports: that of the rotation, or the seed for future checks. */
  function Reported(parse: Parse, annotation: string, cgs: Option<CGS>, settings: Settings, clock: Clock): Option<int>
    requires forall t :: t < settings.next(t)
  {
    if Rotates(parse, annotation, cgs, settings, clock.check) then Some(Seconds(clock.rotate))
    else if settings.enabled && NeverRotated(cgs) then Some(Seconds(clock.seed))
    else None
  }

  datatype Outcome = Rotated | NotRotated | Failed

  /** The Cloudflare side of one tunnel: how often its secret has been rotated. */
  class Tunnel {
    var rotations: nat

    /** maybeRotateToken. `parses` tells whether the cron expression does; `call` covers the
        random bytes and the rotation itself. */
    method MaybeRotateToken(parse: Parse, annotation: string, cgs: Option<CGS>, settings: Settings, clock: Clock,
                            parses: bool, call: Call)
      returns (outcome: Outcome, lastRotatedAt: Option<int>, nextTrigger: Option<int>)
      requires forall t :: t < settings.next(t)
      modifies this
      ensures outcome == if settings.enabled && !parses then Failed
                         else if !Rotates(parse, annotation, cgs, settings, clock.check) then NotRotated
                         else if call.Done? then Rotated else Failed
      ensures rotations == old(rotations) + if outcome.Rotated? || (outcome.Failed? && (settings.enabled ==> parses) && call.Lost?) then 1 else 0
      ensures !outcome.Failed? ==> lastRotatedAt == Reported(parse, annotation, cgs, settings, clock)
      ensures !outcome.Failed? ==> nextTrigger == if settings.enabled then Some(settings.next(clock.check)) else None
      ensures outcome.Rotated? ==> lastRotatedAt == Some(clock.rotate / SECOND)
      ensures (settings.enabled ==> parses) && call.Done? && annotation != ""
              && (cgs.None? || (annotation != cgs.value.lastHandled
                                && (cgs.value.lastRotatedAt.None? || parse(annotation).None?
                                    || cgs.value.lastRotatedAt.value * SECOND < parse(annotation).value))) ==>
                outcome.Rotated?
      ensures outcome.NotRotated? ==>
                lastRotatedAt == if settings.enabled && (cgs.None? || cgs.value.lastRotatedAt.None?)
                                 then Some(clock.seed / SECOND) else None
    {
      lastRotatedAt, nextTrigger := None, None;
      var lastHandled, previous := "", None;
      if cgs.Some? {
        lastHandled, previous := cgs.value.lastHandled, cgs.value.lastRotatedAt;
      }
      var onDemand := annotation != "" && annotation != lastHandled;
      if onDemand && previous.Some? {
        var requested := parse(annotation);
        if requested.Some? && previous.value * SECOND >= requested.value {
          onDemand := false;
        }
      }
      var scheduled := false;
      if settings.enabled {
        if !parses {
          return Failed, lastRotatedAt, nextTrigger;
        }
        var (prevTrigger, next) := PrevAndNext(settings.next, clock.check);
        nextTrigger := Some(next);
        if previous.Some? {
          scheduled := previous.value * SECOND < prevTrigger;
        } else {
          lastRotatedAt := Some(Seconds(clock.seed));
        }
      }
      if !onDemand && !scheduled {
        return NotRotated, lastRotatedAt, nextTrigger;
      }
      if call.Refused? {
        return Failed, lastRotatedAt, nextTrigger;
      }
      rotations := rotations + 1;
      if call.Lost? {
        return Failed, lastRotatedAt, nextTrigger;
      }
      lastRotatedAt := Some(Seconds(clock.rotate));
      outcome := Rotated;
    }
  }

  /** reconcileCGS, the token part: the status written at the end of a pass. */
  function Written(cgs: Option<CGS>, annotation: string, hash: string, reported: Option<int>, ready: bool): CGS {
    CGS(hash,
        if reported.Some? then reported else if cgs.Some? then cgs.value.lastRotatedAt else None,
        if ready then annotation else if cgs.Some? then cgs.value.lastHandled else "")
  }

  // ---------- Runs of successful passes ----------

  /** What one pass sees; settings may change from pass to pass. */
  datatype Input = Input(annotation: string, settings: Settings, clock: Clock, hash: string, ready: bool)

  function AfterPass(parse: Parse, cgs: Option<CGS>, p: Input): CGS
    requires forall t :: t < p.settings.next(t)
  {
    Written(cgs, p.annotation, p.hash, Reported(parse, p.annotation, cgs, p.settings, p.clock), p.ready)
  }

  /** Triggers are whole seconds, after the zero instant. */
  ghost predicate CronSchedule(next: int -> int, trig: int -> bool) {
    && Enumerates(next, trig)
    && forall t :: trig(t) ==> t % SECOND == 0 && t > ZERO_TIME
  }

  /** A run with a forward clock, from a status recorded before it started. `trig` gives the
      triggers of each pass's schedule. */
  ghost predicate IsRun(parse: Parse, run: seq<Input>, trigs: seq<int -> bool>, cgs: seq<Option<CGS>>) {
    && |cgs| == |run| + 1 && |trigs| == |run|
    && (forall i :: 0 <= i < |run| ==> CronSchedule(run[i].settings.next, trigs[i]))
    && (forall i :: 0 <= i < |run| ==>
                      0 <= run[i].clock.check <= run[i].clock.seed <= run[i].clock.rotate)
    && (forall i, j :: 0 <= i < j < |run| ==> run[i].clock.rotate <= run[j].clock.check)
    && (cgs[0].Some? && cgs[0].value.lastRotatedAt.Some? && |run| > 0 ==>
          cgs[0].value.lastRotatedAt.value * SECOND <= run[0].clock.check)
    && (forall i :: 0 <= i < |run| ==>
                      WellFormed(run[i].settings) && cgs[i + 1] == Some(AfterPass(parse, cgs[i], run[i])))
  }

  /** The recorded rotation time, or one before every clock reading. */
  function LastRotated(cgs: Option<CGS>): int {
    if NeverRotated(cgs) then -1 else cgs.value.lastRotatedAt.value
  }

  lemma {:induction false} RecordIsNeverAhead(parse: Parse, run: seq<Input>, trigs: seq<int -> bool>, cgs: seq<Option<CGS>>, i: nat)
    requires IsRun(parse, run, trigs, cgs) && i < |run|
    ensures LastRotated(cgs[i]) * SECOND <= run[i].clock.check
  {
    if i > 0 {
      RecordIsNeverAhead(parse, run, trigs, cgs, i - 1);
      assert cgs[i] == Some(AfterPass(parse, cgs[i - 1], run[i - 1]));
      assert run[i - 1].clock.rotate <= run[i].clock.check;
    }
  }

  lemma StepRecords(parse: Parse, run: seq<Input>, trigs: seq<int -> bool>, cgs: seq<Option<CGS>>, i: nat)
    requires IsRun(parse, run, trigs, cgs) && i < |run|
    ensures WellFormed(run[i].settings)
    ensures LastRotated(cgs[i]) <= LastRotated(cgs[i + 1])
    ensures Rotates(parse, run[i].annotation, cgs[i], run[i].settings, run[i].clock.check) ==>
              LastRotated(cgs[i + 1]) == Seconds(run[i].clock.rotate)
  {
    RecordIsNeverAhead(parse, run, trigs, cgs, i);
    assert cgs[i + 1] == Some(AfterPass(parse, cgs[i], run[i]));
  }

  /** LastRotatedAt never decreases. */
  lemma {:induction false} LastRotatedAtNeverDecreases(parse: Parse, run: seq<Input>, trigs: seq<int -> bool>, cgs: seq<Option<CGS>>, i: nat, j: nat)
    requires IsRun(parse, run, trigs, cgs) && i <= j < |cgs|
    ensures LastRotated(cgs[i]) <= LastRotated(cgs[j])
    decreases j
  {
    if i < j {
      LastRotatedAtNeverDecreases(parse, run, trigs, cgs, i, j - 1);
      StepRecords(parse, run, trigs, cgs, j - 1);
    }
  }

  predicate Recorded(cgs: Option<CGS>) {
    cgs.Some? && cgs.value.lastRotatedAt.Some?
  }

  /** A pass with an enabled schedule leaves a rotation time recorded. The first one, with no request
      to answer, records its own second and does not rotate. */
  lemma EnabledPassSeeds(parse: Parse, run: seq<Input>, trigs: seq<int -> bool>, cgs: seq<Option<CGS>>, i: nat)
    requires IsRun(parse, run, trigs, cgs) && i < |run| && run[i].settings.enabled
    ensures Recorded(cgs[i + 1]) && WellFormed(run[i].settings)
    ensures !Recorded(cgs[i]) && (run[i].annotation == "" || (cgs[i].Some? && run[i].annotation == cgs[i].value.lastHandled)) ==>
              && cgs[i + 1].value.lastRotatedAt == Some(run[i].clock.seed / SECOND)
              && !Rotates(parse, run[i].annotation, cgs[i], run[i].settings, run[i].clock.check)
  {
    assert cgs[i + 1] == Some(AfterPass(parse, cgs[i], run[i]));
  }

  /** A recorded time stays recorded. */
  lemma {:induction false} RecordStays(parse: Parse, run: seq<Input>, trigs: seq<int -> bool>, cgs: seq<Option<CGS>>, i: nat, j: nat)
    requires IsRun(parse, run, trigs, cgs) && i <= j < |cgs| && Recorded(cgs[i])
    ensures Recorded(cgs[j])
    decreases j
  {
    if i < j {
      RecordStays(parse, run, trigs, cgs, i, j - 1);
      assert cgs[j] == Some(AfterPass(parse, cgs[j - 1], run[j - 1]));
    }
  }

  /** The trigger that a check finds is no earlier than any other one in its look-back. */
  lemma PrevTriggerIsLatest(p: Input, trig: int -> bool, t: int)
    requires CronSchedule(p.settings.next, trig) && 0 <= p.clock.check
    requires trig(t) && p.clock.check - CRON_LOOK_BACK < t <= p.clock.check
    ensures WellFormed(p.settings) && t <= PrevAndNext(p.settings.next, p.clock.check).0 <= p.clock.check
    ensures t % SECOND == 0
  {
    assert WellFormed(p.settings);
    PrevAndNextAreExact(p.settings.next, trig, p.clock.check);
  }

  /** Every trigger is answered: after a pass with an enabled schedule, each trigger in its look-back
      has a recorded rotation time at or after it. A time recorded earlier that lies before the
      trigger makes the pass rotate. */
  lemma TriggersAreAnswered(parse: Parse, run: seq<Input>, trigs: seq<int -> bool>, cgs: seq<Option<CGS>>, j: nat, t: int)
    requires IsRun(parse, run, trigs, cgs) && j < |run| && run[j].settings.enabled
    requires trigs[j](t) && run[j].clock.check - CRON_LOOK_BACK < t <= run[j].clock.check
    ensures Recorded(cgs[j + 1]) && cgs[j + 1].value.lastRotatedAt.value * SECOND >= t && WellFormed(run[j].settings)
    ensures Recorded(cgs[j]) && cgs[j].value.lastRotatedAt.value * SECOND < t ==>
              && Rotates(parse, run[j].annotation, cgs[j], run[j].settings, run[j].clock.check)
              && cgs[j + 1].value.lastRotatedAt.value == run[j].clock.rotate / SECOND
  {
    assert CronSchedule(run[j].settings.next, trigs[j]) && 0 <= run[j].clock.check <= run[j].clock.seed <= run[j].clock.rotate;
    PrevTriggerIsLatest(run[j], trigs[j], t);
    WholeSecondsSurvive(t, run[j].clock.seed);
    WholeSecondsSurvive(t, run[j].clock.rotate);
    EnabledPassSeeds(parse, run, trigs, cgs, j);
    assert cgs[j + 1] == Some(AfterPass(parse, cgs[j], run[j]));
  }

  /** Every request is answered: after a pass that sees an unhandled request, a rotation at or after
      the request is recorded, or one that the pass itself made. */
  lemma RequestsAreAnswered(parse: Parse, run: seq<Input>, trigs: seq<int -> bool>, cgs: seq<Option<CGS>>, i: nat)
    requires IsRun(parse, run, trigs, cgs) && i < |run| && run[i].annotation != ""
    requires cgs[i].None? || run[i].annotation != cgs[i].value.lastHandled
    ensures Recorded(cgs[i + 1])
    ensures var last := cgs[i + 1].value.lastRotatedAt.value;
            || last == run[i].clock.rotate / SECOND
            || (parse(run[i].annotation).Some? && last * SECOND >= parse(run[i].annotation).value)
  {
    assert cgs[i + 1] == Some(AfterPass(parse, cgs[i], run[i]));
  }

  /** What a pass writes besides the rotation time: the hash it fetched, and the annotation as
      handled when the Gateway is ready. */
  lemma PassWrites(parse: Parse, cgs: Option<CGS>, p: Input)
    requires WellFormed(p.settings)
    ensures var written := AfterPass(parse, cgs, p);
            && written.hash == p.hash
            && (p.ready ==> written.lastHandled == p.annotation)
            && (!p.ready ==> written.lastHandled == if cgs.Some? then cgs.value.lastHandled else "")
  {
  }

  /** Pass i rotates because its schedule says so. */
  predicate RotatesOnSchedule(run: seq<Input>, cgs: seq<Option<CGS>>, i: nat)
    requires i < |run| && |cgs| == |run| + 1 && forall t :: t < run[i].settings.next(t)
  {
    run[i].settings.enabled && Scheduled(cgs[i], PrevTrigger(run[i]))
  }

  function PrevTrigger(p: Input): int
    requires forall t :: t < p.settings.next(t)
  {
    PrevAndNext(p.settings.next, p.clock.check).0
  }

  /** The trigger a scheduled rotation answers is a whole second, not after the check. */
  lemma PrevTriggerIsPast(p: Input, trig: int -> bool)
    requires CronSchedule(p.settings.next, trig) && 0 <= p.clock.check
    ensures WellFormed(p.settings)
    ensures PrevTrigger(p) % SECOND == 0 && PrevTrigger(p) <= p.clock.check
  {
    assert forall t :: t < p.settings.next(t);
    PrevAndNextAreExact(p.settings.next, trig, p.clock.check);
  }

  /** Rounding down to the second does not pass a whole second. */
  lemma WholeSecondsSurvive(p: int, t: int)
    requires p % SECOND == 0 && p <= t
    ensures p <= Seconds(t) * SECOND
  {
  }

  /** Each trigger causes at most one scheduled rotation: of two passes that rotate on
      schedule, the later one answers a later trigger. */
  lemma OneRotationPerTrigger(parse: Parse, run: seq<Input>, trigs: seq<int -> bool>, cgs: seq<Option<CGS>>, i: nat, j: nat)
    requires IsRun(parse, run, trigs, cgs) && i < j < |run|
    requires WellFormed(run[i].settings) && WellFormed(run[j].settings)
    requires RotatesOnSchedule(run, cgs, i) && RotatesOnSchedule(run, cgs, j)
    ensures PrevTrigger(run[i]) < PrevTrigger(run[j])
  {
    assert CronSchedule(run[i].settings.next, trigs[i]);
    var p, q, r := PrevTrigger(run[i]), PrevTrigger(run[j]), run[i].clock.rotate;
    assert p <= Seconds(r) * SECOND by {
      PrevTriggerIsPast(run[i], trigs[i]);
      WholeSecondsSurvive(p, r);
    }
    assert LastRotated(cgs[i + 1]) == Seconds(r) by { StepRecords(parse, run, trigs, cgs, i); }
    assert LastRotated(cgs[i + 1]) <= LastRotated(cgs[j]) by {
      LastRotatedAtNeverDecreases(parse, run, trigs, cgs, i + 1, j);
    }
    assert LastRotated(cgs[j]) * SECOND < q;
  }

  /** The rotation came before the first whole second at or after the request, or the request's
      text is not a timestamp. */
  predicate TooEarly(parse: Parse, annotation: string, rotate: int) {
    parse(annotation).Some? ==> rotate < CeilSeconds(parse(annotation).value) * SECOND
  }

  /** One on-demand request causes at most one rotation from the first whole second at or
      after it: of two passes that rotate for it, the earlier one rotated too early. */
  lemma OneRotationPerRequest(parse: Parse, run: seq<Input>, trigs: seq<int -> bool>, cgs: seq<Option<CGS>>, i: nat, j: nat)
    requires IsRun(parse, run, trigs, cgs) && i < j < |run| && run[i].annotation == run[j].annotation
    requires OnDemand(parse, run[i].annotation, cgs[i]) && OnDemand(parse, run[j].annotation, cgs[j])
    ensures TooEarly(parse, run[i].annotation, run[i].clock.rotate)
  {
    StepRecords(parse, run, trigs, cgs, i);
    LastRotatedAtNeverDecreases(parse, run, trigs, cgs, i + 1, j);
  }

  /** That is exact: while the Gateway is not ready, a request is answered again by the next pass
      if and only if it was answered too early. A text that is not a timestamp is answered again
      by every pass. */
  lemma RequestRepeatsExactlyWhenTooEarly(parse: Parse, cgs: Option<CGS>, p: Input)
    requires WellFormed(p.settings) && !p.ready && OnDemand(parse, p.annotation, cgs)
    ensures OnDemand(parse, p.annotation, Some(AfterPass(parse, cgs, p))) <==> TooEarly(parse, p.annotation, p.clock.rotate)
  {
    if parse(p.annotation).Some? {
      var t := parse(p.annotation).value;
      assert Seconds(p.clock.rotate) * SECOND < t <==> p.clock.rotate < CeilSeconds(t) * SECOND;
    }
  }

  /** A request marked as handled has a recorded rotation no earlier than itself, rounded down to
      the second. */
  ghost predicate HandledIsRecorded(parse: Parse, cgs: Option<CGS>) {
    cgs.Some? && cgs.value.lastHandled != "" ==>
      && parse(cgs.value.lastHandled).Some?
      && cgs.value.lastRotatedAt.Some?
      && cgs.value.lastRotatedAt.value >= Seconds(parse(cgs.value.lastHandled).value)
  }

  /** A pass that answers a request and marks it as handled does so when it lies in no later second
      than the rotation. */
  ghost predicate HandledInTime(parse: Parse, cgs: Option<CGS>, p: Input) {
    p.ready && OnDemand(parse, p.annotation, cgs) ==>
      parse(p.annotation).Some? && Seconds(parse(p.annotation).value) <= Seconds(p.clock.rotate)
  }

  /** One pass: a request handled in the pass that answers it has its record if and only if it is
      handled in time. */
  lemma HandledIsRecordedExactlyWhenNotAhead(parse: Parse, cgs: Option<CGS>, p: Input)
    requires WellFormed(p.settings) && p.ready && OnDemand(parse, p.annotation, cgs)
    ensures HandledIsRecorded(parse, Some(AfterPass(parse, cgs, p))) <==> HandledInTime(parse, cgs, p)
  {
    assert Rotates(parse, p.annotation, cgs, p.settings, p.clock.check);
  }

  lemma HandledStep(parse: Parse, run: seq<Input>, trigs: seq<int -> bool>, cgs: seq<Option<CGS>>, i: nat)
    requires IsRun(parse, run, trigs, cgs) && i < |run| && HandledIsRecorded(parse, cgs[i])
    ensures HandledIsRecorded(parse, cgs[i + 1]) <==> HandledInTime(parse, cgs[i], run[i])
  {
    StepRecords(parse, run, trigs, cgs, i);
    assert cgs[i + 1] == Some(AfterPass(parse, cgs[i], run[i]));
    if run[i].ready && OnDemand(parse, run[i].annotation, cgs[i]) {
      HandledIsRecordedExactlyWhenNotAhead(parse, cgs[i], run[i]);
    }
  }

  /** Over every run: handled requests are recorded at all times if and only if every pass that
      both answers a request and marks it as handled does so in time. A request ahead of the clock
      that is handled by a later pass does no harm. */
  lemma {:induction false} HandledRequestsAreRecordedExactly(parse: Parse, run: seq<Input>, trigs: seq<int -> bool>, cgs: seq<Option<CGS>>, n: nat)
    requires IsRun(parse, run, trigs, cgs) && n <= |run| && HandledIsRecorded(parse, cgs[0])
    ensures (forall i :: 0 <= i <= n ==> HandledIsRecorded(parse, cgs[i])) <==>
            (forall i :: 0 <= i < n ==> HandledInTime(parse, cgs[i], run[i]))
  {
    if n > 0 {
      HandledRequestsAreRecordedExactly(parse, run, trigs, cgs, n - 1);
      if HandledIsRecorded(parse, cgs[n - 1]) {
        HandledStep(parse, run, trigs, cgs, n - 1);
      }
    }
  }

  /** A run in which it fails: a ready Gateway answers a request of the next second at once. */
  lemma RequestAheadIsNotRecorded(parse: Parse, settings: Settings, request: string, now: int)
    requires WellFormed(settings) && parse(request) == Some(now + SECOND) && request != ""
    ensures !HandledIsRecorded(parse, Some(AfterPass(parse, None, Input(request, settings, Clock(now, now, now), "hash", true))))
  {
    HandledIsRecordedExactlyWhenNotAhead(parse, None, Input(request, settings, Clock(now, now, now), "hash", true));
  }
}
