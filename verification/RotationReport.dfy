/** The report of a watched rotation: printReport of cmd/cfgwctl/watch_rotation.go, from the
    recorded events to its verdict on the rollout order. */
module RotationReport {
  import opened Base
  import opened RotationWatcher

  /** The time of the last event of a kind about a Deployment, among the first n. */
  function LastTime(events: seq<Event>, kind: EventKind, name: string, n: nat): Option<int>
    requires n <= |events|
  {
    if n == 0 then None
    else if events[n - 1].kind == kind && events[n - 1].name == name then Some(events[n - 1].time)
    else LastTime(events, kind, name, n - 1)
  }

  /** A Deployment's timeline while it is collected; a missing event is None. */
  datatype Entry = Entry(updated: Option<int>, rolled: Option<int>)

  function EntryOf(events: seq<Event>, name: string, n: nat): Entry
    requires n <= |events|
  {
    Entry(LastTime(events, TokenUpdated, name, n), LastTime(events, RolledOut, name, n))
  }

  /** The hash of the first token-updated event, or "". */
  function NewHash(events: seq<Event>, n: nat): string
    requires n <= |events|
  {
    if n == 0 then ""
    else
      var h := NewHash(events, n - 1);
      if (forall k :: 0 <= k < n - 1 ==> events[k].kind != TokenUpdated) && events[n - 1].kind == TokenUpdated
      then events[n - 1].hash else h
  }

  /** All updated Deployments got the same new hash; an empty first hash is not compared. */
  predicate OneHash(events: seq<Event>) {
    var newHash := NewHash(events, |events|);
    newHash != "" ==> forall i :: 0 <= i < |events| && events[i].kind == TokenUpdated ==> events[i].hash == newHash
  }

  method FindNewHash(events: seq<Event>) returns (newHash: string)
    ensures newHash == NewHash(events, |events|)
  {
    for i := 0 to |events|
      invariant forall k :: 0 <= k < i ==> events[k].kind != TokenUpdated
      invariant NewHash(events, i) == ""
    {
      if events[i].kind == TokenUpdated {
        NewHashStays(events, i + 1, |events|);
        return events[i].hash;
      }
    }
    return "";
  }

  lemma {:induction false} NewHashStays(events: seq<Event>, m: nat, n: nat)
    requires m <= n <= |events| && exists k :: 0 <= k < m && events[k].kind == TokenUpdated
    ensures NewHash(events, n) == NewHash(events, m)
    decreases n
  {
    if m < n { NewHashStays(events, m, n - 1); }
  }

  /** The new hash is that of the first token-updated event. */
  lemma {:induction false} NewHashIsFirst(events: seq<Event>, i: nat)
    requires i < |events| && events[i].kind == TokenUpdated && forall k :: 0 <= k < i ==> events[k].kind != TokenUpdated
    ensures NewHash(events, |events|) == events[i].hash
  {
    NewHashStays(events, i + 1, |events|);
  }

  /** A pod event is filed under an initial Deployment that the pod's name extends. */
  ghost predicate PodSeen(events: seq<Event>, initial: set<string>, name: string, n: nat)
    requires n <= |events|
  {
    name in initial && exists i :: 0 <= i < n && events[i].kind == PodEvent && HasPrefix(events[i].name, name + "-")
  }

  /** The Deployment, if any, that a pod is filed under: whichever comes first. */
  method OwnerOf(initial: set<string>, pod: string) returns (owner: Option<string>)
    ensures owner.Some? ==> owner.value in initial && HasPrefix(pod, owner.value + "-")
    ensures owner.None? ==> forall d :: d in initial ==> !HasPrefix(pod, d + "-")
  {
    var pending := initial;
    while pending != {}
      invariant pending <= initial && forall d :: d in initial && d !in pending ==> !HasPrefix(pod, d + "-")
      decreases |pending|
    {
      var d :| d in pending;
      if HasPrefix(pod, d + "-") {
        return Some(d);
      }
      pending := pending - {d};
    }
    return None;
  }

  function EntryIn(m: map<string, Entry>, name: string): Entry {
    if name in m then m[name] else Entry(None, None)
  }

  /** The timelines by Deployment name, or None when two new hashes appear. */
  method Collect(events: seq<Event>, initial: set<string>) returns (r: Option<map<string, Entry>>)
    ensures r.None? <==> !OneHash(events)
    ensures r.Some? ==> forall name :: EntryOf(events, name, |events|) == EntryIn(r.value, name)
    ensures r.Some? ==> forall name :: name in r.value && r.value[name] == Entry(None, None) ==> PodSeen(events, initial, name, |events|)
  {
    var newHash := FindNewHash(events);
    var m: map<string, Entry> := map[];
    for i := 0 to |events|
      invariant newHash != "" ==> forall k :: 0 <= k < i && events[k].kind == TokenUpdated ==> events[k].hash == newHash
      invariant forall name :: EntryOf(events, name, i) == EntryIn(m, name)
      invariant forall name :: name in m && m[name] == Entry(None, None) ==> PodSeen(events, initial, name, i)
    {
      var ev := events[i];
      ghost var before := m;
      match ev.kind {
        case TokenUpdated =>
          m := m[ev.name := EntryIn(m, ev.name).(updated := Some(ev.time))];
          if newHash != "" && ev.hash != newHash {
            return None;
          }
        case RolledOut =>
          m := m[ev.name := EntryIn(m, ev.name).(rolled := Some(ev.time))];
        case PodEvent =>
          var owner := OwnerOf(initial, ev.name);
          if owner.Some? {
            assert PodSeen(events, initial, owner.value, i + 1);
            m := m[owner.value := EntryIn(m, owner.value)];
          }
        case GatewayEvent =>
      }
      forall name
        ensures EntryOf(events, name, i + 1) == EntryIn(m, name)
      {
        assert EntryOf(events, name, i) == EntryIn(before, name);
      }
    }
    return Some(m);
  }

  predicate Complete(m: map<string, Entry>) {
    forall name :: name in m ==> m[name].updated.Some? && m[name].rolled.Some?
  }

  function TimelineOf(m: map<string, Entry>, name: string): Timeline
    requires name in m && m[name].updated.Some? && m[name].rolled.Some?
  {
    Timeline(name, m[name].updated.value, m[name].rolled.value)
  }

  /** The timelines are those of the given names, each once. */
  ghost predicate Lists(ts: seq<Timeline>, m: map<string, Entry>, names: set<string>)
    requires Complete(m) && names <= m.Keys
  {
    && (forall i :: 0 <= i < |ts| ==> ts[i].name in names && ts[i] == TimelineOf(m, ts[i].name))
    && DistinctNames(ts)
    && (forall n :: n in names ==> exists i :: 0 <= i < |ts| && ts[i].name == n)
  }

  method Insert(ts: seq<Timeline>, t: Timeline) returns (r: seq<Timeline>, at: nat)
    requires Sorted(ts)
    ensures at <= |ts| && r == ts[..at] + [t] + ts[at..] && Sorted(r)
  {
    at := 0;
    while at < |ts| && ts[at].tokenUpdated <= t.tokenUpdated
      invariant at <= |ts| && forall i :: 0 <= i < at ==> ts[i].tokenUpdated <= t.tokenUpdated
    {
      at := at + 1;
    }
    r := ts[..at] + [t] + ts[at..];
  }

  predicate DistinctNames(ts: seq<Timeline>) {
    forall i, j :: 0 <= i < j < |ts| ==> ts[i].name != ts[j].name
  }

  lemma InsertKeepsDistinct(ts: seq<Timeline>, t: Timeline, at: nat)
    requires DistinctNames(ts) && at <= |ts| && forall i :: 0 <= i < |ts| ==> ts[i].name != t.name
    ensures DistinctNames(ts[..at] + [t] + ts[at..])
  {
  }

  lemma InsertCovers(ts: seq<Timeline>, t: Timeline, at: nat, n: string)
    requires at <= |ts| && (n == t.name || exists i :: 0 <= i < |ts| && ts[i].name == n)
    ensures var r := ts[..at] + [t] + ts[at..]; exists i :: 0 <= i < |r| && r[i].name == n
  {
    var r := ts[..at] + [t] + ts[at..];
    if n == t.name {
      assert r[at].name == n;
    } else {
      var i :| 0 <= i < |ts| && ts[i].name == n;
      assert r[if i < at then i else i + 1].name == n;
    }
  }

  lemma InsertLists(ts: seq<Timeline>, t: Timeline, at: nat, m: map<string, Entry>, names: set<string>)
    requires Complete(m) && names <= m.Keys && Lists(ts, m, names)
    requires t.name in m && t.name !in names && t == TimelineOf(m, t.name) && at <= |ts|
    ensures Lists(ts[..at] + [t] + ts[at..], m, names + {t.name})
  {
    InsertKeepsDistinct(ts, t, at);
    forall n | n in names + {t.name} {
      InsertCovers(ts, t, at, n);
    }
  }

  /** The timelines in the order of their token updates. */
  method SortTimelines(m: map<string, Entry>) returns (ts: seq<Timeline>)
    requires Complete(m)
    ensures Sorted(ts) && Lists(ts, m, m.Keys)
  {
    ts := [];
    var pending := m.Keys;
    while pending != {}
      invariant pending <= m.Keys && Sorted(ts) && Lists(ts, m, m.Keys - pending)
      decreases |pending|
    {
      var n :| n in pending;
      ghost var before, done := ts, m.Keys - pending;
      var at: nat;
      ts, at := Insert(ts, TimelineOf(m, n));
      InsertLists(before, TimelineOf(m, n), at, m, done);
      pending := pending - {n};
      assert m.Keys - pending == done + {n};
    }
    assert m.Keys - pending == m.Keys;
  }

  datatype Verdict = TwoHashes | WrongCount | MissingEvent | Violated | Passed

  /** Every rollout ends after it begins. */
  ghost predicate AllProper(m: map<string, Entry>)
    requires Complete(m)
  {
    forall n :: n in m ==> m[n].updated.value < m[n].rolled.value
  }

  /** No two rollouts overlap. */
  ghost predicate AllDisjoint(m: map<string, Entry>)
    requires Complete(m)
  {
    forall a, b :: a in m && b in m && a != b ==> Disjoint(TimelineOf(m, a), TimelineOf(m, b))
  }

  lemma ListedDisjointness(ts: seq<Timeline>, m: map<string, Entry>)
    requires Complete(m) && Lists(ts, m, m.Keys)
    ensures OneAtATimeReport(ts) <==> AllDisjoint(m)
  {
    if OneAtATimeReport(ts) {
      forall a, b | a in m && b in m && a != b
        ensures Disjoint(TimelineOf(m, a), TimelineOf(m, b))
      {
        var i :| 0 <= i < |ts| && ts[i].name == a;
        var j :| 0 <= j < |ts| && ts[j].name == b;
        if i < j { assert Disjoint(ts[i], ts[j]); } else { assert Disjoint(ts[j], ts[i]); }
      }
    }
    if AllDisjoint(m) {
      forall i, j | 0 <= i < j < |ts|
        ensures Disjoint(ts[i], ts[j])
      {
        assert ts[i] == TimelineOf(m, ts[i].name) && ts[j] == TimelineOf(m, ts[j].name);
      }
    }
  }

  /** printReport, for at least one Deployment: with one new hash, all events present and
      rollouts that end after they begin, it passes exactly when no two rollouts overlap. */
  method Report(events: seq<Event>, initial: set<string>, numDeployments: nat) returns (verdict: Verdict, m: map<string, Entry>)
    requires numDeployments > 0
    ensures verdict.TwoHashes? <==> !OneHash(events)
    ensures !verdict.TwoHashes? ==> forall name :: EntryOf(events, name, |events|) == EntryIn(m, name)
    ensures !verdict.TwoHashes? ==>
              forall name :: name in m && m[name] == Entry(None, None) ==> PodSeen(events, initial, name, |events|)
    ensures !verdict.TwoHashes? ==> (verdict.WrongCount? <==> |m| != numDeployments)
    ensures !verdict.TwoHashes? ==> (verdict.MissingEvent? <==> |m| == numDeployments && !Complete(m))
    ensures verdict.Passed? || verdict.Violated? ==> Complete(m) && (AllProper(m) ==> (verdict.Passed? <==> AllDisjoint(m)))
  {
    var collected := Collect(events, initial);
    if collected.None? {
      return TwoHashes, map[];
    }
    m := collected.value;
    if |m| != numDeployments {
      return WrongCount, m;
    }
    if !Complete(m) {
      return MissingEvent, m;
    }
    var ts := SortTimelines(m);
    var violation := CheckOrder(ts);
    verdict := if violation.None? then Passed else Violated;
    if AllProper(m) {
      NeighbourCheckIsExact(ts);
      ListedDisjointness(ts, m);
    }
  }

  // ---------- Reports of finished watches ----------

  /** Event times are distinct, in the order the events were recorded. */
  ghost predicate Increasing(events: seq<Event>) {
    forall i, j :: 0 <= i < j < |events| ==> events[i].time < events[j].time
  }

  /** Every clock reading is later than the ones before. */
  ghost predicate Ticks(clock: nat -> int) {
    forall i: nat, j: nat :: i < j ==> clock(i) < clock(j)
  }

  lemma {:induction false} CountedHasTime(events: seq<Event>, kind: EventKind, name: string, n: nat)
    requires n <= |events|
    ensures Count(events[..n], kind, name) > 0 <==> LastTime(events, kind, name, n).Some?
    ensures Count(events[..n], kind, name) > 0 ==>
              exists i :: 0 <= i < n && events[i].kind == kind && events[i].name == name
                          && LastTime(events, kind, name, n) == Some(events[i].time)
                          && forall j :: i < j < n ==> !(events[j].kind == kind && events[j].name == name)
  {
    if n > 0 {
      CountedHasTime(events, kind, name, n - 1);
      assert events[..n][..n - 1] == events[..n - 1];
    }
  }

  /** With one event of a kind about a name, that event is where it is. */
  lemma {:induction false} SingleEvent(events: seq<Event>, kind: EventKind, name: string, i: nat, j: nat)
    requires Count(events, kind, name) <= 1 && i < |events| && j < |events|
    requires events[i].kind == kind && events[i].name == name && events[j].kind == kind && events[j].name == name
    ensures i == j
  {
    var last := |events| - 1;
    if i < last && j < last {
      SingleEvent(events[..last], kind, name, i, j);
    } else if i < last {
      CountAtLeastOne(events[..last], kind, name, i);
    } else if j < last {
      CountAtLeastOne(events[..last], kind, name, j);
    }
  }

  lemma {:induction false} CountAtLeastOne(events: seq<Event>, kind: EventKind, name: string, i: nat)
    requires i < |events| && events[i].kind == kind && events[i].name == name
    ensures Count(events, kind, name) >= 1
  {
    var last := |events| - 1;
    if i < last { CountAtLeastOne(events[..last], kind, name, i); }
  }

  /** In the log of a watch in which a Deployment rolled out, its timeline is complete and ends
      after it begins. */
  lemma LoggedTimelineIsProper(events: seq<Event>, tokenUpdated: set<string>, rolledOut: set<string>, name: string)
    requires LogMatches(events, tokenUpdated, rolledOut) && Increasing(events)
    requires name in tokenUpdated && name in rolledOut
    ensures var e := EntryOf(events, name, |events|);
            e.updated.Some? && e.rolled.Some? && e.updated.value < e.rolled.value
  {
    assert events[..|events|] == events;
    assert Count(events, TokenUpdated, name) == 1 && Count(events, RolledOut, name) == 1;
    CountedHasTime(events, TokenUpdated, name, |events|);
    CountedHasTime(events, RolledOut, name, |events|);
    var u :| 0 <= u < |events| && events[u].kind == TokenUpdated && events[u].name == name
             && LastTime(events, TokenUpdated, name, |events|) == Some(events[u].time);
    var r :| 0 <= r < |events| && events[r].kind == RolledOut && events[r].name == name
             && LastTime(events, RolledOut, name, |events|) == Some(events[r].time);
    var j :| 0 <= j < r && events[j].kind == TokenUpdated && events[j].name == events[r].name;
    SingleEvent(events, TokenUpdated, name, u, j);
  }

  /** The report of a watch that finished: unless Deployments got different new hashes, every
      one has its timeline, and the report passes exactly when the rollouts were one at a time. */
  method ReportFinished(w: Watcher) returns (verdict: Verdict, m: map<string, Entry>)
    requires w.Valid() && w.rolledOut == w.names && Ticks(w.clock) && w.numDeployments > 0
    ensures verdict.TwoHashes? <==> !OneHash(w.events)
    ensures !verdict.TwoHashes? ==>
              && m.Keys == w.names && Complete(m) && AllProper(m)
              && verdict == if AllDisjoint(m) then Passed else Violated
  {
    verdict, m := Report(w.events, w.currentHash.Keys, w.numDeployments);
    if verdict.TwoHashes? {
      return;
    }
    assert Increasing(w.events);
    forall name
      ensures name in m <==> name in w.names
      ensures name in m ==> m[name].updated.Some? && m[name].rolled.Some? && m[name].updated.value < m[name].rolled.value
    {
      if name in w.names {
        LoggedTimelineIsProper(w.events, w.tokenUpdated, w.rolledOut, name);
      } else {
        NoTimeline(w.events, w.tokenUpdated, w.rolledOut, name);
      }
    }
    assert m.Keys == w.names;
    assert |m| == |m.Keys|;
  }

  lemma NoTimeline(events: seq<Event>, tokenUpdated: set<string>, rolledOut: set<string>, name: string)
    requires LogMatches(events, tokenUpdated, rolledOut) && name !in tokenUpdated && name !in rolledOut
    ensures EntryOf(events, name, |events|) == Entry(None, None)
  {
    assert events[..|events|] == events;
    CountedHasTime(events, TokenUpdated, name, |events|);
    CountedHasTime(events, RolledOut, name, |events|);
  }

  /** A watch from start to report: whatever the informers deliver about the initial
      Deployments, with a clock that ticks, a finished watch of Deployments that got one new
      hash passes exactly when no two of their rollouts overlap. */
  method WatchAndReport(w: Watcher, stream: seq<InformerEvent>, late: seq<InformerEvent>)
    returns (end: WatchEnd, verdict: Verdict, m: map<string, Entry>)
    requires w.Valid() && Ticks(w.clock) && w.numDeployments > 0
    requires forall i :: 0 <= i < |stream| ==> w.Concerns(stream[i], w.names)
    requires forall i :: 0 <= i < |late| ==> w.Concerns(late[i], w.names)
    modifies w
    ensures w.Valid() && old(w.events) <= w.events
    ensures end.Finished? && OneHash(w.events) ==>
              m.Keys == w.names && Complete(m) && (verdict == if AllDisjoint(m) then Passed else Violated)
    ensures verdict.Passed? ==> OneHash(w.events) && |m| == |w.names|
  {
    end := w.Watch(stream, late);
    if end.Finished? {
      verdict, m := ReportFinished(w);
    } else {
      verdict, m := Report(w.events, w.currentHash.Keys, w.numDeployments);
    }
  }
}
