/** The DNS records of one Gateway: reconcileDNS and computeDesiredDNSHostnames of
    internal/controller/gateway_dns.go over the record store of internal/cloudflare/client.go,
    when any call may fail and maps are visited in any order. */
module Dns {
  import opened Base

  /** At most one CNAME per zone and name (section 3.6.2 of RFC 1034): its target. */
  type Records = map<(string, string), string>

  datatype DNSPolicy = DNSPolicy(enabled: bool, zones: seq<string>)

  /** Zone lookups by name, stable within a pass; None when the lookup fails. */
  type Lookup = string -> Option<string>

  // ---------- Zones ----------

  /** The text of labels joined by dots. */
  function Join(labels: seq<string>): string {
    if labels == [] then ""
    else if |labels| == 1 then labels[0]
    else labels[0] + "." + Join(labels[1..])
  }

  /** The labels are what dots separate: cutting at the first dot gives the first label and the text
      of the others. */
  lemma {:induction false} CutsAtLabels(labels: seq<string>)
    requires labels != [] && '.' !in labels[0]
    ensures Cut(Join(labels), '.') == if |labels| == 1 then Parts(labels[0], "", false) else Parts(labels[0], Join(labels[1..]), true)
  {
    if |labels| > 1 {
      CutIsUnique(Join(labels), '.', labels[0], Join(labels[1..]));
    }
  }

  /** The lookup gets as far as the suffix that starts at label i: no longer one names a zone,
      and none of the listings up to it fails. */
  ghost predicate Reaches(zoneIDs: map<string, string>, labels: seq<string>, failing: set<nat>, i: nat) {
    && i < |labels| - 1
    && (forall j: nat :: j <= i ==> j !in failing)
    && forall j :: 0 <= j < i ==> Join(labels[j..]) !in zoneIDs
  }

  /** FindZoneIDByHostname, on the labels of the hostname: the zone named by the longest suffix
      of at least two labels that names one. `failing` tells which suffixes cannot be listed. */
  method FindZoneIDByHostname(zoneIDs: map<string, string>, labels: seq<string>, failing: set<nat>) returns (r: Option<string>)
    ensures r.Some? <==> exists i: nat :: Reaches(zoneIDs, labels, failing, i) && Join(labels[i..]) in zoneIDs
    ensures forall i: nat :: Reaches(zoneIDs, labels, failing, i) && Join(labels[i..]) in zoneIDs ==>
                               r == Some(zoneIDs[Join(labels[i..])])
  {
    var i: nat := 0;
    while i < |labels| - 1
      invariant forall j: nat :: j < i ==> j !in failing
      invariant forall j :: 0 <= j < i && j < |labels| ==> Join(labels[j..]) !in zoneIDs
    {
      if i in failing {
        return None;
      }
      var candidate := Join(labels[i..]);
      if candidate in zoneIDs {
        assert Reaches(zoneIDs, labels, failing, i);
        return Some(zoneIDs[candidate]);
      }
      i := i + 1;
    }
    return None;
  }

  /** hostnameInZone: the hostname ends in "." and the zone, and what precedes holds no dot. */
  predicate HostnameInZone(hostname: string, zone: string) {
    var n := |hostname| - |zone| - 1;
    n >= 0 && hostname[n..] == "." + zone && '.' !in hostname[..n]
  }

  /** A hostname is in a zone exactly when the zone is what follows its first dot. So it is in
      at most one zone, and the order of the configured zones does not matter. */
  lemma ZoneFollowsFirstDot(hostname: string, zone: string)
    ensures HostnameInZone(hostname, zone) <==> Cut(hostname, '.').found && Cut(hostname, '.').after == zone
  {
    var n := |hostname| - |zone| - 1;
    if HostnameInZone(hostname, zone) {
      assert hostname == hostname[..n] + "." + zone;
      CutIsUnique(hostname, '.', hostname[..n], zone);
    }
    var i := IndexByte(hostname, '.');
    if i != -1 && hostname[i + 1..] == zone {
      assert i == n && hostname[n..] == "." + zone;
    }
  }

  // ---------- The desired hostnames ----------

  /** The zone ID a hostname is to be managed in, if any. */
  function ZoneFor(lookup: Lookup, policy: DNSPolicy, hostname: string): Option<string> {
    if policy.enabled && policy.zones == [] then lookup(hostname)
    else
      var parts := Cut(hostname, '.');
      if parts.found && parts.after in policy.zones then lookup(parts.after) else None
  }

  predicate ZonesFound(lookup: Lookup, policy: DNSPolicy) {
    forall z :: z in policy.zones ==> lookup(z).Some?
  }

  /** The hostnames that get managed CNAMEs, with their zone IDs; None when a configured zone
      is not found. */
  function Desired(lookup: Lookup, policy: DNSPolicy, hostnames: seq<string>): Option<map<string, string>> {
    if !ZonesFound(lookup, policy) then None
    else Some(map h | h in hostnames && ZoneFor(lookup, policy, h).Some? :: ZoneFor(lookup, policy, h).value)
  }

  /** With configured zones, a hostname is desired exactly when one of them holds it, in that zone. */
  lemma DesiredByZone(lookup: Lookup, policy: DNSPolicy, hostnames: seq<string>, h: string)
    requires !(policy.enabled && policy.zones == [])
    ensures Desired(lookup, policy, hostnames).None? <==> exists z :: z in policy.zones && lookup(z).None?
    ensures var desired := Desired(lookup, policy, hostnames);
            desired.Some? ==>
              && (h in desired.value <==> h in hostnames && exists z :: z in policy.zones && HostnameInZone(h, z))
              && forall z :: z in policy.zones && HostnameInZone(h, z) && h in hostnames ==> lookup(z) == Some(desired.value[h])
  {
    forall z | z in policy.zones
      ensures HostnameInZone(h, z) <==> Cut(h, '.').found && Cut(h, '.').after == z
    {
      ZoneFollowsFirstDot(h, z);
    }
    if Cut(h, '.').found && Cut(h, '.').after in policy.zones {
      assert HostnameInZone(h, Cut(h, '.').after);
    }
  }

  lemma AllDesiredByZone(lookup: Lookup, policy: DNSPolicy, hostnames: seq<string>)
    requires !(policy.enabled && policy.zones == [])
    ensures var desired := Desired(lookup, policy, hostnames);
            && (desired.None? <==> exists z :: z in policy.zones && lookup(z).None?)
            && (desired.Some? ==>
                  && (forall h :: h in desired.value <==> h in hostnames && exists z :: z in policy.zones && HostnameInZone(h, z))
                  && forall h, z :: h in hostnames && z in policy.zones && HostnameInZone(h, z) ==>
                                      lookup(z) == Some(desired.value[h]))
  {
    forall h {
      DesiredByZone(lookup, policy, hostnames, h);
    }
  }

  /** computeDesiredDNSHostnames. With all zones, a hostname is desired exactly when a zone is found
      for it; with configured zones, exactly when one of them holds it, and then in that zone. It
      fails when a configured zone is not found. */
  method ComputeDesired(lookup: Lookup, policy: DNSPolicy, hostnames: seq<string>) returns (desired: Option<map<string, string>>)
    ensures desired == Desired(lookup, policy, hostnames)
    ensures policy.enabled && policy.zones == [] ==>
              && desired.Some?
              && (forall h :: h in desired.value <==> h in hostnames && lookup(h).Some?)
              && forall h :: h in desired.value ==> lookup(h) == Some(desired.value[h])
    ensures !(policy.enabled && policy.zones == []) ==>
              && (desired.None? <==> exists z :: z in policy.zones && lookup(z).None?)
              && (desired.Some? ==>
                    && (forall h :: h in desired.value <==> h in hostnames && exists z :: z in policy.zones && HostnameInZone(h, z))
                    && forall h, z :: h in hostnames && z in policy.zones && HostnameInZone(h, z) ==>
                                        lookup(z) == Some(desired.value[h]))
  {
    if !(policy.enabled && policy.zones == []) {
      AllDesiredByZone(lookup, policy, hostnames);
    }
    var found: map<string, string> := map[];
    if policy.enabled && policy.zones == [] {
      for i := 0 to |hostnames|
        invariant found.Keys == set h | h in hostnames[..i] && lookup(h).Some?
        invariant forall h :: h in found ==> lookup(h) == Some(found[h])
      {
        var zone := lookup(hostnames[i]);
        assert hostnames[..i + 1] == hostnames[..i] + [hostnames[i]];
        if zone.Some? {
          found := found[hostnames[i] := zone.value];
        }
      }
      assert hostnames[..|hostnames|] == hostnames;
      assert found == Desired(lookup, policy, hostnames).value;
      return Some(found);
    }
    var zoneMap: map<string, string> := map[];
    for i := 0 to |policy.zones|
      invariant forall z :: z in policy.zones[..i] ==> z in zoneMap && lookup(z) == Some(zoneMap[z])
    {
      var zone := lookup(policy.zones[i]);
      if zone.None? {
        return None;
      }
      zoneMap := zoneMap[policy.zones[i] := zone.value];
      assert policy.zones[..i + 1] == policy.zones[..i] + [policy.zones[i]];
    }
    assert policy.zones[..|policy.zones|] == policy.zones;
    for i := 0 to |hostnames|
      invariant found.Keys == set h | h in hostnames[..i] && ZoneFor(lookup, policy, h).Some?
      invariant forall h :: h in found ==> ZoneFor(lookup, policy, h) == Some(found[h])
    {
      var zoneID := AssignZone(lookup, policy, zoneMap, hostnames[i]);
      assert hostnames[..i + 1] == hostnames[..i] + [hostnames[i]];
      if zoneID.Some? {
        found := found[hostnames[i] := zoneID.value];
      }
    }
    assert hostnames[..|hostnames|] == hostnames;
    assert ZonesFound(lookup, policy);
    assert found == Desired(lookup, policy, hostnames).value;
    return Some(found);
  }

  /** The inner loop over the configured zones. */
  method AssignZone(lookup: Lookup, policy: DNSPolicy, zoneMap: map<string, string>, hostname: string) returns (zoneID: Option<string>)
    requires !(policy.enabled && policy.zones == [])
    requires forall z :: z in policy.zones ==> z in zoneMap && lookup(z) == Some(zoneMap[z])
    ensures zoneID == ZoneFor(lookup, policy, hostname)
  {
    zoneID := None;
    var parts := Cut(hostname, '.');
    for k := 0 to |policy.zones|
      invariant zoneID == if parts.found && parts.after in policy.zones[..k] then lookup(parts.after) else None
    {
      ZoneFollowsFirstDot(hostname, policy.zones[k]);
      assert policy.zones[..k + 1] == policy.zones[..k] + [policy.zones[k]];
      if HostnameInZone(hostname, policy.zones[k]) {
        zoneID := Some(zoneMap[policy.zones[k]]);
      }
    }
    assert policy.zones[..|policy.zones|] == policy.zones;
  }

  // ---------- The effect of a pass on the records ----------

  /** The hostnames whose CNAME points at the target, in any zone. */
  function Pointing(records: Records, target: string): set<string> {
    set key | key in records && records[key] == target :: key.1
  }

  /** A record came to point at the target: a desired hostname nothing pointed from before. */
  ghost predicate CreatedAt(before: Records, after: Records, target: string, desired: map<string, string>, key: (string, string)) {
    && key.1 in desired && key.0 == desired[key.1] && key.1 !in Pointing(before, target)
    && key in after && after[key] == target
  }

  /** A record that pointed at the target, for a hostname not desired, is gone. */
  ghost predicate RemovedAt(before: Records, after: Records, target: string, desired: map<string, string>, key: (string, string)) {
    key in before && before[key] == target && key.1 !in desired && key !in after
  }

  predicate SameAt(before: Records, after: Records, key: (string, string)) {
    (key in before <==> key in after) && (key in before ==> before[key] == after[key])
  }

  /** All a pass may do, complete or not: create missing desired records, remove stale ones. */
  ghost predicate Effect(before: Records, after: Records, target: string, desired: map<string, string>) {
    forall key: (string, string) ::
      || SameAt(before, after, key)
      || CreatedAt(before, after, target, desired, key)
      || RemovedAt(before, after, target, desired, key)
  }

  /** Every record lies in a zone of the account. */
  ghost predicate InZones(records: Records, zones: seq<string>) {
    forall key :: key in records ==> key.0 in zones
  }

  lemma PointsFrom(records: Records, target: string, hostname: string) returns (key: (string, string))
    requires hostname in Pointing(records, target)
    ensures key in records && records[key] == target && key.1 == hostname
  {
    key :| key in records && records[key] == target && key.1 == hostname;
  }

  /** A pass that stops part-way never enlarges the difference to the desired hostnames. */
  lemma EffectShrinksDifference(before: Records, after: Records, target: string, desired: map<string, string>)
    requires Effect(before, after, target, desired)
    ensures Pointing(after, target) - desired.Keys <= Pointing(before, target) - desired.Keys
    ensures desired.Keys - Pointing(after, target) <= desired.Keys - Pointing(before, target)
  {
    forall h | h in Pointing(after, target) - desired.Keys
      ensures h in Pointing(before, target)
    {
      var key := PointsFrom(after, target, h);
      assert SameAt(before, after, key);
    }
    forall h | h in desired.Keys && h in Pointing(before, target)
      ensures h in Pointing(after, target)
    {
      var key := PointsFrom(before, target, h);
      assert SameAt(before, after, key);
    }
  }

  /** Once the hostnames are the desired ones, a pass changes nothing. */
  lemma SettledIsUntouched(before: Records, after: Records, target: string, desired: map<string, string>)
    requires Effect(before, after, target, desired) && Pointing(before, target) == desired.Keys
    ensures after == before
  {
    forall key: (string, string)
      ensures (key in before <==> key in after) && (key in before ==> before[key] == after[key])
    {
      if key in before && before[key] == target {
        assert key.1 in Pointing(before, target);
      }
      assert SameAt(before, after, key) || CreatedAt(before, after, target, desired, key)
             || RemovedAt(before, after, target, desired, key);
    }
  }

  /** The hostname has its record, pointing at the target, in the zone it is to be managed in. */
  ghost predicate Placed(records: Records, target: string, desired: map<string, string>, h: string) {
    h in desired && (desired[h], h) in records && records[(desired[h], h)] == target
  }

  /** Hostnames are compared without their zones. So after a successful pass a desired hostname
      has its record in its own zone if and only if it had it there before, or nothing pointed at
      the target from it in any zone. */
  lemma PlacedExactly(before: Records, after: Records, target: string, desired: map<string, string>, h: string)
    requires Effect(before, after, target, desired) && Pointing(after, target) == desired.Keys
    requires h in desired
    ensures Placed(after, target, desired, h) <==> Placed(before, target, desired, h) || h !in Pointing(before, target)
  {
    var own := (desired[h], h);
    assert SameAt(before, after, own) || CreatedAt(before, after, target, desired, own);
    var key := PointsFrom(after, target, h);
    assert SameAt(before, after, key) || CreatedAt(before, after, target, desired, key);
  }

  /** What PlacedExactly says of every desired hostname. */
  ghost predicate AllPlaced(before: Records, after: Records, target: string, desired: map<string, string>) {
    forall h :: h in desired ==>
                  (Placed(after, target, desired, h) <==> Placed(before, target, desired, h) || h !in Pointing(before, target))
  }

  lemma AllPlacedExactly(before: Records, after: Records, target: string, desired: map<string, string>)
    requires Effect(before, after, target, desired) && Pointing(after, target) == desired.Keys
    ensures AllPlaced(before, after, target, desired)
  {
    forall h | h in desired
      ensures Placed(after, target, desired, h) <==> Placed(before, target, desired, h) || h !in Pointing(before, target)
    {
      PlacedExactly(before, after, target, desired, h);
    }
  }

  const ADDED_ZONE_HOST := "x.app.example.com"

  /** A record that stays in the wrong zone: the hostname was managed in the zone of example.com,
      then the zone app.example.com is added to the account. Every pass, successful or not, leaves
      the record where it is, so the hostname never gets one in the zone it now belongs to. */
  lemma AddedZoneStaysEmpty(lookup: Lookup, target: string, after: Records)
    requires lookup(ADDED_ZONE_HOST) == Some("app.example.com's zone")
    ensures var before := map[("example.com's zone", ADDED_ZONE_HOST) := target];
            var desired := Desired(lookup, DNSPolicy(true, []), [ADDED_ZONE_HOST]).value;
            && desired.Keys == {ADDED_ZONE_HOST} && !Placed(before, target, desired, ADDED_ZONE_HOST)
            && (Effect(before, after, target, desired) ==> after == before)
  {
    var before := map[("example.com's zone", ADDED_ZONE_HOST) := target];
    var desired := Desired(lookup, DNSPolicy(true, []), [ADDED_ZONE_HOST]).value;
    assert desired.Keys == {ADDED_ZONE_HOST};
    forall h
      ensures h in Pointing(before, target) <==> h in desired.Keys
    {
      if h == ADDED_ZONE_HOST {
        assert ("example.com's zone", h) in before && ("example.com's zone", h).1 == h;
      }
    }
    assert desired[ADDED_ZONE_HOST] != "example.com's zone" by { assert "app.example.com's zone"[0] != "example.com's zone"[0]; }
    if Effect(before, after, target, desired) {
      SettledIsUntouched(before, after, target, desired);
    }
  }

  // ---------- The record store and a pass over it ----------

  class RecordStore {
    const zones: seq<string>
    /** Whether every API call succeeds. When not, any may fail. */
    const reliable: bool
    var records: Records

    constructor (zones: seq<string>, records: Records, reliable: bool)
      ensures this.zones == zones && this.records == records && this.reliable == reliable
    {
      this.zones, this.reliable := zones, reliable;
      this.records := records;
    }

    /** GetDNSCNAMETarget; None when the call fails. */
    method GetDNSCNAMETarget(zoneID: string, hostname: string) returns (r: Option<Option<string>>)
      ensures r.Some? ==> r.value == if (zoneID, hostname) in records then Some(records[(zoneID, hostname)]) else None
      ensures reliable ==> r.Some?
    {
      var fails: bool := *;
      if fails && !reliable {
        return None;
      }
      return Some(if (zoneID, hostname) in records then Some(records[(zoneID, hostname)]) else None);
    }

    /** EnsureDNSCNAME: creates the record or points it at the target. A failed call may have
        had its effect. */
    method EnsureDNSCNAME(zoneID: string, hostname: string, target: string) returns (ok: bool)
      modifies this`records
      ensures ok ==> records == old(records)[(zoneID, hostname) := target]
      ensures !ok ==> records == old(records) || records == old(records)[(zoneID, hostname) := target]
      ensures reliable ==> ok
    {
      var reached: bool := *;
      if !reached && !reliable {
        return false;
      }
      if !((zoneID, hostname) in records && records[(zoneID, hostname)] == target) {
        records := records[(zoneID, hostname) := target];
      }
      ok := *;
      ok := ok || reliable;
    }

    /** DeleteDNSCNAME: removes the record, whatever its target. */
    method DeleteDNSCNAME(zoneID: string, hostname: string) returns (ok: bool)
      modifies this`records
      ensures ok ==> records == old(records) - {(zoneID, hostname)}
      ensures !ok ==> records == old(records) || records == old(records) - {(zoneID, hostname)}
      ensures reliable ==> ok
    {
      var reached: bool := *;
      if !reached && !reliable {
        return false;
      }
      records := records - {(zoneID, hostname)};
      ok := *;
      ok := ok || reliable;
    }

    /** ListDNSCNAMEsByTarget, in some order; None when the call fails. */
    method ListDNSCNAMEsByTarget(zoneID: string, target: string) returns (r: Option<seq<string>>)
      ensures r.Some? ==> forall h :: h in r.value <==> (zoneID, h) in records && records[(zoneID, h)] == target
      ensures reliable ==> r.Some?
    {
      var fails: bool := *;
      if fails && !reliable {
        return None;
      }
      var pending := set key | key in records && key.0 == zoneID && records[key] == target;
      var hostnames: seq<string> := [];
      while pending != {}
        invariant forall key :: key in pending ==> key in records && key.0 == zoneID && records[key] == target
        invariant forall h :: h in hostnames || (zoneID, h) in pending <==> (zoneID, h) in records && records[(zoneID, h)] == target
        decreases |pending|
      {
        var key :| key in pending;
        assert key == (zoneID, key.1);
        hostnames := hostnames + [key.1];
        pending := pending - {key};
      }
      return Some(hostnames);
    }

    /** All records that point at the target, zone by zone. */
    method ListActual(target: string) returns (r: Option<seq<(string, string)>>)
      requires InZones(records, zones)
      ensures r.Some? ==> forall key :: key in r.value <==> key in records && records[key] == target
      ensures reliable ==> r.Some?
    {
      var actual: seq<(string, string)> := [];
      for i := 0 to |zones|
        invariant forall key :: key in actual <==> key in records && records[key] == target && key.0 in zones[..i]
      {
        var listed := ListDNSCNAMEsByTarget(zones[i], target);
        if listed.None? {
          return None;
        }
        ghost var before := actual;
        for j := 0 to |listed.value|
          invariant forall key :: key in actual <==> key in before || (key.0 == zones[i] && key.1 in listed.value[..j])
        {
          assert listed.value[..j + 1] == listed.value[..j] + [listed.value[j]];
          actual := actual + [(zones[i], listed.value[j])];
        }
        assert listed.value[..|listed.value|] == listed.value;
        assert zones[..i + 1] == zones[..i] + [zones[i]];
      }
      assert zones[..|zones|] == zones;
      return Some(actual);
    }

    /** Creates the missing records, in any order. */
    method CreateMissing(target: string, desired: map<string, string>, present: set<string>) returns (ok: bool)
      requires present == Pointing(records, target)
      modifies this`records
      ensures forall key: (string, string) ::
                SameAt(old(records), records, key) || CreatedAt(old(records), records, target, desired, key)
      ensures ok ==> forall h :: h in desired && h !in present ==>
                                   (desired[h], h) in records && records[(desired[h], h)] == target
      ensures reliable ==> ok
    {
      var pending := desired.Keys;
      while pending != {}
        invariant pending <= desired.Keys
        invariant forall key: (string, string) ::
                    SameAt(old(records), records, key) || CreatedAt(old(records), records, target, desired, key)
        invariant forall h :: h in desired && h !in pending && h !in present ==>
                                (desired[h], h) in records && records[(desired[h], h)] == target
        decreases |pending|
      {
        var h :| h in pending;
        if h !in present {
          ghost var before := records;
          ok := EnsureDNSCNAME(desired[h], h, target);
          CreateStep(old(records), before, records, target, desired, h);
          if !ok {
            return;
          }
        }
        pending := pending - {h};
      }
      ok := true;
    }

    /** Deletes the listed records whose hostname is not desired. */
    method DeleteStale(target: string, desired: map<string, string>, actual: seq<(string, string)>) returns (ok: bool)
      modifies this`records
      ensures forall key :: key in records ==> key in old(records) && records[key] == old(records)[key]
      ensures forall key :: key in old(records) && key !in records ==> key in actual && key.1 !in desired
      ensures ok ==> forall key :: key in actual && key.1 !in desired ==> key !in records
      ensures reliable ==> ok
    {
      for i := 0 to |actual|
        invariant forall key :: key in records ==> key in old(records) && records[key] == old(records)[key]
        invariant forall key :: key in old(records) && key !in records ==> key in actual && key.1 !in desired
        invariant forall key :: key in actual[..i] && key.1 !in desired ==> key !in records
      {
        assert actual[..i + 1] == actual[..i] + [actual[i]];
        if actual[i].1 !in desired {
          ok := DeleteDNSCNAME(actual[i].0, actual[i].1);
          if !ok {
            return;
          }
        }
      }
      assert actual[..|actual|] == actual;
      ok := true;
    }

    /** reconcileDNS. Whatever calls fail, only missing desired records are created and only
        stale ones removed; on success the hostnames that point at the target are exactly the
        desired ones (none when DNS management is disabled), and a desired hostname has its
        record in its own zone unless it was already pointing there from another. */
    method ReconcileDNS(lookup: Lookup, policy: DNSPolicy, target: string, hostnames: seq<string>) returns (ok: bool)
      requires InZones(records, zones)
      modifies this`records
      ensures var desired := if policy.enabled then Desired(lookup, policy, hostnames) else Some(map[]);
              && (desired.None? ==> !ok && records == old(records))
              && (desired.Some? ==> Effect(old(records), records, target, desired.value))
              && (ok ==> desired.Some? && Pointing(records, target) == desired.value.Keys)
              && (ok ==> AllPlaced(old(records), records, target, desired.value))
      ensures reliable ==> (ok <==> policy.enabled ==> Desired(lookup, policy, hostnames).Some?)
    {
      var listing := ListActual(target);
      if listing.None? {
        return false;
      }
      var actual := listing.value;
      if !policy.enabled {
        ok := DeleteStale(target, map[], actual);
        return;
      }
      var computed := ComputeDesired(lookup, policy, hostnames);
      if computed.None? {
        return false;
      }
      var desired := computed.value;
      var present := set key | key in actual :: key.1;
      assert present == Pointing(records, target);
      ok := CreateMissing(target, desired, present);
      if !ok {
        return;
      }
      ghost var created := records;
      ok := DeleteStale(target, desired, actual);
      EffectOfBoth(old(records), created, records, target, desired, actual);
      if ok {
        DesiredArePointing(old(records), records, target, desired);
        AllPlacedExactly(old(records), records, target, desired);
      }
    }
  }

  lemma CreateStep(before: Records, mid: Records, after: Records, target: string, desired: map<string, string>, h: string)
    requires h in desired && h !in Pointing(before, target)
    requires forall key: (string, string) :: SameAt(before, mid, key) || CreatedAt(before, mid, target, desired, key)
    requires after == mid || after == mid[(desired[h], h) := target]
    ensures forall key: (string, string) :: SameAt(before, after, key) || CreatedAt(before, after, target, desired, key)
  {
    forall key: (string, string)
      ensures SameAt(before, after, key) || CreatedAt(before, after, target, desired, key)
    {
      assert SameAt(before, mid, key) || CreatedAt(before, mid, target, desired, key);
    }
  }

  lemma EffectOfBoth(before: Records, created: Records, after: Records, target: string, desired: map<string, string>, actual: seq<(string, string)>)
    requires forall key :: key in actual <==> key in before && before[key] == target
    requires forall key: (string, string) ::
               SameAt(before, created, key) || CreatedAt(before, created, target, desired, key)
    requires forall key :: key in after ==> key in created && after[key] == created[key]
    requires forall key :: key in created && key !in after ==> key in actual && key.1 !in desired
    ensures Effect(before, after, target, desired)
  {
    forall key: (string, string)
      ensures SameAt(before, after, key) || CreatedAt(before, after, target, desired, key)
              || RemovedAt(before, after, target, desired, key)
    {
      assert SameAt(before, created, key) || CreatedAt(before, created, target, desired, key);
    }
  }

  /** After an effect that left nothing stale and nothing missing, exactly the desired
      hostnames point at the target. */
  lemma DesiredArePointing(before: Records, after: Records, target: string, desired: map<string, string>)
    requires Effect(before, after, target, desired)
    requires forall key :: key in before && before[key] == target && key.1 !in desired ==> key !in after
    requires forall h :: h in desired && h !in Pointing(before, target) ==>
                           (desired[h], h) in after && after[(desired[h], h)] == target
    ensures Pointing(after, target) == desired.Keys
  {
    EffectShrinksDifference(before, after, target, desired);
    forall h | h in Pointing(after, target)
      ensures h in desired
    {
      var key := PointsFrom(after, target, h);
      assert SameAt(before, after, key) || CreatedAt(before, after, target, desired, key);
    }
    forall h | h in desired
      ensures h in Pointing(after, target)
    {
      if h !in Pointing(before, target) {
        assert (desired[h], h).1 == h;
      }
    }
  }
}
