/** The tunnel of a Gateway: ensureTunnel of internal/controller/gateway_tunnel.go over an account
    that other clients use at the same time, and what its tunnel IDs mean for DNS ownership. */
module Tunnels {
  import opened Base
  import opened Names
  import opened DnsOwnership

  /** An account: the IDs of its tunnels by name, and all IDs ever given, which are not reused. */
  datatype Account = Account(tunnels: map<string, string>, used: set<string>)

  /** Tunnels have distinct, non-empty IDs that count as used. */
  ghost predicate WellFormed(acc: Account) {
    && "" !in acc.used && acc.tunnels.Values <= acc.used
    && forall n, m :: n in acc.tunnels && m in acc.tunnels && acc.tunnels[n] == acc.tunnels[m] ==> n == m
  }

  datatype Change = Creates(name: string, id: string) | Deletes(name: string)

  /** A name that is taken, and an ID that is not new, cannot be created. */
  function Changed(acc: Account, c: Change): Account {
    match c
    case Creates(name, id) =>
      if name in acc.tunnels || id == "" || id in acc.used then acc
      else Account(acc.tunnels[name := id], acc.used + {id})
    case Deletes(name) => acc.(tunnels := acc.tunnels - {name})
  }

  function ChangedBy(acc: Account, changes: seq<Change>): Account {
    if changes == [] then acc else Changed(ChangedBy(acc, changes[..|changes| - 1]), changes[|changes| - 1])
  }

  lemma ChangeKeepsWellFormed(acc: Account, c: Change)
    requires WellFormed(acc)
    ensures WellFormed(Changed(acc, c)) && acc.used <= Changed(acc, c).used
  {
    var after := Changed(acc, c);
    forall id | id in after.tunnels.Values
      ensures id in after.used
    {
      var n :| n in after.tunnels && after.tunnels[n] == id;
      assert n in acc.tunnels && after.tunnels[n] == acc.tunnels[n] ==> id in acc.tunnels.Values;
    }
  }

  lemma {:induction false} ChangesKeepWellFormed(acc: Account, changes: seq<Change>)
    requires WellFormed(acc)
    ensures WellFormed(ChangedBy(acc, changes)) && acc.used <= ChangedBy(acc, changes).used
  {
    if changes != [] {
      var init := changes[..|changes| - 1];
      ChangesKeepWellFormed(acc, init);
      ChangeKeepsWellFormed(ChangedBy(acc, init), changes[|changes| - 1]);
    }
  }

  // ---------- ensureTunnel ----------

  /** Whether the lookups fail, and how the creation ends. */
  datatype EnsureCalls = EnsureCalls(lookupFails: bool, create: Call, secondLookupFails: bool)

  datatype Ensured = Ensured(account: Account, id: Option<string>, created: bool)

  function IDOf(acc: Account, name: string): string {
    if name in acc.tunnels then acc.tunnels[name] else ""
  }

  /** What ensureTunnel does to the account and answers; `race` is what other clients change
      before it creates the tunnel, `later` what they change before it looks again. */
  function EnsureOutcome(acc: Account, name: string, newID: string, race: seq<Change>, later: seq<Change>, calls: EnsureCalls): Ensured {
    if calls.lookupFails then Ensured(acc, None, false)
    else if IDOf(acc, name) != "" then Ensured(acc, Some(IDOf(acc, name)), false)
    else
      var raced := ChangedBy(acc, race);
      if calls.create.Refused? then Ensured(raced, None, false)
      else if name !in raced.tunnels then
        Ensured(Changed(raced, Creates(name, newID)), if calls.create.Done? then Some(newID) else None, calls.create.Done?)
      else if calls.create.Lost? then Ensured(raced, None, false)
      else
        var again := ChangedBy(raced, later);
        if calls.secondLookupFails then Ensured(again, None, false) else Ensured(again, Some(IDOf(again, name)), true)
  }

  datatype CreateResult = Created(id: string) | Conflict | CreateError

  class TunnelStore {
    var account: Account

    constructor (account: Account)
      ensures this.account == account
    {
      this.account := account;
    }

    method OthersAct(changes: seq<Change>)
      modifies this
      ensures account == ChangedBy(old(account), changes)
    {
      for i := 0 to |changes|
        invariant account == ChangedBy(old(account), changes[..i])
      {
        assert changes[..i + 1][..i] == changes[..i];
        account := Changed(account, changes[i]);
      }
      assert changes[..|changes|] == changes;
    }

    /** GetTunnelIDByName: "" for a name without a tunnel, None when the call fails. */
    method GetTunnelIDByName(name: string, fails: bool) returns (r: Option<string>)
      ensures r == if fails then None else Some(IDOf(account, name))
    {
      r := if fails then None else if name in account.tunnels then Some(account.tunnels[name]) else Some("");
    }

    /** CreateTunnel: a conflict when the name is taken. */
    method Create(name: string, newID: string, call: Call) returns (r: CreateResult)
      modifies this
      ensures account == if call.Refused? then old(account) else Changed(old(account), Creates(name, newID))
      ensures r == if !call.Done? then CreateError else if name in old(account).tunnels then Conflict else Created(newID)
    {
      if call.Refused? {
        return CreateError;
      }
      r := if name in account.tunnels then Conflict else Created(newID);
      account := Changed(account, Creates(name, newID));
      if call.Lost? {
        r := CreateError;
      }
    }

    /** ensureTunnel */
    method EnsureTunnel(name: string, newID: string, race: seq<Change>, later: seq<Change>, calls: EnsureCalls)
      returns (id: Option<string>, created: bool)
      modifies this
      ensures Ensured(account, id, created) == EnsureOutcome(old(account), name, newID, race, later, calls)
    {
      created := false;
      id := GetTunnelIDByName(name, calls.lookupFails);
      if id.None? || id.value != "" {
        return;
      }
      OthersAct(race);
      var r := Create(name, newID, calls.create);
      if r.CreateError? {
        return None, false;
      }
      if r.Created? {
        return Some(r.id), true;
      }
      OthersAct(later);
      id := GetTunnelIDByName(name, calls.secondLookupFails);
      created := id.Some?;
    }
  }

  /** When no call fails ensureTunnel succeeds: with the ID of the tunnel that is there, with the new
      ID when nobody else created one in between, and otherwise with what the second lookup finds. */
  lemma {:induction false} EnsureSucceeds(acc: Account, name: string, newID: string, race: seq<Change>, later: seq<Change>)
    requires WellFormed(acc) && newID != "" && newID !in ChangedBy(acc, race).used
    ensures var r, raced := EnsureOutcome(acc, name, newID, race, later, EnsureCalls(false, Done, false)), ChangedBy(acc, race);
            if name in acc.tunnels then r == Ensured(acc, Some(acc.tunnels[name]), false)
            else if name !in raced.tunnels
            then r == Ensured(Account(raced.tunnels[name := newID], raced.used + {newID}), Some(newID), true)
            else r.account == ChangedBy(raced, later) && r.id.Some?
  {
    if name in acc.tunnels {
      assert acc.tunnels[name] in acc.tunnels.Values;
    }
  }

  /** On success ensureTunnel answers the ID of the one tunnel with the name, whoever won a race
      to create it, and leaves a tunnel that was there alone. */
  lemma {:induction false} EnsuredIsTheTunnel(acc: Account, name: string, newID: string, race: seq<Change>, later: seq<Change>, calls: EnsureCalls)
    requires WellFormed(acc) && newID != "" && newID !in ChangedBy(acc, race).used
    ensures var r := EnsureOutcome(acc, name, newID, race, later, calls);
            && WellFormed(r.account)
            && (r.id.Some? ==> r.id.value == IDOf(r.account, name))
            && (name in acc.tunnels ==> r.account == acc)
            && (r.created <==> r.id.Some? && name !in acc.tunnels)
  {
    var raced := ChangedBy(acc, race);
    ChangesKeepWellFormed(acc, race);
    ChangesKeepWellFormed(raced, later);
    ChangeKeepsWellFormed(raced, Creates(name, newID));
    if name in acc.tunnels {
      assert acc.tunnels[name] in acc.tunnels.Values;
    }
  }

  /** It succeeds with an empty ID exactly when another client created the tunnel after the first
      lookup and it was deleted again before the second. */
  lemma {:induction false} EmptyIDExactlyWhenVanished(acc: Account, name: string, newID: string, race: seq<Change>,
                                                      later: seq<Change>, calls: EnsureCalls)
    requires WellFormed(acc) && newID != "" && newID !in ChangedBy(acc, race).used
    ensures var raced := ChangedBy(acc, race);
            EnsureOutcome(acc, name, newID, race, later, calls).id == Some("") <==>
            && calls == EnsureCalls(false, Done, false) && name !in acc.tunnels
            && name in raced.tunnels && name !in ChangedBy(raced, later).tunnels
  {
    var raced := ChangedBy(acc, race);
    var again := ChangedBy(raced, later);
    ChangesKeepWellFormed(acc, race);
    ChangesKeepWellFormed(raced, later);
    if name in acc.tunnels {
      assert acc.tunnels[name] in acc.tunnels.Values;
    }
    if name in again.tunnels {
      assert again.tunnels[name] in again.tunnels.Values;
    }
  }

  /** It can: in an empty account, another client creates the tunnel and deletes it again. */
  lemma TunnelCanVanish(name: string)
    ensures EnsureOutcome(Account(map[], {}), name, "2", [Creates(name, "1")], [Deletes(name)], EnsureCalls(false, Done, false)).id == Some("")
  {
    var empty, race, later := Account(map[], {}), [Creates(name, "1")], [Deletes(name)];
    assert ChangedBy(empty, race[..0]) == empty;
    var raced := ChangedBy(empty, race);
    assert raced == Account(map[name := "1"], {"1"});
    assert ChangedBy(raced, later[..0]) == raced;
    assert name !in ChangedBy(raced, later).tunnels;
  }

  // ---------- DNS ownership within an account ----------

  /** The account holds a tunnel for the Gateway, with this target. */
  ghost predicate Holds(acc: Account, cluster: string, gw: GatewayKey, target: string) {
    TunnelName(cluster, gw) in acc.tunnels && target == TunnelTarget(acc.tunnels[TunnelName(cluster, gw)])
  }

  /** Gateways that have their tunnels have distinct CNAME targets: tunnel names tell them apart,
      IDs the names, and targets the IDs. */
  lemma GatewaysHaveDistinctTargets(acc: Account, cluster: string, a: GatewayKey, b: GatewayKey, x: string, y: string)
    requires WellFormed(acc) && '/' !in cluster && '/' !in a.namespace && '/' !in b.namespace
    requires Holds(acc, cluster, a, x) && Holds(acc, cluster, b, y)
    ensures x == y <==> a == b
  {
    var m, n := TunnelName(cluster, a), TunnelName(cluster, b);
    TunnelTargetIsInjective(acc.tunnels[m], acc.tunnels[n]);
    if m == n {
      TunnelNameIsInjective(cluster, a, cluster, b);
    }
  }

  /** An ID that was given, and not to a tunnel of any other name that still exists. */
  ghost predicate BelongsTo(acc: Account, id: string, name: string) {
    id in acc.used && forall n :: n in acc.tunnels && acc.tunnels[n] == id ==> n == name
  }

  /** As IDs are not reused, it stays that way, even when the tunnel is deleted. */
  lemma {:induction false} StillBelongs(acc: Account, changes: seq<Change>, id: string, name: string)
    requires BelongsTo(acc, id, name)
    ensures BelongsTo(ChangedBy(acc, changes), id, name)
  {
    if changes != [] { StillBelongs(acc, changes[..|changes| - 1], id, name); }
  }

  /** The pass uses the tunnel its Gateway had at some point of the pass, or the empty ID of a
      tunnel that vanished, or none. */
  ghost predicate UsesOwnTunnel(acc: Account, changes: seq<Change>, cluster: string, step: Step) {
    || step.WithoutTunnel? || step.own == TunnelTarget("")
    || exists p: nat :: p <= |changes| && Holds(ChangedBy(acc, changes[..p]), cluster, step.self, step.own)
  }

  /** A pass gets its target from ensureTunnel, which answers for the Gateway's own tunnel. */
  lemma {:induction false} EnsuredPassUsesOwnTunnel(acc: Account, newID: string, race: seq<Change>, later: seq<Change>, calls: EnsureCalls,
                                 cluster: string, self: GatewayKey, view: View)
    requires WellFormed(acc) && newID != "" && newID !in ChangedBy(acc, race).used
    ensures var r := EnsureOutcome(acc, TunnelName(cluster, self), newID, race, later, calls);
            r.id.Some? ==> UsesOwnTunnel(r.account, [], cluster, Reconcile(self, TunnelTarget(r.id.value), view))
  {
    var name := TunnelName(cluster, self);
    var r := EnsureOutcome(acc, name, newID, race, later, calls);
    EnsuredIsTheTunnel(acc, name, newID, race, later, calls);
    if r.id.Some? && r.id.value != "" {
      var none: seq<Change> := [];
      assert ChangedBy(r.account, none[..0]) == r.account;
      assert Holds(ChangedBy(r.account, none[..0]), cluster, self, TunnelTarget(r.id.value));
    }
  }

  lemma OtherTunnelIsForeign(acc: Account, changes: seq<Change>, cluster: string, step: Step, a: GatewayKey, id: string)
    requires '/' !in cluster && '/' !in a.namespace && '/' !in step.self.namespace && step.self != a
    requires id != "" && BelongsTo(acc, id, TunnelName(cluster, a)) && UsesOwnTunnel(acc, changes, cluster, step)
    ensures Foreign(step, a, TunnelTarget(id))
  {
    TunnelTargetIsInjective("", id);
    if !step.WithoutTunnel? && step.own != TunnelTarget("") {
      var p: nat :| p <= |changes| && Holds(ChangedBy(acc, changes[..p]), cluster, step.self, step.own);
      StillBelongs(acc, changes[..p], id, TunnelName(cluster, a));
      TunnelTargetIsInjective(ChangedBy(acc, changes[..p]).tunnels[TunnelName(cluster, step.self)], id);
      if TunnelName(cluster, step.self) == TunnelName(cluster, a) {
        TunnelNameIsInjective(cluster, step.self, cluster, a);
      }
    }
  }

  /** A run of passes together with its account: during each pass, tunnels come and go. */
  ghost predicate IsAccountRun(accounts: seq<Account>, changes: seq<seq<Change>>, cluster: string, steps: seq<Step>) {
    && |accounts| == |changes| + 1 && |changes| == |steps|
    && forall k :: 0 <= k < |steps| ==>
                     && accounts[k + 1] == ChangedBy(accounts[k], changes[k])
                     && UsesOwnTunnel(accounts[k], changes[k], cluster, steps[k])
                     && '/' !in steps[k].self.namespace
  }

  lemma {:induction false} RunKeepsBelonging(accounts: seq<Account>, changes: seq<seq<Change>>, cluster: string, steps: seq<Step>,
                                             name: string, id: string, i: nat, j: nat)
    requires IsAccountRun(accounts, changes, cluster, steps) && i <= j < |accounts| && BelongsTo(accounts[i], id, name)
    ensures BelongsTo(accounts[j], id, name)
    decreases j
  {
    if i < j {
      RunKeepsBelonging(accounts, changes, cluster, steps, name, id, i, j - 1);
      assert accounts[j] == ChangedBy(accounts[j - 1], changes[j - 1]);
      StillBelongs(accounts[j - 1], changes[j - 1], id, name);
    }
  }

  /** DNS ownership within an account, with nothing assumed of the targets: over any run in which
      Gateways and tunnels come and go, the records of a Gateway that has published its tunnel
      change only by its own passes. */
  lemma TunnelOwnersKeepTheirRecords(accounts: seq<Account>, changes: seq<seq<Change>>, cluster: string,
                                     states: seq<System>, steps: seq<Step>, a: GatewayKey, id: string, i: nat, j: nat)
    requires IsAccountRun(accounts, changes, cluster, steps) && IsRun(states, steps) && i <= j < |states|
    requires '/' !in cluster && '/' !in a.namespace
    requires id != "" && BelongsTo(accounts[i], id, TunnelName(cluster, a)) && Published(states[i], a, TunnelTarget(id))
    requires forall k :: i <= k < j ==> steps[k].self != a
    ensures RecordsOf(states[j], TunnelTarget(id)) == RecordsOf(states[i], TunnelTarget(id))
  {
    forall k | i <= k < j
      ensures Foreign(steps[k], a, TunnelTarget(id))
    {
      RunKeepsBelonging(accounts, changes, cluster, steps, TunnelName(cluster, a), id, i, k);
      OtherTunnelIsForeign(accounts[k], changes[k], cluster, steps[k], a, id);
    }
    OwnershipIsKept(states, steps, a, TunnelTarget(id), i, j);
  }
}
