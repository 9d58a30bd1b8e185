/** Whole runs of the deployment engine, from a fresh installation on: updates always complete, and three runs in which
    a system booted by hand leads to what cannot happen without it. */
module DeploymentRuns {
  import opened BootMenu
  import opened Deployment
  import opened Effects
  import opened Wrappers

  // The state after a deployment was staged, applied, booted and confirmed.
  function Updated(m: Machine, record: Record): Machine {
    m.(pending := None,
       status := Status(Done, Some(record.id)),
       records := m.records[record.id := record],
       good := m.good + {record.id},
       boot := Profiled(m.boot, record.system).(saved := Some(record.system)),
       deployed := Tree(record.config, record.system),
       working := Workspace(Trial(record.id), record.config),
       live := Live(record.system, record.system, m.live.bootId + 1),
       settled := ByConfirmation)
  }

  predicate LogGrew(m: Machine, t: Machine, system: System) {
    forall p :: p in t.log ==> p in m.log || p.booted == m.live.booted || p.booted == system
  }

  // A system passes its checks: while it is tested, and on the first boot of its own.
  predicate Works(e: Engine, m: Machine, system: System) {
    && e.Healthy(m, SystemHealth, system) && e.Healthy(m, DesktopHealth, system)
    && e.healthy(Passed(SystemHealth, system, system, m.live.bootId + 1))
    && e.healthy(Passed(DesktopRequired, system, system, m.live.bootId + 1))
  }

  /** From rest, a deployment that is staged, applied, booted, looked at by the recovery of that boot, and confirmed
      without a disturbance ends up running, selected and deployed, provided that its system works and that its menu still
      lists the one running before. */
  method Update(e: Engine, id: Id, system: System, config: Content, token: nat)
    requires Inv(e.m) && AtRest(e.m) && e.undisturbed && e.edit.None? && Works(e, e.m, system)
    requires id !in e.m.records && !e.Quarantined(system)
    requires e.m.live.running in Profiled(e.m.boot, system).menu
    modifies e
    ensures Inv(e.m) && LogGrew(old(e.m), e.m, system)
    ensures var m := old(e.m);
      var record := Record(id, system, m.live.running, m.working.content, config, m.deployed, token);
      e.m == Updated(m, record).(log := e.m.log, authorized := e.m.authorized)
    ensures e.m.live.running == e.m.live.booted == Selection(e.m.boot) == DefaultTarget(e.m.boot) == system
    ensures AtRest(e.m) && e.m.deployed == Tree(config, system) && e.m.working == Workspace(Trial(id), config)
  {
    ghost var m := e.m;
    ghost var record := Record(id, system, m.live.running, m.working.content, config, m.deployed, token);
    ghost var staged := StageAndApply(e, id, system, config, token);
    BootAndConfirm(e, staged, record);
  }

  method StageAndApply(e: Engine, id: Id, system: System, config: Content, token: nat) returns (ghost staged: Machine)
    requires Inv(e.m) && AtRest(e.m) && e.undisturbed && e.edit.None? && Works(e, e.m, system)
    requires id !in e.m.records && !e.Quarantined(system)
    requires e.m.live.running in Profiled(e.m.boot, system).menu
    modifies e
    ensures Inv(e.m)
    ensures var m := old(e.m);
      var record := Record(id, system, m.live.running, m.working.content, config, m.deployed, token);
      && staged == m.(records := m.records[id := record], status := Status(Ready, Some(id)), authorized := staged.authorized)
      && Inv(staged) && e.m == Applied(staged, record)
  {
    var _ := e.Stage(id, system, config, token);
    staged := e.m;
    var _ := e.Apply(id, token);
  }

  method BootAndConfirm(e: Engine, ghost m: Machine, ghost record: Record)
    requires Inv(e.m) && e.undisturbed && e.m == Applied(m, record) && m.boot.oneshot.None?
    requires record.id !in m.good && Works(e, m, record.system)
    modifies e
    ensures Inv(e.m) && LogGrew(m, e.m, record.system)
    ensures e.m == Updated(m, record).(log := e.m.log, records := m.records,
                                       status := Status(Done, m.status.transaction))
  {
    BootAndRecover(e, m, record);
    var _ := e.Confirm();
  }

  // The armed candidate boots, and the recovery of that boot leaves it waiting for the user.
  method BootAndRecover(e: Engine, ghost m: Machine, ghost record: Record)
    requires Inv(e.m) && e.undisturbed && e.m == Applied(m, record)
    requires record.id !in m.good && Works(e, m, record.system)
    modifies e
    ensures Inv(e.m) && LogGrew(m, e.m, record.system)
    ensures e.m == old(e.m).(boot := old(e.m).boot.(oneshot := None), log := e.m.log,
                             live := Live(record.system, record.system, m.live.bootId + 1),
                             status := Status(AwaitingLogin, m.status.transaction))
  {
    e.Reboot(None);
    assert e.m.live == Live(record.system, record.system, m.live.bootId + 1);
    var _ := e.Recover();
  }

  /** A system that was rolled back is refused until its retry is authorized, for that one staging. */
  method RejectedStaysOut(e: Engine, id: Id, later: Id, config: Content, token: nat) returns (first: Reply, second: Reply)
    requires Inv(e.m) && AtRest(e.m) && e.undisturbed && later !in e.m.records
    requires id in e.m.records && id !in e.m.storage.retired && id !in e.m.authorized
    requires e.Healthy(e.m, SystemHealth, e.m.records[id].previous)
    modifies e
    ensures Inv(e.m) && first.Failed? && second.Ok?
    ensures old(e.m).records.Keys + {later} == e.m.records.Keys && id !in e.m.authorized
  {
    RollBackRetained(e, id);
    first := StageRejected(e, id, later, config, token);
    second := StageAuthorized(e, id, later, config, token);
  }

  method RollBackRetained(e: Engine, id: Id)
    requires Inv(e.m) && AtRest(e.m) && e.undisturbed && id in e.m.records && id !in e.m.storage.retired
    requires e.Healthy(e.m, SystemHealth, e.m.records[id].previous)
    modifies e
    ensures Inv(e.m) && AtRest(e.m) && id in e.m.failed
    ensures e.m.records == old(e.m).records && e.m.authorized == old(e.m).authorized
  {
    var _ := e.RollBack(Some(id));
    GoalIs(old(e.m), e.m, old(e.m).records[id], false);
  }

  method StageRejected(e: Engine, id: Id, later: Id, config: Content, token: nat) returns (r: Reply)
    requires Inv(e.m) && AtRest(e.m) && e.undisturbed && later !in e.m.records
    requires id in e.m.records && id in e.m.failed && id !in e.m.authorized
    modifies e
    ensures Inv(e.m) && r.Failed? && e.m == old(e.m).(status := e.m.status)
  {
    assert id in e.m.failed - e.m.authorized;
    r := e.Stage(later, e.m.records[id].system, config, token);
  }

  method StageAuthorized(e: Engine, id: Id, later: Id, config: Content, token: nat) returns (r: Reply)
    requires Inv(e.m) && AtRest(e.m) && e.undisturbed && later !in e.m.records
    requires id in e.m.records && id in e.m.failed
    modifies e
    ensures Inv(e.m) && r.Ok? && e.m.records.Keys == old(e.m).records.Keys + {later} && id !in e.m.authorized
  {
    var _ := e.AuthorizeRetry(id);
    r := e.Stage(later, e.m.records[id].system, config, token);
  }

  // ---------------------------------------------------------------------------------------------------------------
  // Runs from a fresh installation
  // ---------------------------------------------------------------------------------------------------------------

  const FRESH: Machine :=
    Machine(None, Status(Idle, None), map[], {}, {}, {}, Boot(Some(1), None, {1}, 1, [1]), Tree(0, 1),
            Workspace(Installed, 0), Live(1, 1, 0), 1, Storage(None, {}), {}, false, ByInstallation)

  // Deployment k replaced system k by system k + 1, up to the n-th one.
  ghost predicate UpdatedTo(m: Machine, n: nat) {
    && AtRest(m) && !m.status.state.Unfinished() && m.failed == m.storage.retired == {} && m.installed == 1 && !m.strayed
    && m.records.Keys == m.good && (forall id: nat :: id in m.good <==> 1 <= id <= n)
    && (forall id :: id in m.records ==>
          m.records[id].system == id + 1 && m.records[id].previous == id && Coherent(m.records[id]))
    && |m.boot.generations| == n + 1 && (forall i :: 0 <= i <= n ==> m.boot.generations[i] == i + 1)
    && Selection(m.boot) == m.live.running == m.live.booted == m.deployed.builds == n + 1
    && (forall p :: p in m.log ==> p.booted <= n + 1)
  }

  // Every system works, and nobody edits in the middle of an application.
  ghost predicate AllPass(e: Engine) {
    e.edit.None? && forall check :: e.healthy(check)
  }

  method UpdatedEngine(loader: Loader, n: nat) returns (e: Engine)
    ensures fresh(e) && e.undisturbed && AllPass(e) && Inv(e.m) && UpdatedTo(e.m, n)
  {
    assert Initial(FRESH);
    InitialIsSafe(FRESH);
    e := new Engine(loader, true, check => true, None, FRESH);
    for i := 0 to n
      invariant fresh(e) && e.undisturbed && AllPass(e) && Inv(e.m) && UpdatedTo(e.m, i)
    {
      UpdateNext(e, i);
    }
  }

  method UpdateNext(e: Engine, n: nat)
    requires Inv(e.m) && e.undisturbed && AllPass(e) && UpdatedTo(e.m, n)
    modifies e
    ensures Inv(e.m) && UpdatedTo(e.m, n + 1)
  {
    NextHasRoom(e.m, n);
    Update(e, n + 1, n + 2, n, 0);
    var m := old(e.m);
    NextIsUpdatedTo(m, e.m, n, Record(n + 1, n + 2, m.live.running, m.working.content, n, m.deployed, 0));
  }

  lemma NextIsUpdatedTo(m: Machine, t: Machine, n: nat, record: Record)
    requires UpdatedTo(m, n) && LogGrew(m, t, n + 2)
    requires t == Updated(m, record).(log := t.log, authorized := t.authorized)
    requires record.id == n + 1 && record.system == n + 2 && record.previous == n + 1 && Coherent(record)
    ensures UpdatedTo(t, n + 1)
  {
    assert t.boot.generations == m.boot.generations + [n + 2];
  }

  lemma NextHasRoom(m: Machine, n: nat)
    requires Inv(m) && UpdatedTo(m, n)
    ensures m.live.running in Profiled(m.boot, n + 2).menu
  {
    AtRestHasRoom(m, Record(n + 1, n + 2, n + 1, 0, 0, m.deployed, 0));
  }

  /** Boot the older generation by hand, stage a deployment there, and roll that back. The default is then the older
      generation, but the newer configuration is deployed. */
  method HandBootMisleadsRollBack(loader: Loader) returns (before: Machine, after: Machine)
    ensures Inv(before) && AtRest(before) && AllCoherent(before) && before.deployed.builds == Selection(before.boot) == 2
    ensures Inv(after) && AtRest(after) && Selection(after.boot) == 1 && after.deployed.builds == 2
  {
    var e := UpdatedEngine(loader, 1);
    before := e.m;
    NewestAreLast(e.m.boot.generations, MENU_LIMIT, 1);
    assert e.m.boot.generations[0] == 1;
    e.Reboot(Some(1));
    var _ := e.Stage(2, 3, 5, 0);
    var _ := e.RollBack(Some(2));
    after := e.m;
  }

  /** Seven updates later, boot the previous generation by hand and clean up. Every record is coherent, but the cleanup
      selected the older generation by default while the newer configuration is deployed. */
  method HandBootMisleadsCleanUp(loader: Loader) returns (before: Machine, after: Machine)
    ensures Inv(before) && AtRest(before) && AllCoherent(before) && before.deployed.builds == Selection(before.boot) == 8
    ensures Inv(after) && AtRest(after) && AllCoherent(after)
    ensures Selection(after.boot) == DefaultTarget(after.boot) == 7 && after.deployed.builds == 8
  {
    var e := UpdatedEngine(loader, 7);
    before := e.m;
    NewestAreLast(e.m.boot.generations, MENU_LIMIT, 7);
    assert e.m.boot.generations[6] == 7;
    e.Reboot(Some(7));
    CleanUpOldest(e);
    after := e.m;
  }

  // The two oldest of seven deployments are retired; the running one and the five newest are kept.
  method CleanUpOldest(e: Engine)
    requires Inv(e.m) && e.undisturbed && AllPass(e) && AtRest(e.m) && !e.m.status.state.Unfinished()
    requires e.m.live.running == e.m.live.booted == 7 && Last(e.m.boot) == 8 && e.m.failed == e.m.storage.retired == {}
    requires e.m.records.Keys == e.m.good && (forall id: nat :: id in e.m.good <==> 1 <= id <= 7)
    requires forall id :: id in e.m.records ==> e.m.records[id].system == id + 1 && e.m.records[id].previous == id
    modifies e
    ensures Inv(e.m) && AtRest(e.m) && e.m.records == old(e.m).records && e.m.deployed == old(e.m).deployed
    ensures Selection(e.m.boot) == DefaultTarget(e.m.boot) == 7
  {
    OldOnesFit(e.m);
    CleanUpHere(e, {1, 2}, {1, 2});
  }

  method CleanUpHere(e: Engine, candidates: set<Id>, dropped: set<System>)
    requires Inv(e.m) && e.undisturbed && AllPass(e) && e.MayCleanUp(candidates, dropped)
    requires candidates != {} && Last(e.m.boot) !in dropped
    modifies e
    ensures Inv(e.m) && AtRest(e.m) && e.m.records == old(e.m).records && e.m.deployed == old(e.m).deployed
    ensures Selection(e.m.boot) == DefaultTarget(e.m.boot) == old(e.m).live.running
  {
    ghost var journaled := e.Journaled(candidates, dropped);
    var _ := e.CleanUp(candidates, dropped);
    assert Durable(e.m).records == Durable(Swept(journaled)).records;
    assert Durable(e.m).deployed == Durable(Swept(journaled)).deployed;
  }

  lemma OldOnesFit(m: Machine)
    requires m.failed == m.storage.retired == {} && m.live.running == 7
    requires m.records.Keys == m.good && (forall id: nat :: id in m.good <==> 1 <= id <= 7)
    requires forall id :: id in m.records ==> m.records[id].system == id + 1 && m.records[id].previous == id
    ensures PlanFits(m, {1, 2}, {1, 2})
  {
    assert 6 in m.good && m.records[6].system == 7;
    assert Refers(m.records[1], 1) && Refers(m.records[2], 2);
  }

  /** Nine updates later, boot the oldest generation by hand, and stage and apply an eleventh system there, up to its
      menu. The old generation is pinned, but no longer listed: a power loss boots the unconfirmed candidate. */
  method CrowdedMenuBootsCandidate(loader: Loader) returns (before: Machine, after: Machine)
    ensures Inv(before) && AtRest(before) && before.live.running == before.live.booted == 1
    ensures Inv(after) && after.pending.Some? && after.boot.saved == Some(1)
    ensures after.live.running == after.live.booted == 11 && !Vouched(after, 11)
  {
    var e := UpdatedEngine(loader, 9);
    NewestAreLast(e.m.boot.generations, MENU_LIMIT, 1);
    assert e.m.boot.generations[0] == 1;
    e.Reboot(Some(1));
    before := e.m;
    StageAndBegin(e, 10, 11);
    NewestAreLast(e.m.boot.generations, MENU_LIMIT, 1);
    e.Reboot(None);
    after := e.m;
  }

  method StageAndBegin(e: Engine, id: Id, system: System)
    requires Inv(e.m) && e.undisturbed && AllPass(e) && AtRest(e.m) && id !in e.m.records && e.m.failed == {}
    modifies e
    ensures Inv(e.m) && e.m.installed == old(e.m).installed
    ensures var m := old(e.m);
      var record := Record(id, system, m.live.running, m.working.content, m.working.content, m.deployed, 0);
      && e.m.pending == Some(ActivationPending(record, m.live.bootId)) && e.m.records == m.records[id := record]
      && e.m.boot == Profiled(m.boot, system).(oneshot := None, saved := Some(m.live.running))
      && forall p :: p in e.m.log ==> p in m.log || p.booted == m.live.booted
  {
    var _ := e.Stage(id, system, e.m.working.content, 0);
    ApplyUpToMenu(e, id);
  }

  // The first steps of an application.
  method ApplyUpToMenu(e: Engine, id: Id)
    requires Inv(e.m) && e.undisturbed && AllPass(e) && AtRest(e.m) && id in e.m.records && e.Applicable(id, e.m.records[id].token)
    requires e.m.live.running in e.m.boot.menu
    modifies e
    ensures Inv(e.m)
    ensures var m, record := old(e.m), old(e.m).records[id];
      && e.m.pending == Some(ActivationPending(record, m.live.bootId))
      && e.m.boot == Profiled(m.boot, record.system).(oneshot := None, saved := Some(record.previous))
      && e.m.records == m.records && e.m.installed == m.installed
      && e.m.log == Applied(m, record).log
  {
    var record := e.m.records[id];
    var _ := e.Effect(e.m.(pending := Some(ActivationPending(record, e.m.live.bootId))));
    var _ := e.SetStatus(Activating, Some(id));
    var _ := e.TestCandidate(record);
    var _ := e.Profile(record.system);
  }
}
