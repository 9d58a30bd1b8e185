/** The staged deployment protocol: apply, trial boot, confirmation, restoration, recovery and the boot selection of
    storage cleanup, over durable state.

    Every command, file replacement and link change is one effect, except that the boot selection of systemd-boot takes
    two. An effect can fail, or the machine can lose power, before or after it happened. `Engine.Run` proves that the
    invariant holds between any two effects of every run; the invariant says which systems the boot loader may start by
    default. Repeated and interrupted recoveries are shown to meet in one final state.
 */
module Deployment {
  import opened BootMenu
  import opened Effects
  import opened Wrappers

  type Id = nat
  type System = nat
  type Content = nat

  datatype Loader = Grub | SystemdBoot

  // A retained configuration tree, and the system it builds.
  datatype Tree = Tree(content: Content, builds: System)

  // The personal configuration: which tree is selected, and its current, possibly edited, content.
  datatype Owner = Installed | Trial(id: Id) | Rollback(id: Id)
  datatype Workspace = Workspace(owner: Owner, content: Content)

  // A staged deployment. `fallback` is the configuration that was deployed when it was staged.
  datatype Record = Record(id: Id, system: System, previous: System, baseline: Content, config: Content, fallback: Tree,
                           token: nat)

  // The deployment was staged while the system of the deployed configuration was running.
  predicate Coherent(r: Record) {
    r.previous == r.fallback.builds
  }

  // The pending record. An activation and a trial remember the boot they were written in; a recovery remembers
  // whether the personal selection is preserved.
  datatype Pending =
    | ActivationPending(record: Record, bootId: nat)
    | TrialPending(record: Record, bootId: nat)
    | RecoveryPending(record: Record, preserve: bool)

  datatype State =
    | Idle | Discovering | Ready | Stale | StagingFailed | Activating | AwaitingBoot | AwaitingLogin
    | Recovering | RecoveryFailed | RolledBack | Done | Interrupted
  {
    predicate Busy() {
      Discovering? || Activating? || Recovering?
    }

    predicate Unfinished() {
      Busy() || Ready? || AwaitingBoot? || AwaitingLogin? || RecoveryFailed?
    }
  }

  datatype Status = Status(state: State, transaction: Option<Id>)

  datatype Check = SystemHealth | DesktopHealth | DesktopRequired

  // A health check that passed, with what was running and which boot it was.
  datatype Passed = Passed(check: Check, running: System, booted: System, bootId: nat)

  // The boot loader's selections, its menu and the system profile.
  datatype Boot = Boot(saved: Option<System>, oneshot: Option<System>, menu: set<System>, top: System,
                       generations: seq<System>)

  // What is running, what was booted, and which boot it is.
  datatype Live = Live(running: System, booted: System, bootId: nat)

  // A journaled storage cleanup: the system that started it, the systems whose generations it drops and the deployments
  // it retires. It drops generations, and selects the system again, before it retires anything.
  datatype Sweep = Sweep(current: System, dropped: set<System>, candidates: set<Id>, dropping: bool)
  datatype Storage = Storage(cleanup: Option<Sweep>, retired: set<Id>)

  // What last decided the default and the deployed configuration.
  datatype Settlement =
    | ByInstallation
    | ByConfirmation
    | ByRestoration(record: Record)
    | ByCleanup(running: System, deployed: System)
  {
    // Whether that left the two on one generation.
    predicate Agrees() {
      match this
      case ByInstallation => true
      case ByConfirmation => true
      case ByRestoration(record) => Coherent(record)
      case ByCleanup(running, deployed) => running == deployed
    }
  }

  /** Everything an interruption leaves behind, and the running system.

      `log`, `strayed` and `settled` are history: the health checks that ever passed, whether a system other than the
      selected one was ever booted while nothing was pending, and what last decided the default and the deployed
      configuration. */
  datatype Machine = Machine(
    pending: Option<Pending>,
    status: Status,
    records: map<Id, Record>,
    good: set<Id>,
    failed: set<Id>,
    authorized: set<Id>,
    boot: Boot,
    deployed: Tree,
    working: Workspace,
    live: Live,
    installed: System,
    storage: Storage,
    log: set<Passed>,
    strayed: bool,
    settled: Settlement)

  // ---------------------------------------------------------------------------------------------------------------
  // The boot loader
  // ---------------------------------------------------------------------------------------------------------------

  function Newest(generations: seq<System>, n: nat): set<System>
    decreases |generations|
  {
    if n == 0 || generations == [] then {}
    else Newest(generations[..|generations| - 1], n - 1) + {generations[|generations| - 1]}
  }

  // Setting the profile to its newest system adds no generation.
  function WithGeneration(generations: seq<System>, s: System): seq<System> {
    if generations != [] && generations[|generations| - 1] == s then generations else generations + [s]
  }

  function WithMenu(b: Boot, s: System): Boot {
    b.(menu := Newest(b.generations, MENU_LIMIT), top := s)
  }

  function Profiled(b: Boot, s: System): Boot {
    WithMenu(b.(generations := WithGeneration(b.generations, s)), s)
  }

  // The system the persistent selection names; without one it is the top entry's.
  function Selection(b: Boot): System {
    if b.saved.Some? then b.saved.value else b.top
  }

  // What boots without a one-shot entry: an unknown selection falls back to the top entry.
  function DefaultTarget(b: Boot): System {
    if b.saved.Some? && b.saved.value in b.menu then b.saved.value else b.top
  }

  function BootTarget(b: Boot, choice: Option<System>): System {
    if choice.Some? && (choice.value in b.menu || choice.value == b.top) then choice.value
    else if b.oneshot.Some? then (if b.oneshot.value in b.menu then b.oneshot.value else b.top)
    else DefaultTarget(b)
  }

  // A boot consumes the one-shot entry, whichever entry is started.
  function Rebooted(m: Machine, choice: Option<System>): Machine {
    var target := BootTarget(m.boot, choice);
    m.(live := Live(target, target, m.live.bootId + 1),
       boot := m.boot.(oneshot := None),
       strayed := m.strayed || (m.pending.None? && target != Selection(m.boot)))
  }

  /** A boot starts the entry chosen by hand, if it is there, then the one-shot entry and then the persistent one; whatever
      is not in the menu is replaced by its top entry. The one-shot entry is consumed. */
  lemma BootIs(m: Machine, choice: Option<System>)
    ensures var t, b := Rebooted(m, choice), m.boot;
      && t == m.(live := t.live, boot := b.(oneshot := None), strayed := t.strayed)
      && t.live.booted == t.live.running && t.live.bootId == m.live.bootId + 1
      && (choice.Some? && (choice.value in b.menu || choice.value == b.top) ==> t.live.running == choice.value)
      && (choice.None? || (choice.value !in b.menu && choice.value != b.top) ==>
            var wanted := if b.oneshot.Some? then b.oneshot else b.saved;
            t.live.running == if wanted.Some? && wanted.value in b.menu then wanted.value else b.top)
      && (t.strayed <==> m.strayed || (m.pending.None? && b.saved.Some? && t.live.running != b.saved.value)
                                   || (m.pending.None? && b.saved.None? && t.live.running != b.top))
  {
  }

  // ---------------------------------------------------------------------------------------------------------------
  // The invariant
  // ---------------------------------------------------------------------------------------------------------------

  predicate ConfirmedOn(log: set<Passed>, s: System, bootId: nat) {
    Passed(SystemHealth, s, s, bootId) in log && Passed(DesktopRequired, s, s, bootId) in log
  }

  // Both confirmation checks passed on one boot of the system: it was booted, not merely switched to.
  ghost predicate Confirmed(log: set<Passed>, s: System) {
    exists b: nat :: ConfirmedOn(log, s, b)
  }

  // A system the machine was running when it staged a deployment, or that was confirmed, or installed first.
  ghost predicate Vouched(m: Machine, s: System) {
    || s == m.installed
    || (exists id :: id in m.records && m.records[id].previous == s)
    || Confirmed(m.log, s)
  }

  // The menu has an entry for the persistent default.
  predicate Listed(b: Boot) {
    b.saved.Some? ==> b.saved.value in b.menu
  }

  // The menu is the one of the newest generations.
  predicate MenuInstalled(b: Boot) {
    b.menu == Newest(b.generations, MENU_LIMIT) && b.top in b.menu
  }

  // The profile's own generation.
  function Last(b: Boot): System
    requires b.generations != []
  {
    b.generations[|b.generations| - 1]
  }

  predicate SelectsLast(b: Boot) {
    b.generations != [] && Last(b) == Selection(b)
  }

  // A cleanup is dropping generations.
  predicate Dropping(m: Machine) {
    m.storage.cleanup.Some? && m.storage.cleanup.value.dropping
  }

  predicate AtRest(m: Machine) {
    m.pending.None? && m.storage.cleanup.None?
  }

  ghost predicate DefaultIsSafe(m: Machine) {
    && (m.boot.saved.Some? ==> Vouched(m, m.boot.saved.value))
    && (m.boot.saved.None? ==> Vouched(m, m.boot.top))
    && (m.pending.None? && !Dropping(m) ==> Listed(m.boot))
  }

  ghost predicate MenuIsSafe(m: Machine) {
    && m.boot.generations != []
    && (m.pending.None? && !Dropping(m) ==> MenuInstalled(m.boot) && m.live.running in m.boot.menu)
    && (m.pending.Some? && m.pending.value.TrialPending? ==>
          && MenuInstalled(m.boot)
          && Last(m.boot) == m.boot.top == m.pending.value.record.system)
  }

  // The generation that a cleanup selects is vouched for, kept and one of the newest. It leads any menu that lost the
  // default.
  ghost predicate CleanupIsSafe(m: Machine) {
    && (m.storage.cleanup.Some? ==> m.pending.None? && !m.status.state.Ready? && !m.status.state.Busy())
    && (Dropping(m) ==>
          var sweep := m.storage.cleanup.value;
          && m.boot.saved.Some? && Vouched(m, sweep.current) && sweep.current !in sweep.dropped
          && sweep.current in Newest(m.boot.generations, MENU_LIMIT)
          && (Listed(m.boot) || m.boot.top == sweep.current))
  }

  ghost predicate RecordsAreFiled(m: Machine) {
    && (forall id :: id in m.records ==> m.records[id].id == id)
    && (m.pending.Some? ==>
          m.pending.value.record.id in m.records && m.records[m.pending.value.record.id] == m.pending.value.record)
    && (m.status.state.Ready? ==>
          && m.status.transaction.Some? && m.status.transaction.value in m.records
          && m.status.transaction.value !in m.good
          && m.boot.oneshot.None? && !(m.pending.Some? && m.pending.value.TrialPending?))
    && (forall id :: id in m.good ==> id in m.records && Confirmed(m.log, m.records[id].system))
    && (m.good != {} ==> m.boot.saved.Some?) && m.failed <= m.records.Keys
  }

  // An armed one-shot entry is bootable, and so is the vouched default it falls back to.
  ghost predicate OneShotFallsBack(m: Machine) {
    m.boot.oneshot.Some? ==>
      && m.pending.Some?
      && m.boot.oneshot.value in m.boot.menu && m.boot.saved.Some? && m.boot.saved.value in m.boot.menu
      && (!m.pending.value.RecoveryPending? ==>
            && m.boot.oneshot.value == m.pending.value.record.system
            && m.boot.saved.value == m.pending.value.record.previous
            && m.pending.value.bootId == m.live.bootId)
  }

  ghost predicate PendingIsSafe(m: Machine) {
    m.pending.Some? ==>
      var r := m.pending.value.record;
      && (m.pending.value.ActivationPending? ==> r.id !in m.good)
      && (m.pending.value.TrialPending? ==>
            && m.boot.saved.Some? && m.boot.saved.value in m.boot.menu
            && (m.boot.saved.value == r.previous || (m.boot.saved.value == r.system && Confirmed(m.log, r.system)))
            && (r.id in m.good ==> m.boot.saved.value == r.system))
      && (m.pending.value.RecoveryPending? && m.pending.value.preserve ==> m.working.owner != Trial(r.id))
  }

  ghost predicate AllCoherent(m: Machine) {
    forall id :: id in m.records ==> Coherent(m.records[id])
  }

  // With nothing pending, the selected and the deployed system agree exactly if what last decided them left them so. The
  // profile's own generation is the selected one unless a cleanup selected another. While nobody booted another system
  // than the selected one by hand, that one is also running.
  ghost predicate AgreesAtRest(m: Machine) {
    && (m.settled.ByRestoration? ==>
          m.settled.record.id in m.records && m.records[m.settled.record.id] == m.settled.record)
    && (m.pending.None? ==> (m.deployed.builds == Selection(m.boot) <==> m.settled.Agrees()))
    && (m.pending.None? && !m.settled.ByCleanup? ==> SelectsLast(m.boot))
    && (!m.strayed ==>
          && AllCoherent(m) && m.settled.Agrees()
          && (m.pending.None? ==> m.live.running == Selection(m.boot) && SelectsLast(m.boot) && Listed(m.boot)))
  }

  ghost predicate Inv(m: Machine) {
    && DefaultIsSafe(m) && MenuIsSafe(m) && CleanupIsSafe(m)
    && RecordsAreFiled(m) && OneShotFallsBack(m) && PendingIsSafe(m) && AgreesAtRest(m)
  }

  // A fresh installation: nothing staged, the installed system running, selected or at least the only entry.
  ghost predicate Initial(m: Machine) {
    && m.pending == None && m.status == Status(Idle, None)
    && m.records == map[] && m.good == m.failed == m.authorized == {}
    && m.boot.saved in {None, Some(m.installed)} && m.boot.oneshot == None
    && m.boot.menu == {m.installed} && m.boot.top == m.installed && m.boot.generations == [m.installed]
    && m.deployed.builds == m.installed && m.working.owner == Installed
    && m.live.running == m.live.booted == m.installed
    && m.storage == Storage(None, {}) && m.log == {} && !m.strayed && m.settled == ByInstallation
  }

  lemma InitialIsSafe(m: Machine)
    requires Initial(m)
    ensures Inv(m)
  {
  }

  // ---------------------------------------------------------------------------------------------------------------
  // Boots
  // ---------------------------------------------------------------------------------------------------------------

  lemma RebootKeepsInv(m: Machine, choice: Option<System>)
    requires Inv(m)
    ensures Inv(Rebooted(m, choice))
  {
    var t := Rebooted(m, choice);
    assert forall s :: Vouched(m, s) ==> Vouched(t, s);
  }

  /** An unconfirmed trial boots once: the armed candidate starts on the next boot, and the boot after it returns to
      the previous system. */
  lemma TrialFallsBack(m: Machine)
    requires Inv(m) && m.pending.Some? && m.pending.value.TrialPending? && m.boot.oneshot.Some?
    ensures var once := Rebooted(m, None);
      && once.live.running == once.live.booted == m.pending.value.record.system
      && once.live.bootId != m.pending.value.bootId
      && Rebooted(once, None).live.running == m.pending.value.record.previous
  {
  }

  /** An unconfirmed trial never moves the default away from the previous system, whatever is booted. */
  lemma {:induction false} UnconfirmedTrialFallsBack(m: Machine, choices: seq<Option<System>>)
    requires Inv(m) && m.pending.Some? && m.pending.value.TrialPending?
    requires !Confirmed(m.log, m.pending.value.record.system)
    ensures var t := RebootedAll(m, choices);
      && Inv(t) && t.pending == m.pending
      && DefaultTarget(t.boot) == m.pending.value.record.previous
      && (choices != [] || m.boot.oneshot.None? ==> Rebooted(t, None).live.running == m.pending.value.record.previous)
    decreases |choices|
  {
    if choices != [] {
      RebootKeepsInv(m, choices[0]);
      UnconfirmedTrialFallsBack(Rebooted(m, choices[0]), choices[1..]);
    }
  }

  function RebootedAll(m: Machine, choices: seq<Option<System>>): Machine
    decreases |choices|
  {
    if choices == [] then m else RebootedAll(Rebooted(m, choices[0]), choices[1..])
  }

  /** The boot loader starts a vouched system by default whenever nothing is pending or the menu lists the selected one,
      as it does at rest and during a trial. Only an activation, a restoration or a cleanup in progress can have lost
      the entry. */
  lemma DefaultBootIsVouched(m: Machine)
    requires Inv(m)
    ensures m.pending.None? || Listed(m.boot) ==> Vouched(m, DefaultTarget(m.boot))
    ensures !Listed(m.boot) ==>
      DefaultTarget(m.boot) == m.boot.top && (Dropping(m) || (m.pending.Some? && !m.pending.value.TrialPending?))
  {
  }

  // A system is one of the last n generations.
  predicate AmongLast(generations: seq<System>, n: nat, s: System) {
    exists i :: 0 <= i < |generations| && |generations| - n <= i && generations[i] == s
  }

  lemma {:induction false} NewestAreLast(generations: seq<System>, n: nat, s: System)
    ensures s in Newest(generations, n) <==> AmongLast(generations, n, s)
    decreases |generations|
  {
    if n > 0 && generations != [] {
      var front, last := generations[..|generations| - 1], |generations| - 1;
      NewestAreLast(front, n - 1, s);
      if AmongLast(front, n - 1, s) {
        var i :| 0 <= i < |front| && |front| - (n - 1) <= i && front[i] == s;
        assert generations[i] == s;
      }
      if AmongLast(generations, n, s) {
        var i :| 0 <= i < |generations| && |generations| - n <= i && generations[i] == s;
        assert i < last ==> front[i] == s;
      }
      assert generations[last] == s ==> AmongLast(generations, n, s);
    }
  }

  /** Installing a menu keeps the default listed exactly when its system is one of the ten newest generations. Otherwise
      the system that installed the menu boots instead. */
  lemma MenuKeepsDefaultIff(b: Boot, s: System)
    requires b.saved.Some?
    ensures Listed(Profiled(b, s)) <==> AmongLast(WithGeneration(b.generations, s), MENU_LIMIT, b.saved.value)
    ensures AmongLast(b.generations, MENU_LIMIT - 1, b.saved.value) ==> Listed(Profiled(b, s))
    ensures !Listed(Profiled(b, s)) ==> DefaultTarget(Profiled(b, s)) == s
  {
    NewestAreLast(WithGeneration(b.generations, s), MENU_LIMIT, b.saved.value);
    if AmongLast(b.generations, MENU_LIMIT - 1, b.saved.value) {
      NineLeaveRoom(b.generations, s, b.saved.value);
    }
  }

  lemma NineLeaveRoom(generations: seq<System>, added: System, s: System)
    requires AmongLast(generations, MENU_LIMIT - 1, s)
    ensures s in Newest(WithGeneration(generations, added), MENU_LIMIT)
  {
    var i :| 0 <= i < |generations| && |generations| - (MENU_LIMIT - 1) <= i && generations[i] == s;
    assert WithGeneration(generations, added)[i] == s;
    NewestAreLast(WithGeneration(generations, added), MENU_LIMIT, s);
  }

  // A restoration of `previous` keeps the default listed wherever it is cut short.
  predicate StaysListed(b: Boot, previous: System) {
    Listed(b) && (b.saved.Some? ==> b.saved.value in Newest(WithGeneration(b.generations, previous), MENU_LIMIT))
  }

  // So does an application of a candidate beside it.
  predicate HasRoom(b: Boot, record: Record) {
    StaysListed(b, record.previous)
    && record.previous in Newest(WithGeneration(b.generations, record.system), MENU_LIMIT)
  }

  // The menus before and after the candidate joins the generations have an entry for the previous system.
  predicate InBothMenus(b: Boot, record: Record) {
    record.previous in b.menu && record.previous in Profiled(b, record.system).menu
  }

  /** It is enough that the selected and the previous system are among the nine newest generations. */
  lemma NineNewestHaveRoom(b: Boot, record: Record)
    requires Listed(b) && (b.saved.Some? ==> AmongLast(b.generations, MENU_LIMIT - 1, b.saved.value))
    requires AmongLast(b.generations, MENU_LIMIT - 1, record.previous)
    ensures HasRoom(b, record)
  {
    NineLeaveRoom(b.generations, record.system, record.previous);
    if b.saved.Some? {
      NineLeaveRoom(b.generations, record.previous, b.saved.value);
    }
  }

  /** At rest, a deployment staged on the selected system always has room, unless a cleanup selected a system that was
      booted by hand: its application keeps the default listed at every interruption. */
  lemma AtRestHasRoom(m: Machine, record: Record)
    requires Inv(m) && AtRest(m) && (!m.strayed || !m.settled.ByCleanup?)
    requires record.previous == Selection(m.boot)
    ensures HasRoom(m.boot, record)
  {
    SelectedLastHasRoom(m.boot, record);
  }

  lemma SelectedLastHasRoom(b: Boot, record: Record)
    requires Listed(b) && SelectsLast(b) && record.previous == Selection(b)
    ensures HasRoom(b, record)
  {
    assert AmongLast(b.generations, MENU_LIMIT - 1, Last(b));
    NineNewestHaveRoom(b, record);
  }

  lemma {:induction false} NewestGrows(generations: seq<System>, n: nat)
    ensures Newest(generations, n) <= Newest(generations, n + 1)
  {
    if n > 0 && generations != [] {
      NewestGrows(generations[..|generations| - 1], n - 1);
    }
  }

  /** While a deployment is pending, its candidate is the persistent default only if it passed both confirmation checks
      on a boot of its own, unless the machine had run that system before. */
  lemma CandidateDefaultIsConfirmed(m: Machine)
    requires Inv(m) && m.pending.Some? && m.boot.saved == Some(m.pending.value.record.system)
    requires m.pending.value.record.system != m.installed
    requires forall id :: id in m.records ==> m.records[id].previous != m.pending.value.record.system
    ensures Confirmed(m.log, m.pending.value.record.system)
  {
  }

  /** With nothing pending, the boot default and the deployed configuration name the same generation exactly if what last
      decided them left them so: a coherent restoration, or a cleanup on the system of the deployed configuration. They
      do while every filed record is coherent and no cleanup selected another system that was booted by hand; and that
      generation is running while no other was. */
  lemma AtRestAllAgree(m: Machine)
    requires Inv(m) && m.pending.None?
    ensures m.deployed.builds == Selection(m.boot) <==> m.settled.Agrees()
    ensures AllCoherent(m) && !(m.settled.ByCleanup? && m.settled.running != m.settled.deployed) ==>
      m.deployed.builds == Selection(m.boot)
    ensures AtRest(m) ==> Selection(m.boot) == DefaultTarget(m.boot)
    ensures !m.strayed ==> AllCoherent(m) && m.deployed.builds == m.live.running == DefaultTarget(m.boot)
  {
  }

  /** At rest, and while nobody redirected a boot also during a cleanup, a boot that nobody directs to another entry
      starts the selected system. */
  lemma UndirectedBootDoesNotStray(m: Machine)
    requires Inv(m) && m.pending.None? && (!Dropping(m) || !m.strayed)
    ensures Rebooted(m, None).strayed == m.strayed && Rebooted(m, None).live.running == Selection(m.boot)
  {
  }

  // ---------------------------------------------------------------------------------------------------------------
  // Where a restoration leads
  // ---------------------------------------------------------------------------------------------------------------

  function RestoredBoot(b: Boot, previous: System): Boot {
    Profiled(b, previous).(oneshot := None, saved := Some(previous))
  }

  // The state after an uninterrupted restoration.
  function Restored(m: Machine, r: Record, preserve: bool): Machine {
    m.(pending := None,
       status := Status(RolledBack, m.status.transaction),
       boot := RestoredBoot(m.boot, r.previous),
       live := m.live.(running := r.previous),
       working := if preserve then m.working else Workspace(Rollback(r.id), r.fallback.content),
       failed := m.failed + {r.id},
       deployed := r.fallback,
       settled := ByRestoration(r))
  }

  // What does not depend on the boot in which it was reached.
  function Durable(m: Machine): Machine {
    m.(log := {}, live := m.live.(booted := 0, bootId := 0))
  }

  function Goal(m: Machine, r: Record, preserve: bool): Machine {
    Durable(Restored(m, r, preserve))
  }

  /** At its goal a restoration has reinstalled the menu of the ten newest generations, with the previous system as the
      last of them, on top, selected and running. The configuration deployed at staging is deployed again, and selected
      unless the personal selection is preserved. */
  lemma GoalIs(m: Machine, t: Machine, r: Record, preserve: bool)
    requires Durable(t) == Goal(m, r, preserve)
    ensures t.pending == None && t.status == Status(RolledBack, m.status.transaction) && t.settled == ByRestoration(r)
    ensures t.boot.saved == Some(r.previous) && t.boot.oneshot == None && t.boot.top == r.previous
    ensures t.boot.generations ==
      if m.boot.generations != [] && m.boot.generations[|m.boot.generations| - 1] == r.previous then m.boot.generations
      else m.boot.generations + [r.previous]
    ensures forall s :: s in t.boot.menu <==> AmongLast(t.boot.generations, 10, s)
    ensures t.live.running == r.previous && t.deployed == r.fallback && t.failed == m.failed + {r.id}
    ensures t.working == if preserve then m.working else Workspace(Rollback(r.id), r.fallback.content)
    ensures t.records == m.records && t.good == m.good && t.authorized == m.authorized && t.storage == m.storage
  {
    var d, g := Durable(t), Goal(m, r, preserve);
    assert t.boot == d.boot == g.boot && t.live.running == d.live.running && t.status == d.status;
    forall s
      ensures s in t.boot.menu <==> AmongLast(t.boot.generations, 10, s)
    {
      NewestAreLast(t.boot.generations, 10, s);
    }
  }

  // Two states from which an uninterrupted restoration reaches the same state.
  predicate SameGoal(m: Machine, t: Machine, r: Record, preserve: bool) {
    && RestoredBoot(t.boot, r.previous) == RestoredBoot(m.boot, r.previous)
    && t.failed + {r.id} == m.failed + {r.id}
    && (preserve ==> t.working == m.working)
    && t.status.transaction == m.status.transaction
    && t.records == m.records && t.good == m.good && t.authorized == m.authorized
    && t.installed == m.installed && t.storage == m.storage && t.strayed == m.strayed
  }

  lemma SameGoalMeans(m: Machine, t: Machine, r: Record, preserve: bool)
    ensures SameGoal(m, t, r, preserve) <==> Goal(m, r, preserve) == Goal(t, r, preserve)
  {
  }

  // A stretch of a restoration from `m` to `t`: the goal stays, and boot files change only while nothing is armed.
  predicate Toward(m: Machine, t: Machine, r: Record, preserve: bool) {
    && SameGoal(m, t, r, preserve)
    && (t.pending == m.pending || t.pending == Some(RecoveryPending(r, preserve)) || t.pending == None)
    && (t.boot.generations != m.boot.generations || t.boot.menu != m.boot.menu || m.boot.oneshot.None? ==>
          t.boot.oneshot.None?)
    && (m.boot.saved == Some(r.previous) ==> t.boot.saved == Some(r.previous))
    && (StaysListed(m.boot, r.previous) ==> StaysListed(t.boot, r.previous))
    && (t.boot.menu != m.boot.menu || t.boot.top != m.boot.top ==> t.boot.top == r.previous)
    && (t.pending == m.pending && m.pending.Some? && m.pending.value.ActivationPending? ==> t.working == m.working)
  }

  lemma SameGoalTrans(a: Machine, b: Machine, c: Machine, r: Record, preserve: bool)
    requires SameGoal(a, b, r, preserve) && SameGoal(b, c, r, preserve)
    ensures SameGoal(a, c, r, preserve)
  {
  }

  lemma RebootKeepsGoal(m: Machine, choice: Option<System>, r: Record, preserve: bool)
    requires m.pending.Some?
    ensures SameGoal(m, Rebooted(m, choice), r, preserve)
  {
  }

  lemma TowardTrans(a: Machine, b: Machine, c: Machine, r: Record, preserve: bool)
    requires Toward(a, b, r, preserve) && Toward(b, c, r, preserve)
    requires b.pending == Some(RecoveryPending(r, preserve))
    ensures Toward(a, c, r, preserve)
  {
  }

  predicate MenuRestored(b: Boot, r: Record) {
    && b.generations != [] && Last(b) == r.previous
    && b.menu == Newest(b.generations, MENU_LIMIT)
    && b.top == r.previous && b.oneshot.None?
  }

  predicate BootRestored(b: Boot, r: Record) {
    MenuRestored(b, r) && b.saved == Some(r.previous)
  }

  predicate SystemRestored(m: Machine, r: Record, preserve: bool) {
    m.live.running == r.previous && (preserve || m.working == Workspace(Rollback(r.id), r.fallback.content))
  }

  // The boot menu was changed only behind the pinned previous system, or to lead with that system.
  predicate MenuChangedSafely(b: Boot, t: Boot, previous: System) {
    (t.menu == b.menu && t.top == b.top) || t.top == previous || t.saved == Some(previous)
  }

  // The state after an application that nothing interrupted.
  function Applied(m: Machine, r: Record): Machine {
    m.(pending := Some(TrialPending(r, m.live.bootId)),
       status := Status(AwaitingBoot, m.status.transaction),
       boot := Profiled(m.boot, r.system).(saved := Some(r.previous), oneshot := Some(r.system)),
       live := m.live.(running := r.system),
       working := Workspace(Trial(r.id), r.config),
       log := m.log + {Passed(SystemHealth, r.system, m.live.booted, m.live.bootId),
                       Passed(DesktopHealth, r.system, m.live.booted, m.live.bootId)})
  }

  // The previous system runs, leads the menu and is its default; nothing is armed, and the deployment is marked failed.
  ghost predicate RolledBackTo(t: Machine, r: Record) {
    && t.pending == None && t.boot.saved == Some(r.previous) && t.boot.oneshot == None
    && t.boot.generations != [] && Last(t.boot) == r.previous && t.boot.top == r.previous && Listed(t.boot)
    && t.live.running == r.previous && t.deployed == r.fallback && r.id in t.failed
    && t.working.owner != Trial(r.id)
  }

  // The state after a confirmation whose health checks passed.
  function Finished(m: Machine, r: Record): Machine {
    m.(deployed := Tree(r.config, r.system), status := Status(Done, m.status.transaction), pending := None,
       settled := ByConfirmation)
  }

  function Staged(m: Machine, record: Record): Machine {
    m.(records := m.records[record.id := record])
  }

  // Whether a recovery that finds this pending record preserves the personal selection.
  function Preserves(m: Machine): bool
    requires m.pending.Some?
  {
    match m.pending.value
    case RecoveryPending(_, preserve) => preserve
    case ActivationPending(r, _) => m.working.owner != Trial(r.id)
    case TrialPending(_, _) => false
  }

  // ---------------------------------------------------------------------------------------------------------------
  // Where a storage cleanup leads
  // ---------------------------------------------------------------------------------------------------------------

  /** What every reviewed plan meets. It retires confirmed deployments only, none that refers to the running system, and
      only while another confirmed deployment of that system is retained. It drops generations only of systems that no
      other retained deployment refers to. */
  predicate PlanFits(m: Machine, candidates: set<Id>, dropped: set<System>) {
    && candidates <= m.good - m.failed - m.storage.retired
    && (candidates != {} ==>
          exists id :: id in m.good - m.storage.retired && id in m.records && m.records[id].system == m.live.running)
    && (forall id :: id in candidates && id in m.records ==> !Refers(m.records[id], m.live.running))
    && (forall s :: s in dropped ==> s != m.live.running && Disposable(m, candidates, s))
  }

  // Only deployments that are to be retired, or were, refer to the system.
  predicate Disposable(m: Machine, candidates: set<Id>, s: System) {
    && (exists id :: id in candidates && id in m.records && Refers(m.records[id], s))
    && (forall id :: id in m.records && id !in m.storage.retired && id !in candidates ==> !Refers(m.records[id], s))
  }

  predicate Refers(r: Record, s: System) {
    r.system == s || r.previous == s
  }

  // A generation is dropped at its position.
  function Without(generations: seq<System>, i: nat): seq<System>
    requires i < |generations|
  {
    generations[..i] + generations[i + 1..]
  }

  function Kept(generations: seq<System>, dropped: set<System>): seq<System>
    decreases |generations|
  {
    if generations == [] then []
    else
      var front, last := generations[..|generations| - 1], generations[|generations| - 1];
      if last in dropped then Kept(front, dropped) else Kept(front, dropped) + [last]
  }

  function SweptBoot(b: Boot, sweep: Sweep): Boot {
    if !sweep.dropping then b
    else WithMenu(b.(generations := Kept(b.generations, sweep.dropped)), sweep.current).(saved := Some(sweep.current))
  }

  // The state after an uninterrupted cleanup.
  function Swept(m: Machine): Machine
    requires m.storage.cleanup.Some?
  {
    var sweep := m.storage.cleanup.value;
    m.(boot := SweptBoot(m.boot, sweep),
       settled := if sweep.dropping then ByCleanup(sweep.current, m.deployed.builds) else m.settled,
       storage := Storage(None, m.storage.retired + sweep.candidates))
  }

  /** At its goal a cleanup that drops generations has kept the others, reinstalled the menu of the ten newest and selected
      the system that started it; without any, the boot files are as before. */
  lemma SweptIs(m: Machine, t: Machine)
    requires m.storage.cleanup.Some? && Durable(t) == Durable(Swept(m))
    ensures var sweep := m.storage.cleanup.value;
      && t.storage.cleanup == None && t.storage.retired == m.storage.retired + sweep.candidates
      && t.records == m.records && t.good == m.good && t.failed == m.failed && t.authorized == m.authorized
      && t.pending == m.pending && t.status == m.status && t.deployed == m.deployed && t.working == m.working
      && (!sweep.dropping ==> t.boot == m.boot)
      && (sweep.dropping ==>
            && t.boot.generations == Kept(m.boot.generations, sweep.dropped)
            && t.boot.saved == Some(sweep.current) && t.boot.top == sweep.current && t.boot.oneshot == m.boot.oneshot
            && forall s :: s in t.boot.menu <==> AmongLast(t.boot.generations, 10, s))
  {
    var d, g := Durable(t), Durable(Swept(m));
    assert t.boot == d.boot == g.boot && t.storage == d.storage == g.storage && t.status == d.status;
    forall s
      ensures s in Newest(t.boot.generations, 10) <==> AmongLast(t.boot.generations, 10, s)
    {
      NewestAreLast(t.boot.generations, 10, s);
    }
  }

  // A stretch of a cleanup from `m` to `t`: it stays journaled and leads to the same state.
  predicate Sweeps(m: Machine, t: Machine)
    requires m.storage.cleanup.Some?
  {
    && t == m.(boot := t.boot, settled := t.settled, storage := t.storage, log := t.log)
    && t.storage.cleanup.Some?
    && t.storage.cleanup.value == m.storage.cleanup.value.(dropping := t.storage.cleanup.value.dropping)
    && (Dropping(t) ==> Dropping(m))
    && t.boot.saved in {m.boot.saved, Swept(m).boot.saved}
    && Swept(t).boot == Swept(m).boot && Swept(t).settled == Swept(m).settled && Swept(t).storage == Swept(m).storage
  }

  // A journaled cleanup finishes from the system that started it, unless it is to drop the profile's own generation.
  predicate CanFinish(m: Machine)
    requires m.storage.cleanup.Some? && m.boot.generations != []
  {
    var sweep := m.storage.cleanup.value;
    m.live.running == m.live.booted == sweep.current && (sweep.dropping ==> Last(m.boot) !in sweep.dropped)
  }

  // What an attempt makes of a journaled cleanup.
  predicate SweptOn(m: Machine, t: Machine, r: Reply)
    requires m.storage.cleanup.Some?
  {
    && (Sweeps(m, t) || (t.storage.cleanup.None? && Durable(t) == Durable(Swept(m))))
    && (r.Ok? ==> t.storage.cleanup.None?)
  }

  lemma LogLeavesSweep(m: Machine, logged: Machine, t: Machine, r: Reply)
    requires m.storage.cleanup.Some? && logged == m.(log := logged.log) && SweptOn(logged, t, r)
    ensures SweptOn(m, t, r)
  {
  }

  lemma SweptSelects(m: Machine, t: Machine)
    requires Dropping(m) && Durable(t) == Durable(Swept(m)) && Inv(t)
    ensures Selection(t.boot) == DefaultTarget(t.boot) == m.storage.cleanup.value.current && t.deployed == m.deployed
  {
    var d := Durable(t);
    assert t.boot == d.boot && t.deployed == d.deployed && t.pending == d.pending && t.storage == d.storage;
  }

  lemma {:induction false} KeptWithout(generations: seq<System>, i: nat, dropped: set<System>)
    requires i < |generations| && generations[i] in dropped
    ensures Kept(Without(generations, i), dropped) == Kept(generations, dropped)
    decreases |generations|
  {
    var front, last := generations[..|generations| - 1], generations[|generations| - 1];
    if i == |generations| - 1 {
      assert Without(generations, i) == front;
    } else {
      KeptWithout(front, i, dropped);
      assert Without(generations, i) == Without(front, i) + [last];
      assert (Without(front, i) + [last])[..|front| - 1] == Without(front, i);
    }
  }

  lemma {:induction false} KeepsAll(generations: seq<System>, dropped: set<System>)
    requires forall s :: s in generations ==> s !in dropped
    ensures Kept(generations, dropped) == generations
    decreases |generations|
  {
    if generations != [] {
      KeepsAll(generations[..|generations| - 1], dropped);
    }
  }

  // Dropping one generation leaves the others among the newest.
  lemma {:induction false} NewestWithout(generations: seq<System>, i: nat, n: nat, s: System)
    requires i < |generations| && generations[i] != s && s in Newest(generations, n)
    ensures s in Newest(Without(generations, i), n)
    decreases |generations|
  {
    var front, last := generations[..|generations| - 1], generations[|generations| - 1];
    if i == |generations| - 1 {
      assert Without(generations, i) == front;
      NewestGrows(front, n - 1);
    } else {
      assert Without(generations, i) == Without(front, i) + [last];
      assert (Without(front, i) + [last])[..|front| - 1] == Without(front, i);
      if s != last {
        NewestWithout(front, i, n - 1, s);
      }
    }
  }

  // ---------------------------------------------------------------------------------------------------------------
  // The imperative engine
  // ---------------------------------------------------------------------------------------------------------------

  // Vouched systems stay vouched: records and passed checks are never dropped.
  lemma VouchedStays(m: Machine, t: Machine, s: System)
    requires Vouched(m, s) && t.installed == m.installed && m.log <= t.log
    requires forall id :: id in m.records ==> id in t.records && t.records[id] == m.records[id]
    ensures Vouched(t, s)
  {
    if Confirmed(m.log, s) {
      var b: nat :| ConfirmedOn(m.log, s, b);
      assert ConfirmedOn(t.log, s, b);
    }
  }

  datatype Command =
    | DoStage(id: Id, system: System, config: Content, token: nat)
    | DoApply(id: Id, token: nat)
    | DoRecover
    | DoConfirm
    | DoRollBack(target: Option<Id>)
    | DoAuthorize(id: Id)
    | DoCleanUp(candidates: set<Id>, dropped: set<System>)
    | DoResume
    | DoReboot(choice: Option<System>)
    | DoEdit(content: Content)

  // The decision what to preserve survives an unfinished restoration.
  lemma PreservesStays(m: Machine, t: Machine, record: Record)
    requires m.pending.Some? && !m.pending.value.TrialPending? && m.pending.value.record == record
    requires Toward(m, t, record, Preserves(m)) && t.pending.Some?
    requires Inv(t)
    ensures !t.pending.value.TrialPending? && t.pending.value.record == record && Preserves(t) == Preserves(m)
  {
  }

  lemma RecordKeepsInv(m: Machine, record: Record)
    requires Inv(m) && AtRest(m) && record.id !in m.records && record.previous == m.live.running
    requires record.fallback == m.deployed
    ensures Inv(Staged(m, record))
  {
    var t := Staged(m, record);
    forall s | Vouched(m, s)
      ensures Vouched(t, s)
    {
      VouchedStays(m, t, s);
    }
  }

  class Engine {
    const loader: Loader
    // Every command has its effect and the power stays on. Health checks may still fail, and the user may edit.
    const undisturbed: bool
    // Which health checks would pass, and the edit of the selected configuration that arrives while a candidate is tested.
    const healthy: Passed -> bool
    const edit: Option<Content>
    var m: Machine

    constructor (loader: Loader, undisturbed: bool, healthy: Passed -> bool, edit: Option<Content>, m: Machine)
      requires Inv(m)
      ensures this.loader == loader && this.undisturbed == undisturbed && this.healthy == healthy && this.edit == edit
      ensures this.m == m
    {
      this.loader, this.undisturbed, this.healthy, this.edit, this.m := loader, undisturbed, healthy, edit, m;
    }

    // A check would pass with this system running in the present boot.
    predicate Healthy(n: Machine, check: Check, s: System) {
      healthy(Passed(check, s, n.live.booted, n.live.bootId))
    }

    // ------------------------------------------------------------------------------------------------------------
    // Effects
    // ------------------------------------------------------------------------------------------------------------

    // One durable effect that would lead to the state `after`.
    method Effect(after: Machine) returns (r: Reply)
      requires Inv(m) && Inv(after)
      modifies this
      ensures Inv(m) && (m == old(m) || m == after)
      ensures r.Ok? ==> m == after
      ensures undisturbed ==> r.Ok?
    {
      var happened: bool, reported: bool, powered: bool := *, *, *;
      happened, reported := happened || undisturbed, reported || undisturbed;
      r := if happened && reported then Ok else if powered then Failed else PowerLost;
      if happened {
        m := after;
      }
    }

    // A command without an effect on this state.
    method Query() returns (r: Reply)
      ensures undisturbed ==> r.Ok?
    {
      var answered: bool, powered: bool := *, *;
      r := if answered || undisturbed then Ok else if powered then Failed else PowerLost;
    }

    function Logged(check: Check): Machine
      reads this
    {
      m.(log := m.log + {Passed(check, m.live.running, m.live.booted, m.live.bootId)})
    }

    method Health(check: Check) returns (r: Reply)
      requires Inv(m)
      modifies this
      ensures Inv(m)
      ensures r.Ok? ==> m == old(Logged(check))
      ensures !r.Ok? ==> m == old(m)
      ensures r.Ok? ==> Healthy(m, check, m.live.running)
      ensures undisturbed ==> r == if Healthy(m, check, m.live.running) then Ok else Failed
    {
      r := Query();
      if r.Ok? && !Healthy(m, check, m.live.running) {
        r := Failed;
      }
      if r.Ok? {
        LogKeepsInv(m, Logged(check).log);
        m := Logged(check);
      }
    }

    method SetStatus(state: State, transaction: Option<Id>) returns (r: Reply)
      requires Inv(m) && !state.Ready? && (m.storage.cleanup.None? || !state.Busy())
      modifies this
      ensures Inv(m) && (m == old(m) || m == old(m).(status := Status(state, transaction)))
      ensures r.Ok? ==> m == old(m).(status := Status(state, transaction))
      ensures undisturbed ==> r.Ok?
    {
      r := Effect(m.(status := Status(state, transaction)));
    }

    method SetBoot(boot: Boot) returns (r: Reply)
      requires Inv(m) && Inv(m.(boot := boot))
      modifies this
      ensures Inv(m) && m == old(m).(boot := m.boot) && (m.boot == old(m).boot || m.boot == boot)
      ensures r.Ok? ==> m.boot == boot
      ensures undisturbed ==> r.Ok?
    {
      r := Effect(m.(boot := boot));
    }

    method Disarm() returns (r: Reply)
      requires Inv(m)
      modifies this
      ensures Inv(m) && (m == old(m) || m == old(m).(boot := old(m).boot.(oneshot := None)))
      ensures r.Ok? ==> m == old(m).(boot := old(m).boot.(oneshot := None))
      ensures undisturbed ==> r.Ok?
    {
      r := SetBoot(m.boot.(oneshot := None));
    }

    // Disarm, and select a system by default. systemd-boot takes two commands for it.
    method SelectDefault(s: System) returns (r: Reply)
      requires Inv(m) && m.pending.Some? && !m.pending.value.TrialPending? && Vouched(m, s)
      modifies this
      ensures Inv(m)
      ensures m == old(m).(boot := m.boot)
      ensures m.boot in {old(m).boot, old(m).boot.(oneshot := None), old(m).boot.(oneshot := None, saved := Some(s))}
      ensures r.Ok? ==> s in m.boot.menu && m.boot == old(m).boot.(oneshot := None, saved := Some(s))
      ensures StaysListed(old(m).boot, s) ==> StaysListed(m.boot, s)
      ensures s !in old(m).boot.menu ==> r.Failed? && m == old(m)
      ensures undisturbed && s in old(m).boot.menu ==> r.Ok?
    {
      if s !in m.boot.menu {
        return Failed;
      }
      LastIsNewest(WithGeneration(m.boot.generations, s));
      if loader.SystemdBoot? {
        :- SetBoot(m.boot.(oneshot := None));
      }
      r := SetBoot(m.boot.(oneshot := None, saved := Some(s)));
    }

    // Select the previous system by default and the candidate once.
    method ArmTrial(record: Record) returns (r: Reply)
      requires Inv(m) && m.pending == Some(ActivationPending(record, m.live.bootId)) && !m.status.state.Ready?
      requires m.boot.oneshot.None?
      modifies this
      ensures Inv(m)
      ensures m == old(m).(boot := m.boot)
      ensures m.boot in {old(m).boot, old(m).boot.(saved := Some(record.previous)),
                         old(m).boot.(saved := Some(record.previous), oneshot := Some(record.system))}
      ensures r.Ok? ==> m.boot == old(m).boot.(saved := Some(record.previous), oneshot := Some(record.system))
      ensures r.Ok? ==> record.previous in m.boot.menu && record.system in m.boot.menu
      ensures record.previous !in old(m).boot.menu || record.system !in old(m).boot.menu ==> r.Failed? && m == old(m)
      ensures undisturbed && record.previous in old(m).boot.menu && record.system in old(m).boot.menu ==> r.Ok?
    {
      if record.system !in m.boot.menu || record.previous !in m.boot.menu {
        return Failed;
      }
      if loader.SystemdBoot? {
        :- SetBoot(m.boot.(saved := Some(record.previous)));
      }
      r := SetBoot(m.boot.(saved := Some(record.previous), oneshot := Some(record.system)));
    }

    // Make a system the newest generation and reinstall the boot menu from it.
    method Profile(s: System) returns (r: Reply)
      requires Inv(m) && m.boot.oneshot.None? && m.pending.Some? && !m.pending.value.TrialPending?
      requires m.boot.saved.Some? || Vouched(m, s)
      modifies this
      ensures Inv(m)
      ensures m == old(m).(boot := m.boot)
      ensures var listed := old(m).boot.(generations := WithGeneration(old(m).boot.generations, s));
        m.boot in {old(m).boot, listed, WithMenu(listed, s)}
      ensures r.Ok? ==> m.boot == Profiled(old(m).boot, s)
      ensures undisturbed ==> r.Ok?
    {
      r := Ok;
      :- SetBoot(m.boot.(generations := WithGeneration(m.boot.generations, s)));
      r := SetBoot(WithMenu(m.boot, s));
    }

    // switch-to-configuration test: the system runs, but it was not booted.
    method SwitchTest(s: System) returns (r: Reply)
      requires Inv(m) && m.pending.Some?
      modifies this
      ensures Inv(m) && (m == old(m) || m == old(m).(live := old(m).live.(running := s)))
      ensures r.Ok? ==> m == old(m).(live := old(m).live.(running := s))
      ensures undisturbed ==> r.Ok?
    {
      r := Effect(m.(live := m.live.(running := s)));
    }

    method SelectConfig(w: Workspace) returns (r: Reply)
      requires Inv(m) && Inv(m.(working := w))
      modifies this
      ensures Inv(m) && (m == old(m) || m == old(m).(working := w))
      ensures r.Ok? ==> m == old(m).(working := w)
      ensures undisturbed ==> r.Ok?
    {
      r := Effect(m.(working := w));
    }

    // ------------------------------------------------------------------------------------------------------------
    // Restoration
    // ------------------------------------------------------------------------------------------------------------

    /** Restore the previous generation. It is journaled first; when it is cut short anywhere, the journaled record
        and the state that an uninterrupted restoration would reach are still the same. No boot file is touched while
        a one-shot entry is armed. An undisturbed restoration completes exactly if the restored system
        passes its health check; otherwise it stays journaled. */
    method Restore(record: Record, preserve: bool) returns (r: Reply)
      requires Inv(m) && record.id in m.records && m.records[record.id] == record
      requires m.storage.cleanup.None? && (preserve ==> m.working.owner != Trial(record.id))
      modifies this
      ensures Inv(m) && Toward(old(m), m, record, preserve)
      ensures r.Ok? ==> m.pending.None? && Durable(m) == Goal(old(m), record, preserve)
      ensures r.Ok? ==> RolledBackTo(m, record) && m.records == old(m).records && m.good == old(m).good
      ensures r.Ok? ==>
        m.working == if preserve then old(m).working else Workspace(Rollback(record.id), record.fallback.content)
      ensures r.Ok? ==> (m.deployed.builds == DefaultTarget(m.boot) <==> Coherent(record))
      ensures m.pending.None? ==> Durable(m) == Goal(old(m), record, preserve) || m == old(m)
      ensures StaysListed(old(m).boot, record.previous) ==> Listed(m.boot)
      ensures undisturbed ==> r == if Healthy(old(m), SystemHealth, record.previous) then Ok else Failed
      ensures undisturbed && !r.Ok? ==>
        m.pending == Some(RecoveryPending(record, preserve)) && m.status == Status(RecoveryFailed, old(m).status.transaction)
      ensures m.live.booted == old(m).live.booted && m.live.bootId == old(m).live.bootId
    {
      r := Ok;
      :- Journal(record, preserve);
      ghost var journaled := m;
      r := RestoreJournaled(record, preserve);
      TowardTrans(old(m), journaled, m, record, preserve);
      SameGoalMeans(old(m), journaled, record, preserve);
    }

    // Whatever fails after the journal was written is reported, and the journal stays.
    method RestoreJournaled(record: Record, preserve: bool) returns (r: Reply)
      requires Inv(m) && m.pending == Some(RecoveryPending(record, preserve)) && m.status.state.Recovering?
      modifies this
      ensures Inv(m) && Toward(old(m), m, record, preserve)
      ensures r.Ok? ==> m.pending.None?
      ensures m.pending.None? ==> Durable(m) == Goal(old(m), record, preserve)
      ensures undisturbed ==> r == if Healthy(old(m), SystemHealth, record.previous) then Ok else Failed
      ensures undisturbed && !r.Ok? ==> m.pending == old(m).pending
      ensures undisturbed && !r.Ok? ==> m.status == Status(RecoveryFailed, old(m).status.transaction)
      ensures m.live.booted == old(m).live.booted && m.live.bootId == old(m).live.bootId
    {
      r := CarryOutRestoration(record, preserve);
      if r.Failed? && m.pending.Some? {
        ghost var before := m;
        r := ReportFailure();
        TowardTrans(old(m), before, m, record, preserve);
      }
    }

    method ReportFailure() returns (r: Reply)
      requires Inv(m) && m.pending.Some?
      modifies this
      ensures Inv(m) && !r.Ok?
      ensures undisturbed ==> r.Failed? && m.status == Status(RecoveryFailed, old(m).status.transaction)
      ensures m == old(m) || m == old(m).(status := Status(RecoveryFailed, old(m).status.transaction))
    {
      r := SetStatus(RecoveryFailed, m.status.transaction);
      r := if r.PowerLost? then r else Failed;
    }

    method Journal(record: Record, preserve: bool) returns (r: Reply)
      requires Inv(m) && record.id in m.records && m.records[record.id] == record
      requires m.storage.cleanup.None? && (preserve ==> m.working.owner != Trial(record.id))
      modifies this
      ensures Inv(m) && Toward(old(m), m, record, preserve)
      ensures r.Ok? ==> m.pending == Some(RecoveryPending(record, preserve)) && m.status.state.Recovering?
      ensures m.pending.None? ==> m == old(m)
      ensures undisturbed ==> r.Ok?
      ensures m.live == old(m).live && m.status.transaction == old(m).status.transaction
    {
      r := Ok;
      :- Effect(m.(pending := Some(RecoveryPending(record, preserve))));
      r := SetStatus(Recovering, m.status.transaction);
    }

    method CarryOutRestoration(record: Record, preserve: bool) returns (r: Reply)
      requires Inv(m) && m.pending == Some(RecoveryPending(record, preserve)) && !m.status.state.Ready?
      modifies this
      ensures Inv(m) && Toward(old(m), m, record, preserve)
      ensures r.Ok? ==> m.pending.None?
      ensures m.pending.None? ==> Durable(m) == Goal(old(m), record, preserve)
      ensures undisturbed ==> r == if Healthy(old(m), SystemHealth, record.previous) then Ok else Failed
      ensures undisturbed && !r.Ok? ==> m.pending == old(m).pending
      ensures m.live.booted == old(m).live.booted && m.live.bootId == old(m).live.bootId
      ensures m.status.transaction == old(m).status.transaction
    {
      r := Ok;
      :- RestoreBoot(record, preserve);
      :- RestoreSystem(record, preserve);
      r := CompleteRestoration(record, preserve);
    }

    // Disarm first, which needs no boot entry; then recreate the entry of the previous system and select it.
    method RestoreBoot(record: Record, preserve: bool) returns (r: Reply)
      requires Inv(m) && m.pending == Some(RecoveryPending(record, preserve)) && !m.status.state.Ready?
      modifies this
      ensures Inv(m) && Toward(old(m), m, record, preserve) && m.pending == old(m).pending && m.status == old(m).status
      ensures r.Ok? ==> BootRestored(m.boot, record)
      ensures undisturbed ==> r.Ok?
      ensures m.live == old(m).live
    {
      r := Ok;
      :- Disarm();
      :- Query();
      ghost var disarmed := m;
      :- RebuildMenu(record, preserve);
      ghost var rebuilt := m;
      TowardTrans(old(m), disarmed, rebuilt, record, preserve);
      r := SelectPrevious(record, preserve);
      TowardTrans(old(m), rebuilt, m, record, preserve);
    }

    method RebuildMenu(record: Record, preserve: bool) returns (r: Reply)
      requires Inv(m) && m.pending == Some(RecoveryPending(record, preserve)) && m.boot.oneshot.None?
      modifies this
      ensures Inv(m) && Toward(old(m), m, record, preserve) && m.pending == old(m).pending && m.status == old(m).status
      ensures r.Ok? ==> MenuRestored(m.boot, record)
      ensures undisturbed ==> r.Ok?
      ensures m.live == old(m).live
    {
      r := Profile(record.previous);
    }

    method SelectPrevious(record: Record, preserve: bool) returns (r: Reply)
      requires Inv(m) && m.pending == Some(RecoveryPending(record, preserve)) && m.boot.oneshot.None?
      requires MenuRestored(m.boot, record)
      modifies this
      ensures Inv(m) && Toward(old(m), m, record, preserve) && m.pending == old(m).pending && m.status == old(m).status
      ensures r.Ok? ==> BootRestored(m.boot, record)
      ensures undisturbed ==> r.Ok?
      ensures m.live == old(m).live
    {
      LastIsNewest(m.boot.generations);
      r := SelectDefault(record.previous);
    }

    method RestoreSystem(record: Record, preserve: bool) returns (r: Reply)
      requires Inv(m) && m.pending == Some(RecoveryPending(record, preserve)) && BootRestored(m.boot, record)
      requires !m.status.state.Ready?
      modifies this
      ensures Inv(m) && Toward(old(m), m, record, preserve) && m.pending == old(m).pending && m.status == old(m).status
      ensures r.Ok? ==> BootRestored(m.boot, record) && SystemRestored(m, record, preserve)
      ensures undisturbed ==> r == if Healthy(old(m), SystemHealth, record.previous) then Ok else Failed
      ensures m.live == old(m).live.(running := m.live.running)
    {
      r := Ok;
      :- SwitchTest(record.previous);
      :- Health(SystemHealth);
      if !preserve {
        :- SelectConfig(Workspace(Rollback(record.id), record.fallback.content));
      }
      r := Ok;
    }

    method CompleteRestoration(record: Record, preserve: bool) returns (r: Reply)
      requires Inv(m) && m.pending == Some(RecoveryPending(record, preserve)) && !m.status.state.Ready?
      requires BootRestored(m.boot, record) && SystemRestored(m, record, preserve)
      modifies this
      ensures Inv(m) && Toward(old(m), m, record, preserve)
      ensures r.Ok? ==> m.pending.None?
      ensures m.pending.None? ==> Durable(m) == Goal(old(m), record, preserve)
      ensures undisturbed ==> r.Ok?
      ensures m.live == old(m).live && m.status.transaction == old(m).status.transaction
    {
      LastIsNewest(m.boot.generations);
      assert RestoredBoot(m.boot, record.previous) == m.boot;
      :- MarkFailed(record, preserve);
      :- Effect(m.(deployed := record.fallback));
      :- SetStatus(RolledBack, m.status.transaction);
      r := DropRecord(record, preserve);
    }

    method DropRecord(record: Record, preserve: bool) returns (r: Reply)
      requires Inv(m) && m.pending == Some(RecoveryPending(record, preserve)) && m.status.state.RolledBack?
      requires BootRestored(m.boot, record) && m.live.running == record.previous && m.deployed == record.fallback
      modifies this
      ensures Inv(m) && m == old(m).(pending := m.pending, settled := m.settled)
      ensures m == old(m) || (m.pending == None && m.settled == ByRestoration(record))
      ensures r.Ok? ==> m.pending == None
      ensures undisturbed ==> r.Ok?
    {
      LastIsNewest(m.boot.generations);
      r := Effect(m.(pending := None, settled := ByRestoration(record)));
    }

    method MarkFailed(record: Record, preserve: bool) returns (r: Reply)
      requires Inv(m) && m.pending == Some(RecoveryPending(record, preserve))
      modifies this
      ensures Inv(m) && Toward(old(m), m, record, preserve) && m == old(m).(failed := m.failed)
      ensures r.Ok? ==> m.failed == old(m).failed + {record.id}
      ensures undisturbed ==> r.Ok?
    {
      r := Effect(m.(failed := m.failed + {record.id}));
    }

    // ------------------------------------------------------------------------------------------------------------
    // Application
    // ------------------------------------------------------------------------------------------------------------

    // While a deployment is activated the user may edit the selected configuration.
    method UserMayEdit()
      requires Inv(m)
      modifies this
      ensures Inv(m) && m == old(m).(working := m.working) && m.working.owner == old(m).working.owner
      ensures undisturbed ==> m.working == EditedBy(old(m))
    {
      var content: Content := *;
      if !undisturbed {
        Edit(content);
      } else if edit.Some? {
        Edit(edit.value);
      }
    }

    function EditedBy(n: Machine): Workspace {
      if edit.Some? then Workspace(n.working.owner, edit.value) else n.working
    }

    // The candidate can be tested: the previous system can be pinned, and both checks pass while the candidate runs.
    predicate Testable(n: Machine, r: Record) {
      && r.previous in n.boot.menu
      && Healthy(n, SystemHealth, r.system) && Healthy(n, DesktopHealth, r.system)
    }

    // Its configuration is selected if the personal one is unedited when it passed.
    predicate Selectable(n: Machine, r: Record) {
      Testable(n, r) && EditedBy(n).content == r.baseline
    }

    // It can be armed beside the previous system if the new menu lists that one.
    predicate Armable(n: Machine, r: Record) {
      Selectable(n, r) && r.previous in Profiled(n.boot, r.system).menu
    }

    /** A failed activation of `r` in the state `n`, with no further disturbance, ended in `t`. The machine is restored,
        and the personal selection with its edits is kept unless the candidate's was selected already. Only if the
        previous system does not pass its check either, the restoration stays pending. */
    ghost predicate GivenUp(n: Machine, t: Machine, r: Record) {
      var preserve := !Selectable(n, r) && n.working.owner != Trial(r.id);
      var kept := if Testable(n, r) then EditedBy(n) else n.working;
      var generations := if Selectable(n, r) then WithGeneration(n.boot.generations, r.system) else n.boot.generations;
      var failed := n.(working := kept, boot := n.boot.(generations := generations));
      if Healthy(n, SystemHealth, r.previous) then
        && t.pending.None? && Durable(t) == Goal(failed, r, preserve) && RolledBackTo(t, r)
        && t.working == if preserve then kept else Workspace(Rollback(r.id), r.fallback.content)
      else
        && t.pending == Some(RecoveryPending(r, preserve)) && t.status == Status(RecoveryFailed, n.status.transaction)
        && Goal(t, r, preserve) == Goal(failed, r, preserve)
    }

    /** What decides whether an undisturbed application succeeds: both menus list the previous system, the candidate passes
        its checks on the present boot, and no edit changes the reviewed configuration meanwhile. */
    lemma ArmableIff(n: Machine, r: Record)
      ensures Armable(n, r) <==>
        && r.previous in n.boot.menu && r.previous in Profiled(n.boot, r.system).menu
        && healthy(Passed(SystemHealth, r.system, n.live.booted, n.live.bootId))
        && healthy(Passed(DesktopHealth, r.system, n.live.booted, n.live.bootId))
        && (if edit.Some? then edit.value == r.baseline else n.working.content == r.baseline)
    {
    }

    method Edit(content: Content)
      requires Inv(m)
      modifies this
      ensures Inv(m) && m == old(m).(working := Workspace(old(m).working.owner, content))
    {
      m := m.(working := Workspace(m.working.owner, content));
    }

    // Pin the previous system as the default before anything else, then test the candidate.
    method TestCandidate(record: Record) returns (r: Reply)
      requires Inv(m) && m.pending == Some(ActivationPending(record, m.live.bootId)) && m.status.state.Activating?
      modifies this
      ensures Inv(m)
      ensures m == old(m).(boot := m.boot, live := m.live, working := m.working, log := m.log)
      ensures m.live == old(m).live.(running := m.live.running)
      ensures m.working.owner in {old(m).working.owner, Trial(record.id)}
      ensures m.boot in {old(m).boot, old(m).boot.(oneshot := None),
                         old(m).boot.(oneshot := None, saved := Some(record.previous))}
      ensures r.Ok? ==> m.boot == old(m).boot.(oneshot := None, saved := Some(record.previous))
      ensures r.Ok? ==> m.live.running == record.system && m.working == Workspace(Trial(record.id), record.config)
      ensures r.Ok? ==> record.previous in m.boot.menu && m.log == Applied(old(m), record).log
      ensures undisturbed ==> r == if Selectable(old(m), record) then Ok else Failed
      ensures undisturbed && !r.Ok? ==>
        m.working == if Testable(old(m), record) then EditedBy(old(m)) else old(m).working
      ensures StaysListed(old(m).boot, record.previous) ==> StaysListed(m.boot, record.previous)
    {
      r := Ok;
      :- SelectDefault(record.previous);
      :- Query();
      :- TrySystem(record.system);
      UserMayEdit();
      if m.working.content != record.baseline {
        return Failed;
      }
      r := SelectConfig(Workspace(Trial(record.id), record.config));
    }

    method TrySystem(s: System) returns (r: Reply)
      requires Inv(m) && m.pending.Some?
      modifies this
      ensures Inv(m) && m == old(m).(live := m.live, log := m.log) && m.live == old(m).live.(running := m.live.running)
      ensures r.Ok? ==> m.live.running == s
      ensures r.Ok? ==>
        m.log == old(m).log + {Passed(SystemHealth, s, m.live.booted, m.live.bootId),
                               Passed(DesktopHealth, s, m.live.booted, m.live.bootId)}
      ensures undisturbed ==>
        r == if Healthy(old(m), SystemHealth, s) && Healthy(old(m), DesktopHealth, s) then Ok else Failed
    {
      r := Ok;
      :- SwitchTest(s);
      :- Query();
      :- Health(SystemHealth);
      r := Health(DesktopHealth);
      assert r.Ok? ==> m.log == old(m).log + {Passed(SystemHealth, s, m.live.booted, m.live.bootId),
                                              Passed(DesktopHealth, s, m.live.booted, m.live.bootId)};
    }

    method ArmCandidate(record: Record) returns (r: Reply)
      requires Inv(m) && m.pending == Some(ActivationPending(record, m.live.bootId)) && m.status.state.Activating?
      requires m.boot.oneshot.None? && m.boot.saved == Some(record.previous)
      modifies this
      ensures Inv(m) && m == old(m).(boot := m.boot) && m.boot.saved == Some(record.previous)
      ensures r.Ok? ==> m.boot == Profiled(old(m).boot, record.system).(oneshot := Some(record.system))
      ensures r.Ok? ==> record.previous in m.boot.menu && record.system in m.boot.menu
      ensures HasRoom(old(m).boot, record) ==> StaysListed(m.boot, record.previous)
      ensures undisturbed ==> r == if record.previous in Profiled(old(m).boot, record.system).menu then Ok else Failed
      ensures undisturbed && !r.Ok? ==> m.boot == Profiled(old(m).boot, record.system)
    {
      r := Ok;
      :- Profile(record.system);
      :- Query();
      r := ArmTrial(record);
    }

    // Install the candidate's menu, arm it once, and only then call the deployment a trial.
    method PrepareTrial(record: Record) returns (r: Reply)
      requires Inv(m) && m.pending == Some(ActivationPending(record, m.live.bootId)) && m.status.state.Activating?
      requires m.boot.oneshot.None? && m.boot.saved == Some(record.previous)
      modifies this
      ensures Inv(m)
      ensures m == old(m).(boot := m.boot, pending := m.pending, status := m.status)
      ensures m.boot.saved == Some(record.previous) && m.status.transaction == old(m).status.transaction
      ensures m.pending in {old(m).pending, Some(TrialPending(record, m.live.bootId))}
      ensures r.Ok? ==> m.pending == Some(TrialPending(record, m.live.bootId)) && m.status.state.AwaitingBoot?
      ensures r.Ok? ==> m.boot == Profiled(old(m).boot, record.system).(oneshot := Some(record.system))
      ensures r.Ok? ==> record.previous in m.boot.menu && record.system in m.boot.menu
      ensures HasRoom(old(m).boot, record) ==> StaysListed(m.boot, record.previous)
      ensures undisturbed ==> r == if record.previous in Profiled(old(m).boot, record.system).menu then Ok else Failed
      ensures undisturbed && !r.Ok? ==>
        m.boot == Profiled(old(m).boot, record.system) && m.pending == old(m).pending && m.status == old(m).status
    {
      r := Ok;
      :- ArmCandidate(record);
      :- Effect(m.(pending := Some(TrialPending(record, m.live.bootId))));
      r := SetStatus(AwaitingBoot, m.status.transaction);
    }

    /** Apply a reviewed deployment. Whatever happens, the boot files change only after the previous system was pinned
        as the default; success leaves the candidate armed for one boot. A failure is restored, or stays journaled. An
        undisturbed application of the ready deployment succeeds exactly if the candidate passes its checks, nobody edits
        meanwhile and both menus list the previous system; otherwise it is given up completely. */
    method Apply(id: Id, token: nat) returns (r: Reply)
      requires Inv(m)
      modifies this
      ensures Inv(m)
      ensures id in old(m).records ==> MenuChangedSafely(old(m).boot, m.boot, old(m).records[id].previous)
      // Nothing but the status changes unless the reviewed deployment is ready, and neither the running system nor the
      // configuration changed since. If they did, the deployment goes stale.
      ensures m == old(m).(status := m.status) ||
        (id in old(m).records && old(m).status == Status(Ready, Some(id)) && token == old(m).records[id].token
         && old(m).live.running == old(m).records[id].previous && old(m).working.content == old(m).records[id].baseline)
      ensures !old(Applicable(id, token)) ==> !r.Ok? && m.status in {old(m).status, Status(Stale, Some(id))}
      ensures undisturbed && id in old(m).records && old(m).status == Status(Ready, Some(id)) ==>
        token == old(m).records[id].token && !old(Applicable(id, token)) ==> m.status.state.Stale?
      ensures r.Ok? ==> id in old(m).records && m == Applied(old(m), old(m).records[id])
      ensures !r.Ok? && m.pending.None? ==>
        (m.boot == old(m).boot && m.deployed == old(m).deployed && m.live == old(m).live) ||
        (id in old(m).records && RolledBackTo(m, old(m).records[id]))
      // With room in the menu the default stays listed at every interruption. There is room at rest, where the profile's
      // own generation is selected and running. Without room for the previous system the application cannot succeed.
      ensures id in old(m).records && HasRoom(old(m).boot, old(m).records[id]) ==> Listed(m.boot)
      ensures AtRest(old(m)) && SelectsLast(old(m).boot) && old(m).live.running == Selection(old(m).boot) ==>
        Listed(m.boot)
      ensures r.Ok? ==> InBothMenus(old(m).boot, old(m).records[id])
      ensures undisturbed && old(Applicable(id, token)) ==>
        var record := old(m).records[id];
        if Armable(old(m), record) then r.Ok? else r.Failed? && GivenUp(old(m), m, record)
    {
      ghost var start := m.boot;
      if id !in m.records || m.status != Status(Ready, Some(id)) {
        return Failed;
      }
      var record := m.records[id];
      if token != record.token {
        return Failed;
      }
      if m.working.content != record.baseline || m.live.running != record.previous {
        r := SetStatus(Stale, m.status.transaction);
        r := if r.Ok? then Failed else r;
        return;
      }
      if SelectsLast(start) && record.previous == Selection(start) && Listed(start) {
        SelectedLastHasRoom(start, record);
      }
      r := Supervise(record);
    }

    // Journal the activation, and then carry it out.
    method Supervise(record: Record) returns (r: Reply)
      requires Inv(m) && m.status == Status(Ready, Some(record.id))
      requires record.id in m.records && m.records[record.id] == record
      modifies this
      ensures Inv(m)
      ensures MenuChangedSafely(old(m).boot, m.boot, record.previous)
      ensures r.Ok? ==> m == Applied(old(m), record) && InBothMenus(old(m).boot, record)
      ensures undisturbed ==> if Armable(old(m), record) then r.Ok? else r.Failed? && GivenUp(old(m), m, record)
      ensures !r.Ok? && m.pending.None? ==> m == old(m) || RolledBackTo(m, record)
      ensures HasRoom(old(m).boot, record) ==> Listed(m.boot)
    {
      r := Ok;
      :- BeginActivation(record);
      r := Activate(record);
      if undisturbed && !r.Ok? {
        JournaledIsGivenUp(old(m), m, record);
      }
    }

    method BeginActivation(record: Record) returns (r: Reply)
      requires Inv(m) && m.status == Status(Ready, Some(record.id))
      requires record.id in m.records && m.records[record.id] == record
      modifies this
      ensures Inv(m) && m in {old(m), old(Begun(record)).(status := old(m).status), old(Begun(record))}
      ensures r.Ok? ==> m == old(Begun(record))
      ensures undisturbed ==> r.Ok?
    {
      r := Ok;
      :- Effect(m.(pending := Some(ActivationPending(record, m.live.bootId))));
      r := SetStatus(Activating, m.status.transaction);
    }

    function Begun(record: Record): Machine
      reads this
    {
      m.(pending := Some(ActivationPending(record, m.live.bootId)), status := Status(Activating, m.status.transaction))
    }

    lemma JournaledIsGivenUp(n: Machine, t: Machine, r: Record)
      requires GivenUp(n.(pending := Some(ActivationPending(r, n.live.bootId)),
                          status := Status(Activating, n.status.transaction)), t, r)
      ensures GivenUp(n, t, r)
    {
      var j := n.(pending := Some(ActivationPending(r, n.live.bootId)), status := Status(Activating, n.status.transaction));
      var preserve := !Selectable(n, r) && n.working.owner != Trial(r.id);
      var kept := if Testable(n, r) then EditedBy(n) else n.working;
      var generations := if Selectable(n, r) then WithGeneration(n.boot.generations, r.system) else n.boot.generations;
      assert EditedBy(j) == EditedBy(n) && Testable(j, r) == Testable(n, r);
      SameGoalMeans(n.(working := kept, boot := n.boot.(generations := generations)),
                    j.(working := kept, boot := j.boot.(generations := generations)), r, preserve);
    }

    // The reviewed deployment is ready, and neither the running system nor the configuration changed since.
    predicate Applicable(id: Id, token: nat)
      reads this
    {
      && id in m.records && m.status == Status(Ready, Some(id)) && token == m.records[id].token
      && m.live.running == m.records[id].previous && m.working.content == m.records[id].baseline
    }

    lemma ApplicableIff(id: Id, token: nat)
      ensures Applicable(id, token) <==>
        && m.status.state == Ready && m.status.transaction == Some(id) && id in m.records && m.records[id].token == token
        && m.records[id].previous == m.live.running && m.records[id].baseline == m.working.content
    {
    }

    // The supervised part of an application: any failure in it leads to a restoration.
    method Activate(record: Record) returns (r: Reply)
      requires Inv(m) && m.pending == Some(ActivationPending(record, m.live.bootId)) && m.status.state.Activating?
      modifies this
      ensures Inv(m)
      ensures MenuChangedSafely(old(m).boot, m.boot, record.previous)
      ensures r.Ok? ==> m == Applied(old(m), record) && InBothMenus(old(m).boot, record)
      ensures undisturbed ==> if Armable(old(m), record) then r.Ok? else r.Failed? && GivenUp(old(m), m, record)
      ensures !r.Ok? && m.pending.None? ==> RolledBackTo(m, record)
      ensures HasRoom(old(m).boot, record) ==> Listed(m.boot)
    {
      r := TryCandidate(record);
      if r.Failed? {
        ghost var tried := m;
        r := GiveUp(record);
        if undisturbed {
          TriedIsGivenUp(old(m), tried, m, record);
        }
      }
    }

    method TryCandidate(record: Record) returns (r: Reply)
      requires Inv(m) && m.pending == Some(ActivationPending(record, m.live.bootId)) && m.status.state.Activating?
      modifies this
      ensures Inv(m) && m.records == old(m).records && m.pending.Some?
      ensures (m.boot.menu == old(m).boot.menu && m.boot.top == old(m).boot.top) || m.boot.saved == Some(record.previous)
      ensures r.Ok? ==> m == Applied(old(m), record) && InBothMenus(old(m).boot, record)
      ensures undisturbed ==> if Armable(old(m), record) then r.Ok? else r.Failed? && Tried(old(m), m, record)
      ensures HasRoom(old(m).boot, record) ==> StaysListed(m.boot, record.previous)
    {
      r := TestCandidate(record);
      if r.Ok? {
        r := PrepareTrial(record);
      }
    }

    // Where a failed activation gave up, without a disturbance.
    ghost predicate Tried(n: Machine, t: Machine, r: Record) {
      && t == n.(boot := t.boot, live := n.live.(running := t.live.running), working := t.working, log := t.log)
      && (Selectable(n, r) ==>
            && t.working == Workspace(Trial(r.id), r.config)
            && t.boot.generations == WithGeneration(n.boot.generations, r.system))
      && (!Selectable(n, r) ==>
            && t.working == (if Testable(n, r) then EditedBy(n) else n.working)
            && t.boot.generations == n.boot.generations)
    }

    lemma TriedIsGivenUp(n: Machine, tried: Machine, t: Machine, r: Record)
      requires Tried(n, tried, r) && GivesUp(tried, t, r)
      requires Healthy(n, SystemHealth, r.previous) ==> RolledBackTo(t, r)
      ensures GivenUp(n, t, r)
    {
      var preserve := !Selectable(n, r) && n.working.owner != Trial(r.id);
      var kept := if Testable(n, r) then EditedBy(n) else n.working;
      var generations := if Selectable(n, r) then WithGeneration(n.boot.generations, r.system) else n.boot.generations;
      var failed := n.(working := kept, boot := n.boot.(generations := generations));
      assert preserve == (tried.working.owner != Trial(r.id));
      assert SameGoal(failed, tried, r, preserve);
      SameGoalMeans(failed, tried, r, preserve);
    }

    // What giving up in the state `n` makes of it.
    ghost predicate GivesUp(n: Machine, t: Machine, r: Record) {
      var preserve := n.working.owner != Trial(r.id);
      if Healthy(n, SystemHealth, r.previous) then
        && t.pending.None? && Durable(t) == Goal(n, r, preserve)
        && t.working == if preserve then n.working else Workspace(Rollback(r.id), r.fallback.content)
      else
        && t.pending == Some(RecoveryPending(r, preserve)) && t.status == Status(RecoveryFailed, n.status.transaction)
        && Goal(t, r, preserve) == Goal(n, r, preserve)
    }

    // Keep the original failure, then restore; the personal selection is preserved unless the candidate's was selected.
    method GiveUp(record: Record) returns (r: Reply)
      requires Inv(m) && record.id in m.records && m.records[record.id] == record && m.pending.Some?
      modifies this
      ensures Inv(m) && !r.Ok?
      ensures (m.boot.menu == old(m).boot.menu && m.boot.top == old(m).boot.top) || m.boot.top == record.previous
      ensures old(m).boot.saved == Some(record.previous) ==> m.boot.saved == Some(record.previous)
      ensures m.pending.None? ==> RolledBackTo(m, record)
      ensures undisturbed ==> r.Failed? && GivesUp(old(m), m, record)
      ensures StaysListed(old(m).boot, record.previous) ==> Listed(m.boot)
    {
      r := Ok;
      :- Query();
      var preserve := m.working.owner != Trial(record.id);
      r := Restore(record, preserve);
      r := if r.Ok? then Failed else r;
    }

    // ------------------------------------------------------------------------------------------------------------
    // Confirmation
    // ------------------------------------------------------------------------------------------------------------

    /** Idempotent bookkeeping after the success marker: cut short, it still leads to the same state. */
    method FinishConfirmation(record: Record) returns (r: Reply)
      requires Inv(m) && m.pending.Some? && m.pending.value.TrialPending? && m.pending.value.record == record
      requires record.id in m.good && m.live.running == record.system && m.boot.oneshot.None?
      modifies this
      ensures Inv(m)
      ensures r.Ok? ==> m.pending.None?
      ensures m.pending in {None, old(m).pending} && (m.pending.None? ==> m == Finished(old(m), record))
      ensures Finished(m, record) == Finished(old(m), record)
      ensures undisturbed ==> r.Ok?
    {
      r := Ok;
      :- Effect(m.(deployed := Tree(record.config, record.system)));
      :- SetStatus(Done, m.status.transaction);
      r := Effect(m.(pending := None, settled := ByConfirmation));
    }

    // The state after both confirmation checks passed on the running boot.
    function Checked(): Machine
      reads this
    {
      m.(log := m.log + {Passed(SystemHealth, m.live.running, m.live.booted, m.live.bootId),
                         Passed(DesktopRequired, m.live.running, m.live.booted, m.live.bootId)})
    }

    function Committed(): Machine
      reads this
      requires m.pending.Some?
    {
      var record := m.pending.value.record;
      Checked().(boot := m.boot.(saved := Some(record.system)), good := m.good + {record.id})
    }

    /** Confirm the running trial. The persistent default moves to the candidate only after both checks passed on a
        fresh boot of it, and nothing else about the boot selection changes. */
    method Confirm() returns (r: Reply)
      requires Inv(m)
      modifies this
      ensures Inv(m)
      ensures m.boot == old(m).boot || m.boot == old(m).boot.(saved := m.boot.saved)
      ensures m.boot != old(m).boot ==>
        && old(m).pending.Some? && old(m).pending.value.TrialPending?
        && var s := old(m).pending.value.record.system;
          && old(m).live.running == old(m).live.booted == s && old(m).live.bootId != old(m).pending.value.bootId
          && m.boot.saved == Some(s) && ConfirmedOn(m.log, s, m.live.bootId)
      ensures r.Ok? ==> old(m).pending.Some? && m == Finished(old(Committed()), old(m).pending.value.record)
      ensures m.good != old(m).good ==>
        old(m).pending.Some? &&
        Finished(m, old(m).pending.value.record) == Finished(old(Committed()), old(m).pending.value.record)
      ensures !old(TrialBooted()) ==> r.Failed? && m == old(m)
      ensures undisturbed && old(TrialBooted()) ==>
        var s := old(m).live.running;
        if Healthy(old(m), SystemHealth, s) && Healthy(old(m), DesktopRequired, s) then r.Ok?
        else r.Failed? && m == old(m).(log := m.log)
    {
      if !TrialBooted() {
        return Failed;
      }
      var record := m.pending.value.record;
      :- CheckTrial(record);
      :- CommitTrial(record);
      :- Query();
      :- Effect(m.(good := m.good + {record.id}));
      r := FinishConfirmation(record);
    }

    // The candidate of a pending trial is running, after a boot of its own.
    predicate TrialBooted()
      reads this
    {
      && m.pending.Some? && m.pending.value.TrialPending?
      && m.live.running == m.live.booted == m.pending.value.record.system && m.live.bootId != m.pending.value.bootId
    }

    method CheckTrial(record: Record) returns (r: Reply)
      requires Inv(m)
      modifies this
      ensures Inv(m) && m == old(m).(log := m.log)
      ensures r.Ok? ==> m == old(Checked())
      ensures undisturbed ==>
        var s := m.live.running;
        r == if Healthy(old(m), SystemHealth, s) && Healthy(old(m), DesktopRequired, s) then Ok else Failed
      ensures r.Ok? ==> ConfirmedOn(m.log, m.live.running, m.live.bootId) || m.live.running != m.live.booted
    {
      r := Ok;
      :- Health(SystemHealth);
      r := Health(DesktopRequired);
      assert r.Ok? ==> m.log == old(Checked()).log;
    }

    method CommitTrial(record: Record) returns (r: Reply)
      requires Inv(m) && m.pending.Some? && m.pending.value.TrialPending? && m.pending.value.record == record
      requires m.boot.oneshot.None? && Confirmed(m.log, record.system)
      modifies this
      ensures Inv(m) && m == old(m).(boot := m.boot)
      ensures m.boot in {old(m).boot, old(m).boot.(saved := Some(record.system))}
      ensures r.Ok? ==> m.boot == old(m).boot.(saved := Some(record.system))
      ensures undisturbed ==> r.Ok?
    {
      if record.system !in m.boot.menu {
        return Failed;
      }
      r := SetBoot(m.boot.(saved := Some(record.system)));
    }

    // ------------------------------------------------------------------------------------------------------------
    // Recovery after an interruption
    // ------------------------------------------------------------------------------------------------------------

    // What a recovery makes of a pending trial. A trial that booted keeps waiting if its system is healthy, with the check
    // on record, and is restored if it is not.
    ghost predicate RecoveredTrial(n: Machine, t: Machine, record: Record, r: Reply)
      requires n.pending.Some? && n.pending.value.TrialPending?
    {
      if n.live.bootId == n.pending.value.bootId then t == n && r.Ok?
      else if n.live.running != record.system || n.live.booted != record.system then RecoveredBy(n, t, record, r)
      else if record.id in n.good then
        && t == n.(deployed := t.deployed, status := t.status, pending := t.pending, settled := t.settled)
        && (r.Ok? || undisturbed ==> r.Ok? && t.pending.None?)
        && (t.pending == n.pending || t.pending == None)
        && (t.pending.None? ==> t == Finished(n, record))
        && Finished(t, record) == Finished(n, record)
      else
        || (t == n && r.PowerLost? && !undisturbed)
        || (Waits(n, t, record) && Healthy(n, SystemHealth, record.system)
              && (r.Ok? || undisturbed ==> r.Ok? && t.status == Status(AwaitingLogin, n.status.transaction)))
        || (RecoveredBy(n, t, record, r) && !(undisturbed && Healthy(n, SystemHealth, record.system)))
    }

    ghost predicate Waits(n: Machine, t: Machine, record: Record) {
      && t == n.(log := n.log + {Passed(SystemHealth, record.system, record.system, n.live.bootId)}, status := t.status)
      && t.status in {n.status, Status(AwaitingLogin, n.status.transaction)}
    }

    // A restoration of the previous generation, completed or still journaled.
    ghost predicate RecoveredBy(n: Machine, t: Machine, record: Record, r: Reply) {
      && Toward(n, t, record, false)
      && (r.Ok? ==> t.pending.None?)
      && (t.pending.None? ==> Durable(t) == Goal(n, record, false) && RolledBackTo(t, record))
      && (undisturbed ==> r == if Healthy(n, SystemHealth, record.previous) then Ok else Failed)
    }

    /** What runs at boot. An interrupted cleanup is resumed; an interrupted activation or restoration is restored; a trial
        that did not boot, or fails its health check, is restored; a trial with a success marker is finished; any other
        trial keeps waiting. */
    method Recover() returns (r: Reply)
      requires Inv(m)
      modifies this
      ensures Inv(m)
      ensures AtRest(old(m)) ==> m == old(m).(status := m.status)
      ensures AtRest(old(m)) && r.Ok? ==>
        m.status == if old(m).status.state.Busy() then Status(Interrupted, old(m).status.transaction) else old(m).status
      ensures old(m).storage.cleanup.Some? ==> SweptOn(old(m), m, r)
      ensures old(m).pending.Some? && !old(m).pending.value.TrialPending? ==>
        var record, preserve := old(m).pending.value.record, old(Preserves(m));
        && Toward(old(m), m, record, preserve)
        && (r.Ok? ==> m.pending.None?)
        && (m.pending.None? ==> Durable(m) == Goal(old(m), record, preserve) && RolledBackTo(m, record))
        && (undisturbed ==> r == if Healthy(old(m), SystemHealth, record.previous) then Ok else Failed)
      // An interrupted activation keeps the personal selection unless the candidate's was selected; an interrupted
      // restoration does what it had decided.
      ensures old(m).pending.Some? && !old(m).pending.value.TrialPending? && m.pending.None? ==>
        var record := old(m).pending.value.record;
        var preserve := match old(m).pending.value
                        case RecoveryPending(_, decided) => decided
                        case _ => old(m).working.owner != Trial(record.id);
        m.working == if preserve then old(m).working else Workspace(Rollback(record.id), record.fallback.content)
      ensures old(m).pending.Some? && old(m).pending.value.TrialPending? ==>
        RecoveredTrial(old(m), m, old(m).pending.value.record, r)
      ensures undisturbed && AtRest(old(m)) ==> r.Ok?
      ensures undisturbed && old(m).storage.cleanup.Some? ==>
        (r.Ok? <==> CanFinish(old(m)) && Healthy(old(m), SystemHealth, old(m).live.running))
    {
      r := ResumeCleanup();
      if !r.Ok? {
        return;
      }
      if m.pending.None? {
        if m.status.state.Busy() {
          r := SetStatus(Interrupted, m.status.transaction);
        }
        return;
      }
      var pending := m.pending.value;
      if !pending.TrialPending? {
        r := Restore(pending.record, Preserves(m));
        return;
      }
      r := RecoverTrial(pending.record);
    }

    method RecoverTrial(record: Record) returns (r: Reply)
      requires Inv(m) && m.pending.Some? && m.pending.value.TrialPending? && m.pending.value.record == record
      modifies this
      ensures Inv(m) && RecoveredTrial(old(m), m, record, r)
    {
      if m.live.bootId == m.pending.value.bootId {
        return Ok;
      }
      if m.live.running != record.system || m.live.booted != record.system {
        r := Restore(record, false);
        return;
      }
      if record.id in m.good {
        r := FinishConfirmation(record);
        return;
      }
      r := Health(SystemHealth);
      if r.PowerLost? {
        return;
      }
      if r.Failed? {
        r := Restore(record, false);
        return;
      }
      r := SetStatus(AwaitingLogin, m.status.transaction);
    }

    /** Explicit rollback of the pending deployment, or of a retained one. A journaled cleanup comes first, and a retired
        deployment cannot be rolled back to. */
    method RollBack(id: Option<Id>) returns (r: Reply)
      requires Inv(m)
      modifies this
      ensures Inv(m)
      ensures var known := if id.None? then old(m).pending.Some?
                           else id.value in old(m).records && id.value !in old(m).storage.retired;
        if old(m).storage.cleanup.Some? || !known then r.Failed? && m == old(m)
        else
          var record := if id.None? then old(m).pending.value.record else old(m).records[id.value];
          && Toward(old(m), m, record, false)
          && (r.Ok? ==>
                && Durable(m) == Goal(old(m), record, false) && RolledBackTo(m, record)
                && m.working == Workspace(Rollback(record.id), record.fallback.content)
                && (m.deployed.builds == Selection(m.boot) <==> Coherent(record)))
          && (undisturbed ==> r == if Healthy(old(m), SystemHealth, record.previous) then Ok else Failed)
    {
      var target := Target(id);
      if m.storage.cleanup.Some? || target.None? {
        return Failed;
      }
      r := Restore(target.value, false);
    }

    function Target(id: Option<Id>): Option<Record>
      reads this
    {
      if id.None? then (if m.pending.Some? then Some(m.pending.value.record) else None)
      else if id.value in m.records && id.value !in m.storage.retired then Some(m.records[id.value]) else None
    }

    // ------------------------------------------------------------------------------------------------------------
    // Staging
    // ------------------------------------------------------------------------------------------------------------

    predicate Quarantined(system: System)
      reads this
    {
      exists f :: f in m.failed && f in m.records && m.records[f].system == system && f !in m.authorized
    }

    /** Stage a deployment of a built system. A system that was rolled back is refused until its retry is authorized.
        The staged record is coherent exactly when the machine runs the system of the deployed configuration. */
    method Stage(id: Id, system: System, config: Content, token: nat) returns (r: Reply)
      requires Inv(m)
      modifies this
      ensures Inv(m) && m.boot == old(m).boot && m.pending == old(m).pending && m.live == old(m).live
      ensures m.records == old(m).records || (id !in old(m).records && id in m.records && m.records - {id} == old(m).records)
      ensures m.records != old(m).records ==>
        && m.records[id].system == system && (Coherent(m.records[id]) <==> old(m).live.running == old(m).deployed.builds)
        && (forall f :: f in old(m).failed && f in old(m).records && old(m).records[f].system == system ==>
              f in old(m).authorized)
      ensures m.records != old(m).records || r.Ok? ==> AtRest(old(m))
      ensures r.Ok? ==> m == old(Prepared(id, system, config, token))
      ensures m.status.state.Ready? ==> old(m).status == m.status || m.pending.None?
      // The permissions to retry the system are used up, and no others.
      ensures r.Ok? ==> forall f :: f in m.authorized <==>
        f in old(m).authorized && !(f in old(m).failed && f in old(m).records && old(m).records[f].system == system)
      ensures !AtRest(old(m)) || id in old(m).records ==> r.Failed? && m == old(m)
      ensures undisturbed && AtRest(old(m)) && id !in old(m).records ==>
        if exists f :: f in old(m).failed - old(m).authorized && f in old(m).records && old(m).records[f].system == system
        then r.Failed? && m == old(m).(status := Status(StagingFailed, Some(id))) else r.Ok?
    {
      if !AtRest(m) || id in m.records {
        return Failed;
      }
      :- SetStatus(Discovering, Some(id));
      r := Build(id, system, config, token);
      if r.Failed? {
        r := SetStatus(StagingFailed, Some(id));
        r := if r.PowerLost? then r else Failed;
      }
    }

    // The state after a deployment was staged.
    function Prepared(id: Id, system: System, config: Content, token: nat): Machine
      reads this
    {
      var record := Record(id, system, m.live.running, m.working.content, config, m.deployed, token);
      Staged(m, record).(status := Status(Ready, Some(id)), authorized := m.authorized - Rejected(system))
    }

    method Build(id: Id, system: System, config: Content, token: nat) returns (r: Reply)
      requires Inv(m) && AtRest(m) && id !in m.records && m.status.state.Discovering?
      modifies this
      ensures Inv(m) && m == old(m).(records := m.records, status := m.status, authorized := m.authorized)
      ensures m.records == old(m).records ||
        m.records == old(m).records[id := Record(id, system, m.live.running, m.working.content, config, m.deployed, token)]
      ensures m.records != old(m).records ==> !old(Quarantined(system)) && id in m.records
      ensures m.status in {old(m).status, Status(Ready, Some(id))}
      ensures r.Ok? ==> id in m.records && m == old(Prepared(id, system, config, token))
      ensures old(Quarantined(system)) ==> !r.Ok? && m == old(m)
      ensures undisturbed ==> r == if old(Quarantined(system)) then Failed else Ok
    {
      r := Ok;
      :- Query();
      if Quarantined(system) {
        return Failed;
      }
      :- File(Record(id, system, m.live.running, m.working.content, config, m.deployed, token));
      r := SpendAuthorizations(system);
    }

    // The record makes a deployment; the status offers it for review.
    method File(record: Record) returns (r: Reply)
      requires Inv(m) && AtRest(m) && record.id !in m.records && m.status.state.Discovering?
      requires record.previous == m.live.running && record.fallback == m.deployed
      modifies this
      ensures Inv(m) && m in {old(m), old(Staged(m, record)), old(Staged(m, record)).(status := m.status)}
      ensures m.status in {old(m).status, Status(Ready, Some(record.id))}
      ensures r.Ok? ==> m == old(Staged(m, record)).(status := Status(Ready, Some(record.id)))
      ensures undisturbed ==> r.Ok?
    {
      RecordKeepsInv(m, record);
      :- Effect(Staged(m, record));
      r := Effect(m.(status := Status(Ready, Some(record.id))));
    }

    // The deployments that were rolled back from a system.
    function Rejected(system: System): set<Id>
      reads this
    {
      set f | f in m.failed && f in m.records && m.records[f].system == system
    }

    // A staged deployment uses up the permissions to retry its system.
    method SpendAuthorizations(system: System) returns (r: Reply)
      requires Inv(m)
      modifies this
      ensures Inv(m) && m == old(m).(authorized := m.authorized)
      ensures old(m).authorized - old(Rejected(system)) <= m.authorized <= old(m).authorized
      ensures r.Ok? ==> m.authorized == old(m).authorized - old(Rejected(system))
      ensures undisturbed ==> r.Ok?
    {
      r := Ok;
      var todo := Rejected(system);
      while todo != {}
        invariant Inv(m) && m == old(m).(authorized := m.authorized) && r.Ok? && todo <= old(Rejected(system))
        invariant m.authorized == old(m).authorized - (old(Rejected(system)) - todo)
      {
        var f :| f in todo;
        :- Effect(m.(authorized := m.authorized - {f}));
        todo := todo - {f};
      }
    }

    /** Authorize another attempt of a system that was rolled back, for every deployment that failed with it. */
    method AuthorizeRetry(id: Id) returns (r: Reply)
      requires Inv(m)
      modifies this
      ensures Inv(m) && m == old(m).(authorized := m.authorized) && old(m).authorized <= m.authorized
      ensures id !in old(m).failed || id !in old(m).records ==> r.Failed? && m == old(m)
      ensures id in old(m).records ==>
        forall f :: f in m.authorized && f !in old(m).authorized ==>
          f in old(m).failed && f in old(m).records && old(m).records[f].system == old(m).records[id].system
      ensures r.Ok? ==>
        forall f :: f in old(m).failed && f in old(m).records && old(m).records[f].system == old(m).records[id].system ==>
          f in m.authorized
      ensures undisturbed && id in old(m).failed && id in old(m).records ==> r.Ok?
    {
      if id !in m.failed || id !in m.records {
        return Failed;
      }
      r := Ok;
      ghost var same := Rejected(m.records[id].system);
      var todo := Rejected(m.records[id].system);
      while todo != {}
        invariant Inv(m) && m == old(m).(authorized := m.authorized) && r.Ok? && todo <= same
        invariant old(m).authorized <= m.authorized <= old(m).authorized + same && same - todo <= m.authorized
      {
        var f :| f in todo;
        :- Effect(m.(authorized := m.authorized + {f}));
        todo := todo - {f};
      }
    }

    // ------------------------------------------------------------------------------------------------------------
    // Storage cleanup
    // ------------------------------------------------------------------------------------------------------------

    /** Carry out a reviewed cleanup, which needs a machine at rest that booted what it runs. The journal precedes every
        effect. The cleanup selects the running system and leaves the deployed configuration as it is. */
    method CleanUp(candidates: set<Id>, dropped: set<System>) returns (r: Reply)
      requires Inv(m)
      modifies this
      ensures Inv(m)
      ensures !old(MayCleanUp(candidates, dropped)) ==> r.Failed? && m == old(m)
      // It starts only on a machine at rest that booted what it runs, and only for deployments that were confirmed and
      // never rolled back. Generations of the running system, and those that another retained deployment refers to, stay.
      ensures m != old(m).(log := m.log) ==>
        && old(m).pending.None? && old(m).storage.cleanup.None? && old(m).live.running == old(m).live.booted
        && candidates <= old(m).good - old(m).failed && old(m).live.running !in dropped
        && (forall id, s :: id in old(m).records && id !in old(m).storage.retired + candidates && s in dropped ==>
              old(m).records[id].system != s && old(m).records[id].previous != s)
      ensures m == old(m).(log := m.log) || SweptOn(old(Journaled(candidates, dropped)), m, r)
      ensures r.Ok? ==> Durable(m) == Durable(Swept(old(Journaled(candidates, dropped))))
      ensures r.Ok? && candidates != {} ==>
        && Selection(m.boot) == DefaultTarget(m.boot) == old(m).live.running
        && (m.deployed.builds == Selection(m.boot) <==> old(m).deployed.builds == old(m).live.running)
      ensures undisturbed && old(MayCleanUp(candidates, dropped)) && Last(old(m).boot) !in dropped ==>
        r == if Healthy(old(m), SystemHealth, old(m).live.running) then Ok else Failed
    {
      if !MayCleanUp(candidates, dropped) {
        return Failed;
      }
      r := CarryOutCleanUp(candidates, dropped);
    }

    method CarryOutCleanUp(candidates: set<Id>, dropped: set<System>) returns (r: Reply)
      requires Inv(m) && MayCleanUp(candidates, dropped)
      modifies this
      ensures Inv(m)
      ensures m == old(m).(log := m.log) || SweptOn(old(Journaled(candidates, dropped)), m, r)
      ensures r.Ok? ==> Durable(m) == Durable(Swept(old(Journaled(candidates, dropped))))
      ensures r.Ok? && candidates != {} ==>
        && Selection(m.boot) == DefaultTarget(m.boot) == old(m).live.running
        && (m.deployed.builds == Selection(m.boot) <==> old(m).deployed.builds == old(m).live.running)
      ensures undisturbed && Last(old(m).boot) !in dropped ==>
        r == if Healthy(old(m), SystemHealth, old(m).live.running) then Ok else Failed
    {
      ghost var journaled := Journaled(candidates, dropped);
      :- StartCleanUp(candidates, dropped);
      ghost var logged := m;
      r := ResumeCleanup();
      LogLeavesSweep(journaled, logged, m, r);
      if r.Ok? && candidates != {} {
        SweptSelects(journaled, m);
      }
    }

    method StartCleanUp(candidates: set<Id>, dropped: set<System>) returns (r: Reply)
      requires Inv(m) && MayCleanUp(candidates, dropped)
      modifies this
      ensures Inv(m)
      ensures m == old(m).(log := m.log) || m == old(Journaled(candidates, dropped)).(log := m.log)
      ensures r.Ok? ==> m == old(Journaled(candidates, dropped)).(log := m.log)
      ensures !r.Ok? ==> m == old(m).(log := m.log) || m.storage.cleanup.Some?
      ensures undisturbed ==> r == if Healthy(old(m), SystemHealth, old(m).live.running) then Ok else Failed
      ensures undisturbed && !r.Ok? ==> m == old(m)
    {
      r := Ok;
      :- Health(SystemHealth);
      r := JournalCleanup(candidates, dropped);
    }

    method JournalCleanup(candidates: set<Id>, dropped: set<System>) returns (r: Reply)
      requires Inv(m) && MayCleanUp(candidates, dropped)
      modifies this
      ensures Inv(m) && (m == old(m) || m == old(Journaled(candidates, dropped)))
      ensures r.Ok? ==> m == old(Journaled(candidates, dropped))
      ensures undisturbed ==> r.Ok?
    {
      r := Effect(Journaled(candidates, dropped));
    }

    predicate MayCleanUp(candidates: set<Id>, dropped: set<System>)
      reads this
    {
      AtRest(m) && !m.status.state.Unfinished() && m.live.running == m.live.booted && PlanFits(m, candidates, dropped)
    }

    /** A cleanup may start at rest, with no update under way and the running system booted. It retires deployments that
        are confirmed, never failed and not retired, none of the running system and only if one of that is kept. It drops
        generations of systems that only those, and retired ones, refer to. */
    lemma MayCleanUpIff(candidates: set<Id>, dropped: set<System>)
      ensures MayCleanUp(candidates, dropped) <==>
        && m.pending.None? && m.storage.cleanup.None? && m.live.running == m.live.booted
        && m.status.state !in {Discovering, Ready, Activating, AwaitingBoot, AwaitingLogin, Recovering, RecoveryFailed}
        && (forall id :: id in candidates ==> id in m.good && id !in m.failed && id !in m.storage.retired)
        && (candidates == {} || exists id :: id in m.records && m.records[id].system == m.live.running
                                              && id in m.good && id !in m.storage.retired)
        && (forall id :: id in candidates && id in m.records ==>
              m.records[id].system != m.live.running && m.records[id].previous != m.live.running)
        && (forall s :: s in dropped ==> s != m.live.running)
        && (forall s :: s in dropped ==>
              exists id :: id in candidates && id in m.records && (m.records[id].system == s || m.records[id].previous == s))
        && (forall id, s :: s in dropped && id in m.records && id !in m.storage.retired && id !in candidates ==>
              m.records[id].system != s && m.records[id].previous != s)
    {
      forall s | s in dropped
        ensures (exists id :: id in candidates && id in m.records && Refers(m.records[id], s)) <==>
          exists id :: id in candidates && id in m.records && (m.records[id].system == s || m.records[id].previous == s)
      {
      }
    }

    function Journaled(candidates: set<Id>, dropped: set<System>): Machine
      reads this
    {
      m.(storage := m.storage.(cleanup := Some(Sweep(m.live.running, dropped, candidates, candidates != {}))))
    }

    /** Continue a journaled cleanup, from the system that started it. Cut short anywhere, it stays journaled and leads to
        the same state. */
    method ResumeCleanup() returns (r: Reply)
      requires Inv(m)
      modifies this
      ensures Inv(m)
      ensures old(m).storage.cleanup.None? ==> r.Ok? && m == old(m)
      ensures old(m).storage.cleanup.Some? ==>
        && SweptOn(old(m), m, r)
        && (!CanFinish(old(m)) ==> !r.Ok? && m.storage.cleanup.Some?)
        && (undisturbed && CanFinish(old(m)) ==>
              r == if Healthy(old(m), SystemHealth, old(m).live.running) then Ok else Failed)
    {
      r := Ok;
      if m.storage.cleanup.None? {
        return;
      }
      var sweep := m.storage.cleanup.value;
      if m.live.running != sweep.current || m.live.booted != sweep.current {
        return Failed;
      }
      :- Health(SystemHealth);
      if sweep.dropping {
        :- DropAndSelect(sweep);
      }
      r := RetireCandidates(sweep);
    }

    // Drop the planned generations, reinstall the menu from the others and select the running system.
    method DropAndSelect(sweep: Sweep) returns (r: Reply)
      requires Inv(m) && m.storage.cleanup == Some(sweep) && sweep.dropping
      requires m.live.running == m.live.booted == sweep.current
      modifies this
      ensures Inv(m) && Sweeps(old(m), m)
      ensures r.Ok? ==> m.storage.cleanup == Some(sweep.(dropping := false))
      ensures Last(old(m).boot) in sweep.dropped ==> !r.Ok?
      ensures undisturbed && Last(old(m).boot) !in sweep.dropped ==> r.Ok?
    {
      r := Ok;
      :- DropGenerations(sweep);
      :- SelectCurrent(sweep);
      r := Effect(m.(storage := m.storage.(cleanup := Some(sweep.(dropping := false)))));
    }

    // The profile's own generation, the newest one, is never deleted.
    method DropGenerations(sweep: Sweep) returns (r: Reply)
      requires Inv(m) && m.storage.cleanup == Some(sweep) && sweep.dropping
      modifies this
      ensures Inv(m) && m == old(m).(boot := old(m).boot.(generations := m.boot.generations))
      ensures Kept(m.boot.generations, sweep.dropped) == Kept(old(m).boot.generations, sweep.dropped)
      ensures r.Ok? ==> m.boot.generations == Kept(old(m).boot.generations, sweep.dropped)
      ensures Last(old(m).boot) in sweep.dropped ==> !r.Ok?
      ensures undisturbed && Last(old(m).boot) !in sweep.dropped ==> r.Ok?
    {
      r := Ok;
      var i := 0;
      while i < |m.boot.generations|
        invariant Inv(m) && m == old(m).(boot := old(m).boot.(generations := m.boot.generations)) && r.Ok?
        invariant i <= |m.boot.generations|
        invariant forall k :: 0 <= k < i ==> m.boot.generations[k] !in sweep.dropped
        invariant Last(m.boot) == Last(old(m).boot)
        invariant Kept(m.boot.generations, sweep.dropped) == Kept(old(m).boot.generations, sweep.dropped)
        decreases |m.boot.generations| - i
      {
        if m.boot.generations[i] !in sweep.dropped {
          i := i + 1;
        } else if i == |m.boot.generations| - 1 {
          return Failed;
        } else {
          :- DropGeneration(sweep, i);
        }
      }
      KeepsAll(m.boot.generations, sweep.dropped);
    }

    method DropGeneration(sweep: Sweep, i: nat) returns (r: Reply)
      requires Inv(m) && m.storage.cleanup == Some(sweep) && sweep.dropping
      requires i < |m.boot.generations| - 1 && m.boot.generations[i] in sweep.dropped
      modifies this
      ensures Inv(m) && m == old(m).(boot := old(m).boot.(generations := m.boot.generations))
      ensures m.boot.generations in {old(m).boot.generations, Without(old(m).boot.generations, i)}
      ensures Kept(m.boot.generations, sweep.dropped) == Kept(old(m).boot.generations, sweep.dropped)
      ensures Last(m.boot) == Last(old(m).boot)
      ensures r.Ok? ==> m.boot.generations == Without(old(m).boot.generations, i)
      ensures undisturbed ==> r.Ok?
    {
      KeptWithout(m.boot.generations, i, sweep.dropped);
      NewestWithout(m.boot.generations, i, MENU_LIMIT, sweep.current);
      r := SetBoot(m.boot.(generations := Without(m.boot.generations, i)));
    }

    // The menu is led by the current system and still lists it.
    method SelectCurrent(sweep: Sweep) returns (r: Reply)
      requires Inv(m) && m.storage.cleanup == Some(sweep) && sweep.dropping && m.live.running == sweep.current
      modifies this
      ensures Inv(m) && m == old(m).(boot := m.boot, settled := m.settled)
      ensures m.boot in {old(m).boot, WithMenu(old(m).boot, sweep.current),
                         WithMenu(old(m).boot, sweep.current).(saved := Some(sweep.current))}
      ensures m.settled in {old(m).settled, ByCleanup(sweep.current, m.deployed.builds)}
      ensures r.Ok? ==> m.boot == WithMenu(old(m).boot, sweep.current).(saved := Some(sweep.current))
      ensures r.Ok? ==> m.settled == ByCleanup(sweep.current, m.deployed.builds)
      ensures undisturbed ==> r.Ok?
    {
      LastIsNewest(m.boot.generations);
      :- SetBoot(WithMenu(m.boot, sweep.current));
      if sweep.current !in m.boot.menu {
        return Failed;
      }
      r := Effect(m.(boot := m.boot.(saved := Some(sweep.current)),
                     settled := ByCleanup(sweep.current, m.deployed.builds)));
    }

    // Retire the planned deployments, collect garbage, and only then drop the journal.
    method RetireCandidates(sweep: Sweep) returns (r: Reply)
      requires Inv(m) && m.storage.cleanup == Some(sweep.(dropping := false))
      modifies this
      ensures Inv(m) && SweptOn(old(m), m, r)
      ensures undisturbed ==> r.Ok?
    {
      r := Ok;
      var todo := sweep.candidates;
      while todo != {}
        invariant Inv(m) && r.Ok? && todo <= sweep.candidates
        invariant m == old(m).(storage := Storage(old(m).storage.cleanup,
                                                  old(m).storage.retired + (sweep.candidates - todo)))
      {
        var id :| id in todo;
        :- SetStorage(Storage(m.storage.cleanup, m.storage.retired + {id}));
        todo := todo - {id};
      }
      :- Query();
      r := SetStorage(Storage(None, m.storage.retired));
    }

    method SetStorage(storage: Storage) returns (r: Reply)
      requires Inv(m) && !Dropping(m) && (storage.cleanup == m.storage.cleanup || storage.cleanup == None)
      modifies this
      ensures Inv(m) && m == old(m).(storage := m.storage) && m.storage in {old(m).storage, storage}
      ensures r.Ok? ==> m.storage == storage
      ensures undisturbed ==> r.Ok?
    {
      r := Effect(m.(storage := storage));
    }

    // ------------------------------------------------------------------------------------------------------------
    // Runs
    // ------------------------------------------------------------------------------------------------------------

    method Reboot(choice: Option<System>)
      requires Inv(m)
      modifies this
      ensures Inv(m) && m == Rebooted(old(m), choice)
    {
      RebootKeepsInv(m, choice);
      m := Rebooted(m, choice);
    }

    /** Any sequence of commands, boots and edits, each command ending normally, failing, or cut short between any two
        of its effects: the invariant holds throughout. With nothing pending what boots by default is vouched for, and
        the default is the deployed generation while every filed record is coherent and no cleanup selected another
        system that was booted by hand. */
    method Run(commands: seq<Command>)
      requires Inv(m)
      modifies this
      ensures Inv(m)
      ensures m.pending.None? ==> Vouched(m, DefaultTarget(m.boot))
      ensures m.pending.None? ==> (m.deployed.builds == Selection(m.boot) <==> m.settled.Agrees())
      ensures AtRest(m) ==> Selection(m.boot) == DefaultTarget(m.boot)
      ensures AtRest(m) && AllCoherent(m) && !(m.settled.ByCleanup? && m.settled.running != m.settled.deployed) ==>
        m.deployed.builds == DefaultTarget(m.boot)
    {
      for i := 0 to |commands|
        invariant Inv(m)
      {
        match commands[i] {
          case DoStage(id, system, config, token) => var _ := Stage(id, system, config, token);
          case DoApply(id, token) => var _ := Apply(id, token);
          case DoRecover => var _ := Recover();
          case DoConfirm => var _ := Confirm();
          case DoRollBack(id) => var _ := RollBack(id);
          case DoAuthorize(id) => var _ := AuthorizeRetry(id);
          case DoReboot(choice) => Reboot(choice);
          case DoCleanUp(candidates, dropped) => var _ := CleanUp(candidates, dropped);
          case DoResume => var _ := ResumeCleanup();
          case DoEdit(content) => Edit(content);
        }
      }
    }

    // One more attempt to recover towards the goal of the state `start`.
    method RecoverOnce(ghost start: Machine, ghost record: Record, ghost preserve: bool)
      requires Inv(m) && m.pending.Some? && !m.pending.value.TrialPending?
      requires m.pending.value.record == record && Preserves(m) == preserve
      requires SameGoal(start, m, record, preserve)
      modifies this
      ensures Inv(m)
      ensures m.pending.None? ==> Durable(m) == Goal(start, record, preserve)
      ensures m.pending.Some? ==>
        && !m.pending.value.TrialPending? && m.pending.value.record == record && Preserves(m) == preserve
        && SameGoal(start, m, record, preserve)
      ensures StaysListed(old(m).boot, record.previous) ==> StaysListed(m.boot, record.previous)
    {
      var _ := Recover();
      SameGoalMeans(start, old(m), record, preserve);
      if m.pending.Some? {
        PreservesStays(old(m), m, record);
        SameGoalTrans(start, old(m), m, record, preserve);
      }
    }

    /** However often recoveries of an interrupted activation or restoration are cut short, and whatever is booted in
        between, the recovery that completes leaves the state that one uninterrupted restoration would have left. */
    method RecoverRepeatedly(boots: seq<Option<Option<System>>>)
      requires Inv(m) && m.pending.Some? && !m.pending.value.TrialPending?
      modifies this
      ensures Inv(m)
      ensures m.pending.None? ==> Durable(m) == Goal(old(m), old(m).pending.value.record, old(Preserves(m)))
      ensures StaysListed(old(m).boot, old(m).pending.value.record.previous) ==> Listed(m.boot)
    {
      ghost var record, preserve := m.pending.value.record, Preserves(m);
      for i := 0 to |boots|
        invariant Inv(m) && m.pending.Some? && !m.pending.value.TrialPending?
        invariant m.pending.value.record == record && Preserves(m) == preserve
        invariant SameGoal(old(m), m, record, preserve)
        invariant StaysListed(old(m).boot, record.previous) ==> StaysListed(m.boot, record.previous)
      {
        RecoverOnce(old(m), record, preserve);
        if m.pending.None? {
          return;
        }
        if boots[i].Some? {
          ghost var recovered := m;
          Reboot(boots[i].value);
          RebootKeepsGoal(recovered, boots[i].value, record, preserve);
          SameGoalTrans(old(m), recovered, m, record, preserve);
        }
      }
    }

    /** A confirmation that was cut short after its success marker is finished by the recoveries that follow, however
        often they are cut short and the machine boots its default, in the state the uninterrupted confirmation would
        have left. */
    method FinishRepeatedly(boots: seq<bool>)
      requires Inv(m) && m.pending.Some? && m.pending.value.TrialPending?
      requires m.pending.value.record.id in m.good && m.live.bootId > m.pending.value.bootId
      requires m.live.running == m.live.booted == m.pending.value.record.system
      modifies this
      ensures Inv(m)
      ensures m.pending.None? ==> Durable(m) == Durable(Finished(old(m), old(m).pending.value.record))
    {
      for i := 0 to |boots|
        invariant Inv(m) && m.pending == old(m).pending && m.good == old(m).good
        invariant m.live.running == m.live.booted == m.pending.value.record.system
        invariant m.live.bootId > m.pending.value.bootId
        invariant Durable(Finished(m, m.pending.value.record)) == Durable(Finished(old(m), m.pending.value.record))
      {
        var _ := Recover();
        if m.pending.None? {
          return;
        }
        if boots[i] {
          Reboot(None);
        }
      }
    }
  }

  lemma LastIsNewest(generations: seq<System>)
    requires generations != []
    ensures generations[|generations| - 1] in Newest(generations, MENU_LIMIT)
  {
  }

  lemma LogKeepsInv(m: Machine, log: set<Passed>)
    requires Inv(m) && m.log <= log
    ensures Inv(m.(log := log))
  {
    var t := m.(log := log);
    forall s | Vouched(m, s)
      ensures Vouched(t, s)
    {
      VouchedStays(m, t, s);
    }
    forall s | Confirmed(m.log, s)
      ensures Confirmed(log, s)
    {
      var b: nat :| ConfirmedOn(m.log, s, b);
      assert ConfirmedOn(log, s, b);
    }
  }
}
