/** The coordinated change of a login password and the disk key that must equal it.

    LUKS keyslots, the shadow entry and the journal file are separate durable stores. Every command can fail, or the
    machine can lose power, before or after the command took its effect. The contracts below hold for each of those
    outcomes; `Valid` is the promise that the disk can still be unlocked with the login password.
 */
module PasswordChange {
  import opened Wrappers

  datatype Reason =
    | Policy | NoInstallationRecord | WrongPassword | NoDiskKeyMatches | NoFreeSlot
    | ForeignJournal | ManualRecovery
    | CommandFailed
    | Unverified | Retained | RetainedNeedsCleanup | CommittedNeedsCleanup | CommittedWithoutIntegration
  {
    // What a refusal tells the user about the login password.
    predicate SaysUnchanged() {
      !Unverified? && !SaysCommitted()
    }

    predicate SaysCommitted() {
      CommittedNeedsCleanup? || CommittedWithoutIntegration?
    }
  }

  // How one command, or the whole operation, ended. After `PowerLost` nothing more is executed.
  datatype Reply = Ok | Failed(reason: Reason) | PowerLost {
    predicate IsFailure() {
      !Ok?
    }

    function PropagateFailure(): Reply {
      this
    }
  }

  // How `passwd` ends: it may reject the change, or break off after it wrote the new password.
  datatype Ending = Accepts | Rejects | BreaksOff

  datatype Message = Changed | AlreadySet

  // The durable record of an operation in progress. It holds no key material.
  datatype Journal = Journal(username: string, device: string, oldSlot: nat, newSlot: nat) {
    predicate Names(slot: nat) {
      slot == oldSlot || slot == newSlot
    }
  }

  type Slots = map<nat, string>

  const SLOT_COUNT := 32

  predicate Opens(slots: Slots, slot: nat, password: string) {
    slot in slots && slots[slot] == password
  }

  // The slot that unlocks with a password when slots are tried in ascending order.
  function LowestSlot(slots: Slots, password: string, from: nat := 0): (r: Option<nat>)
    requires from <= SLOT_COUNT
    ensures r.Some? ==> from <= r.value < SLOT_COUNT && Opens(slots, r.value, password)
    ensures r.Some? ==> forall k :: from <= k < r.value ==> !Opens(slots, k, password)
    ensures r.None? ==> forall k :: from <= k < SLOT_COUNT ==> !Opens(slots, k, password)
    decreases SLOT_COUNT - from
  {
    if from == SLOT_COUNT then None
    else if Opens(slots, from, password) then Some(from)
    else LowestSlot(slots, password, from + 1)
  }

  predicate Full(slots: Slots) {
    forall k: nat :: k < SLOT_COUNT ==> k in slots
  }

  // The bytes of a character in UTF-8, and of a text.
  function CharSize(c: char): nat {
    if c as int < 0x80 then 1 else if c as int < 0x800 then 2 else if c as int < 0x10000 then 3 else 4
  }

  function Utf8Size(s: string): nat
    decreases |s|
  {
    if s == [] then 0 else Utf8Size(s[..|s| - 1]) + CharSize(s[|s| - 1])
  }

  predicate Printable(password: string) {
    Utf8Size(password) <= 4096 && '\0' !in password && '\n' !in password && '\r' !in password
  }

  /** A text has between one and four bytes a character. */
  lemma {:induction false} Utf8SizeIsBounded(s: string)
    ensures |s| <= Utf8Size(s) <= 4 * |s|
    ensures (forall i :: 0 <= i < |s| ==> s[i] as int < 0x80) ==> Utf8Size(s) == |s|
    decreases |s|
  {
    if s != [] {
      Utf8SizeIsBounded(s[..|s| - 1]);
    }
  }

  /** Of texts in ASCII, those of at most 4096 characters without line breaks and zeros can be typed in. */
  lemma PlainIsPrintable(s: string)
    requires forall i :: 0 <= i < |s| ==> s[i] as int < 0x80
    ensures Printable(s) <==> |s| <= 4096 && forall i :: 0 <= i < |s| ==> s[i] !in {'\0', '\n', '\r'}
  {
    Utf8SizeIsBounded(s);
  }

  // What an interrupted operation leaves behind: one slot of its pair opens with the login password. Before the
  // login password changed that is the old slot, and no lower slot opens with it.
  ghost predicate Interrupted(slots: Slots, shadow: string, j: Journal) {
    && j.oldSlot != j.newSlot && j.oldSlot < SLOT_COUNT && j.newSlot < SLOT_COUNT
    && (Opens(slots, j.oldSlot, shadow) || Opens(slots, j.newSlot, shadow))
  }

  ghost predicate OldIsLowest(slots: Slots, shadow: string, j: Journal) {
    Opens(slots, j.oldSlot, shadow) ==> forall k :: 0 <= k < j.oldSlot ==> !Opens(slots, k, shadow)
  }

  // The login password was not changed yet, or no slot below the new one already opens with it.
  predicate PairIsFound(slots: Slots, shadow: string, j: Journal) {
    Opens(slots, j.oldSlot, shadow) || forall k :: 0 <= k < j.newSlot ==> !Opens(slots, k, shadow)
  }

  /** Whether recovery finds its slot can be read off the disk: it does if the login password was not changed yet, and
      otherwise exactly when no slot below the new one holds the new password already. */
  lemma RecoveryFindsPairIff(slots: Slots, shadow: string, j: Journal)
    requires Interrupted(slots, shadow, j) && OldIsLowest(slots, shadow, j)
    requires forall k :: k in slots ==> k < SLOT_COUNT
    ensures LowestSlot(slots, shadow).Some?
    ensures j.Names(LowestSlot(slots, shadow).value) <==> PairIsFound(slots, shadow, j)
  {
    var lowest := LowestSlot(slots, shadow);
    if Opens(slots, j.oldSlot, shadow) {
      assert lowest.value == j.oldSlot;
    } else {
      assert Opens(slots, j.newSlot, shadow);
      assert lowest.value <= j.newSlot;
    }
  }

  /** The excluded case is real: a recovery key in slot 0 that equals the chosen password, and a power loss right
      after the login password changed, leave a journal that recovery refuses to resolve. */
  lemma LowerCopyBlocksRecovery()
    ensures var slots: Slots := map[0 := "new-passphrase", 1 := "old-passphrase", 2 := "new-passphrase"];
      var j := Journal("user", "disk", 1, 2);
      && Interrupted(slots, "new-passphrase", j)
      && OldIsLowest(slots, "new-passphrase", j)
      && LowestSlot(slots, "new-passphrase") == Some(0) && !j.Names(0)
  {
    var slots: Slots := map[0 := "new-passphrase", 1 := "old-passphrase", 2 := "new-passphrase"];
    assert Opens(slots, 0, "new-passphrase");
    assert Opens(slots, 2, "new-passphrase");
    assert "new-passphrase"[0] != "old-passphrase"[0];
    assert !Opens(slots, 1, "new-passphrase");
  }

  // The slots some journal of the log names.
  ghost predicate Journaled(log: seq<Journal>, slot: nat) {
    exists j :: j in log && j.Names(slot)
  }

  // Slots no journal ever named hold the keys they held before.
  ghost predicate OthersKept(log: seq<Journal>, before: Slots, after: Slots) {
    forall k: nat :: !Journaled(log, k) ==> (k in after <==> k in before) && (k in after ==> after[k] == before[k])
  }

  lemma KeptTransitively(log: seq<Journal>, log': seq<Journal>, a: Slots, b: Slots, c: Slots)
    requires log <= log' && OthersKept(log, a, b) && OthersKept(log', b, c)
    ensures OthersKept(log', a, c)
  {
    assert forall k: nat :: Journaled(log, k) ==> Journaled(log', k);
  }

  ghost predicate Unlocks(slots: Slots, shadow: string) {
    exists k :: Opens(slots, k, shadow)
  }

  ghost predicate JournalFits(slots: Slots, shadow: string, journal: Option<Journal>, log: seq<Journal>,
                              reliable: bool) {
    journal.Some? ==>
      && journal.value in log
      && Interrupted(slots, shadow, journal.value)
      && (reliable ==> OldIsLowest(slots, shadow, journal.value))
  }

  // Removing one slot of an interrupted pair while the other one opens with the login password.
  lemma RemovalKeepsJournal(slots: Slots, shadow: string, journal: Option<Journal>, log: seq<Journal>, reliable: bool,
                            kept: nat, dropped: nat)
    requires JournalFits(slots, shadow, journal, log, reliable) && journal.Some?
    requires {kept, dropped} == {journal.value.oldSlot, journal.value.newSlot} && kept != dropped
    requires Opens(slots, kept, shadow)
    ensures Unlocks(slots - {dropped}, shadow) && JournalFits(slots - {dropped}, shadow, journal, log, reliable)
    ensures OthersKept(log, slots, slots - {dropped})
  {
    var j, after := journal.value, slots - {dropped};
    assert Opens(after, kept, shadow);
    assert kept in {j.oldSlot, j.newSlot} && dropped in {j.oldSlot, j.newSlot};
    assert j.Names(dropped);
    forall k: nat | Opens(after, k, shadow)
      ensures Opens(slots, k, shadow)
    {
    }
  }

  // Adding the new key of a recorded pair beside the old one.
  lemma AdditionKeepsJournal(slots: Slots, shadow: string, j: Journal, log: seq<Journal>, reliable: bool,
                             password: string)
    requires j in log && j.newSlot !in slots && j.newSlot < SLOT_COUNT && j.oldSlot < SLOT_COUNT && Opens(slots, j.oldSlot, shadow)
    requires reliable ==> LowestSlot(slots, shadow) == Some(j.oldSlot)
    requires password != shadow
    ensures var after := slots[j.newSlot := password];
      && Unlocks(slots, shadow) && Unlocks(after, shadow)
      && JournalFits(slots, shadow, Some(j), log, reliable) && JournalFits(after, shadow, Some(j), log, reliable)
      && OthersKept(log, slots, after)
  {
    var after := slots[j.newSlot := password];
    assert Opens(after, j.oldSlot, shadow);
    assert forall k: nat :: Opens(after, k, shadow) ==> Opens(slots, k, shadow);
    NamedSlots(log, j);
  }

  lemma NamedSlots(log: seq<Journal>, j: Journal)
    requires j in log
    ensures Journaled(log, j.oldSlot) && Journaled(log, j.newSlot)
  {
    assert j.Names(j.oldSlot) && j.Names(j.newSlot);
  }

  // Exactly one slot of the pair is left, and it opens with the login password.
  ghost predicate Resolved(before: Slots, after: Slots, shadow: string, j: Journal, reliable: bool) {
    || Kept(before, after, shadow, j.oldSlot, j.newSlot, reliable)
    || Kept(before, after, shadow, j.newSlot, j.oldSlot, reliable)
  }

  predicate Kept(before: Slots, after: Slots, shadow: string, kept: nat, dropped: nat, reliable: bool) {
    && kept != dropped && Opens(after, kept, shadow) && after == before - {dropped}
    && (reliable ==> LowestSlot(before, shadow) == Some(kept))
  }

  // One key for the old password was replaced by a key for the new one, in a slot that was free.
  ghost predicate Replaced(before: Slots, after: Slots, current: string, password: string) {
    exists dropped, added :: ReplacedAt(before, after, current, password, dropped, added)
  }

  predicate ReplacedAt(before: Slots, after: Slots, current: string, password: string, dropped: nat, added: nat) {
    Opens(before, dropped, current) && added !in before && after == (before - {dropped})[added := password]
  }

  // First the pair of an interrupted change was resolved, and then a key replaced if the password is another one.
  ghost predicate Repaired(before: Slots, after: Slots, current: string, password: string, j: Journal, reliable: bool) {
    exists settled ::
      Resolved(before, settled, current, j, reliable)
      && if current == password then after == settled else Replaced(settled, after, current, password)
  }

  class PasswordStores {
    // The installation record and the encrypted device; what tests of a passphrase promise.
    const owner: string
    const shared: bool
    const encrypted: bool
    const device: string
    const reliable: bool
    // Every command but `passwd` has its effect and the power stays on; then `passwd` ends as `ending` says.
    const undisturbed: bool
    const ending: Ending

    // The durable stores.
    var slots: Slots
    var shadow: string
    var journal: Option<Journal>

    // Every journal ever written.
    ghost var log: seq<Journal>

    ghost predicate Valid()
      reads this
    {
      encrypted ==>
        && (forall k :: k in slots ==> k < SLOT_COUNT)
        && Unlocks(slots, shadow)
        && JournalFits(slots, shadow, journal, log, reliable)
    }

    // A freshly installed machine: one shared password for login and disk.
    constructor (owner: string, shared: bool, encrypted: bool, device: string, reliable: bool, undisturbed: bool,
                 ending: Ending, password: string)
      ensures Valid() && log == [] && journal == None
      ensures shadow == password && slots == map[0 := password]
    {
      this.owner, this.shared, this.encrypted, this.device, this.reliable := owner, shared, encrypted, device, reliable;
      this.undisturbed, this.ending := undisturbed, ending;
      slots, shadow, journal, log := map[0 := password], password, None, [];
      new;
      assert Opens(slots, 0, shadow);
    }

    // ------------------------------------------------------------------------------------------------------------
    // Commands. Each may fail or lose power before or after its effect.
    // ------------------------------------------------------------------------------------------------------------

    method Fate() returns (happened: bool, r: Reply)
      ensures r.Ok? ==> happened
      ensures r.Failed? ==> r.reason == CommandFailed
      ensures undisturbed ==> r.Ok?
    {
      happened := *;
      var reported: bool, powered: bool := *, *;
      happened, reported := happened || undisturbed, reported || undisturbed;
      r := if happened && reported then Ok else if powered then Failed(CommandFailed) else PowerLost;
    }

    method Query() returns (r: Reply)
      ensures r.Failed? ==> r.reason == CommandFailed
      ensures undisturbed ==> r.Ok?
    {
      var _, reply := Fate();
      r := reply;
    }

    method WriteJournal(j: Journal) returns (r: Reply)
      modifies `journal, `log
      ensures r.Failed? ==> r.reason == CommandFailed
      ensures undisturbed ==> r.Ok?
      ensures r.Ok? ==> journal == Some(j)
      ensures log == old(log) + [j]
      ensures journal == Some(j) || journal == old(journal)
    {
      var happened;
      happened, r := Fate();
      log := log + [j];
      if happened {
        journal := Some(j);
      }
    }

    method RemoveJournal() returns (r: Reply)
      modifies `journal
      ensures r.Failed? ==> r.reason == CommandFailed
      ensures undisturbed ==> r.Ok?
      ensures r.Ok? ==> journal == None
      ensures journal == None || journal == old(journal)
    {
      var happened;
      happened, r := Fate();
      if happened {
        journal := None;
      }
    }

    // luksAddKey: authorized by a passphrase that already opens the disk, into a free slot.
    method AddDiskKey(slot: nat, current: string, password: string) returns (r: Reply)
      modifies `slots
      ensures r.Failed? ==> r.reason == CommandFailed
      ensures undisturbed && slot !in old(slots) && (exists k :: k in old(slots) && old(slots)[k] == current) ==> r.Ok?
      ensures r.Ok? ==> slots == old(slots)[slot := password]
      ensures slots == old(slots) || (slot !in old(slots) && slots == old(slots)[slot := password])
    {
      var happened;
      happened, r := Fate();
      if slot in slots || !exists k :: k in slots && slots[k] == current {
        r := if r.Ok? then Failed(CommandFailed) else r;
      } else if happened {
        slots := slots[slot := password];
      }
    }

    // luksKillSlot: authorized by a passphrase that opens another slot.
    method RemoveDiskKey(slot: nat, password: string) returns (r: Reply)
      modifies `slots
      ensures r.Failed? ==> r.reason == CommandFailed
      ensures undisturbed && (exists k :: k in old(slots) && k != slot && old(slots)[k] == password) ==> r.Ok?
      ensures r.Ok? ==> slots == old(slots) - {slot}
      ensures slots == old(slots) || slots == old(slots) - {slot}
    {
      var happened;
      happened, r := Fate();
      if !exists k :: k in slots && k != slot && slots[k] == password {
        r := if r.Ok? then Failed(CommandFailed) else r;
      } else if happened {
        slots := slots - {slot};
      }
    }

    // passwd exits 0 only after the shadow entry changed; an interrupted one may or may not have changed it.
    method Passwd(password: string) returns (r: Reply)
      modifies `shadow
      ensures r.Failed? ==> r.reason == CommandFailed
      ensures undisturbed ==> (r.Ok? <==> ending.Accepts?) && !r.PowerLost?
      ensures undisturbed ==> shadow == if ending.Rejects? then old(shadow) else password
      ensures r.Ok? ==> shadow == password
      ensures shadow == password || shadow == old(shadow)
    {
      var happened;
      happened, r := Fate();
      if undisturbed && !ending.Accepts? {
        happened, r := ending.BreaksOff?, Failed(CommandFailed);
      }
      if happened {
        shadow := password;
      }
    }

    // Test the password against the slots in ascending order. A test can fail for other reasons than a wrong
    // password; on a reliable device it does not, and the lowest matching slot is found.
    method MatchingSlot(password: string) returns (r: Reply, slot: nat)
      requires forall k :: k in slots ==> k < SLOT_COUNT
      ensures r.Failed? ==> r.reason in {CommandFailed, NoDiskKeyMatches}
      ensures r.Ok? ==> slot < SLOT_COUNT && Opens(slots, slot, password)
      ensures r.Ok? && reliable ==> LowestSlot(slots, password) == Some(slot)
      ensures r == Failed(NoDiskKeyMatches) && reliable ==> LowestSlot(slots, password).None?
      ensures undisturbed && reliable ==> r == if LowestSlot(slots, password).Some? then Ok else Failed(NoDiskKeyMatches)
    {
      slot := 0;
      :- Query();
      while slot < SLOT_COUNT
        invariant slot <= SLOT_COUNT
        invariant reliable ==> LowestSlot(slots, password) == LowestSlot(slots, password, slot)
      {
        var answered := *;
        if slot in slots && slots[slot] == password && (answered || reliable) {
          return Ok, slot;
        }
        slot := slot + 1;
      }
      r := Failed(NoDiskKeyMatches);
    }

    // ------------------------------------------------------------------------------------------------------------
    // Recovery and change
    // ------------------------------------------------------------------------------------------------------------

    // The journal is this user's, for this disk.
    predicate Owned(j: Journal, user: string) {
      j.username == user && j.device == device
    }

    /** Finish an interrupted change with the current login password. When it ends normally exactly one slot of the
        journaled pair is left, it opens with the login password, and the journal is gone. On a reliable device it
        is refused as needing manual recovery only if the lowest matching slot is outside the pair. */
    method Recover(user: string, current: string) returns (r: Reply)
      requires Valid() && encrypted && current == shadow
      modifies `slots, `journal
      ensures Valid() && OthersKept(log, old(slots), slots)
      ensures old(journal).None? ==> r.Ok? && slots == old(slots) && journal == None
      ensures r.Ok? ==> journal == None
      ensures r.Ok? && old(journal).Some? ==> Resolved(old(slots), slots, shadow, old(journal).value, reliable)
      ensures r == Failed(ManualRecovery) && reliable ==>
        old(journal).Some? && LowestSlot(slots, shadow).Some? && slots == old(slots) && journal == old(journal) &&
        !journal.value.Names(LowestSlot(slots, shadow).value) && !PairIsFound(slots, shadow, journal.value)
      ensures journal == None || journal == old(journal)
      ensures r.Failed? ==> r.reason in {ForeignJournal, ManualRecovery, CommandFailed, NoDiskKeyMatches}
      // Each refusal has its cause; an own journal whose pair recovery can find is refused only by a failing command.
      ensures r == Failed(ForeignJournal) <==> old(journal).Some? && !Owned(old(journal).value, user)
      ensures r == Failed(ForeignJournal) ==> slots == old(slots) && journal == old(journal)
      ensures reliable ==> r != Failed(NoDiskKeyMatches)
      ensures
        reliable && old(journal).Some? && Owned(old(journal).value, user) && PairIsFound(old(slots), shadow, old(journal).value)
        ==> r in {Ok, PowerLost, Failed(CommandFailed)}
      // Undisturbed, recovery succeeds exactly if there is nothing to recover, or an own pair that it can find.
      ensures undisturbed && reliable ==>
        (r.Ok? <==>
           old(journal).Some? ==>
             && old(journal).value.username == user && old(journal).value.device == device
             && PairIsFound(old(slots), shadow, old(journal).value))
    {
      if journal.None? {
        return Ok;
      }
      var pending := journal.value;
      if pending.username != user || pending.device != device {
        return Failed(ForeignJournal);
      }
      if reliable {
        RecoveryFindsPairIff(slots, shadow, pending);
      }
      var slot: nat;
      slot :- MatchingSlot(current);
      :- Query();
      if !pending.Names(slot) {
        return Failed(ManualRecovery);
      }
      var unwanted := if slot == pending.newSlot then pending.oldSlot else pending.newSlot;
      assert {slot, unwanted} == {pending.oldSlot, pending.newSlot};
      RemovalKeepsJournal(slots, shadow, journal, log, reliable, slot, unwanted);
      if unwanted in slots {
        :- RemoveDiskKey(unwanted, current);
      }
      assert slots == old(slots) - {unwanted};
      r := RemoveJournal();
    }

    // Record the pair, then add the new key beside the old one.
    method AddSecondKey(user: string, current: string, new': string, slot: nat) returns (r: Reply, newSlot: nat)
      requires Valid() && encrypted && journal == None && current == shadow && current != new'
      requires slot < SLOT_COUNT && Opens(slots, slot, current)
      requires reliable ==> LowestSlot(slots, current) == Some(slot)
      modifies `slots, `journal, `log
      ensures Valid() && OthersKept(log, old(slots), slots)
      ensures r.Failed? ==> r.reason in {NoFreeSlot, CommandFailed}
      ensures old(log) <= log && |log| <= |old(log)| + 1
      ensures r.Ok? ==> newSlot < SLOT_COUNT && newSlot !in old(slots) && slots == old(slots)[newSlot := new']
      ensures r.Ok? ==> journal == Some(Journal(user, device, slot, newSlot))
      ensures undisturbed ==> r == if exists k: nat :: k < SLOT_COUNT && k !in old(slots) then Ok else Failed(NoFreeSlot)
      ensures r.Failed? && r.reason == NoFreeSlot ==> slots == old(slots) && journal == None && Full(slots)
    {
      newSlot := 0;
      :- Query();
      while newSlot < SLOT_COUNT && newSlot in slots
        invariant newSlot <= SLOT_COUNT && forall k: nat :: k < newSlot ==> k in slots
      {
        newSlot := newSlot + 1;
      }
      if newSlot == SLOT_COUNT {
        return Failed(NoFreeSlot), newSlot;
      }
      ghost var j := Journal(user, device, slot, newSlot);
      AdditionKeepsJournal(slots, shadow, j, log + [j], reliable, new');
      :- WriteJournal(Journal(user, device, slot, newSlot));
      AdditionKeepsJournal(slots, shadow, j, log, reliable, new');
      r := AddDiskKey(newSlot, current, new');
    }

    // Remove the slot of the journaled pair that does not open with the login password, then the journal.
    method DropKey(dropped: nat, password: string) returns (r: Reply)
      requires Valid() && encrypted && journal.Some? && password == shadow
      requires journal.value.Names(dropped)
      requires Opens(slots, journal.value.oldSlot + journal.value.newSlot - dropped, password)
      modifies `slots, `journal
      ensures Valid() && OthersKept(log, old(slots), slots)
      ensures r.Failed? ==> r.reason == CommandFailed
      ensures undisturbed ==> r.Ok?
      ensures r.Ok? ==> slots == old(slots) - {dropped} && journal == None
    {
      ghost var kept := journal.value.oldSlot + journal.value.newSlot - dropped;
      assert {kept, dropped} == {journal.value.oldSlot, journal.value.newSlot};
      RemovalKeepsJournal(slots, shadow, journal, log, reliable, kept, dropped);
      :- RemoveDiskKey(dropped, password);
      r := RemoveJournal();
    }

    // What an undisturbed change answers once the disk is prepared.
    function Answer(): Reply {
      match ending
      case Accepts => Ok
      case Rejects => Failed(Retained)
      case BreaksOff => Failed(CommittedWithoutIntegration)
    }

    // Commit the new login password while both keys of the recorded pair open the disk, then drop the key that does not
    // match the login password.
    method SwitchPassword(current: string, new': string, slot: nat, newSlot: nat) returns (r: Reply)
      requires Valid() && current == shadow && current != new'
      requires encrypted ==> journal.Some? && journal.value.oldSlot == slot && journal.value.newSlot == newSlot
      requires encrypted ==> Opens(slots, slot, current) && Opens(slots, newSlot, new')
      modifies `slots, `shadow, `journal
      ensures Valid() && OthersKept(log, old(slots), slots)
      ensures shadow == current || shadow == new'
      ensures undisturbed ==> r == Answer()
      ensures !encrypted ==> slots == old(slots) && journal == old(journal)
      ensures r.Ok? ==> shadow == new' && (encrypted ==> journal == None && slots == old(slots) - {slot})
      ensures r.Failed? ==> r.reason in {Unverified, Retained, RetainedNeedsCleanup, CommittedNeedsCleanup,
                                         CommittedWithoutIntegration}
      ensures r.Failed? && r.reason.SaysUnchanged() ==> shadow == current
      ensures r.Failed? && r.reason == Retained && encrypted ==> journal == None && slots == old(slots) - {newSlot}
      ensures r.Failed? && r.reason.SaysCommitted() ==> shadow == new'
      ensures r.Failed? && r.reason == CommittedWithoutIntegration && encrypted ==>
        journal == None && slots == old(slots) - {slot}
    {
      assert encrypted ==> Opens(slots, slot, current) && Opens(slots, newSlot, new');
      r := Passwd(new');
      assert encrypted ==> Opens(slots, slot, current) && Opens(slots, newSlot, new');
      var integrationFailed := r.Failed?;
      if r.PowerLost? {
        return;
      }
      if r.Failed? {
        r := Query();
        if r.PowerLost? {
          return;
        }
        if r.Failed? {
          return Failed(Unverified);
        }
        if shadow == current {
          if encrypted {
            r := DropKey(newSlot, current);
            if !r.Ok? {
              r := if r.Failed? then Failed(RetainedNeedsCleanup) else r;
              return;
            }
          }
          return Failed(Retained);
        }
      }
      if encrypted {
        r := DropKey(slot, new');
        if !r.Ok? {
          r := if r.Failed? then Failed(CommittedNeedsCleanup) else r;
          return;
        }
      }
      r := if integrationFailed then Failed(CommittedWithoutIntegration) else Ok;
    }

    // Finish what was interrupted, and find the slot to be replaced.
    method Settle(user: string, current: string) returns (r: Reply, slot: nat)
      requires Valid() && encrypted && current == shadow
      modifies `slots, `journal
      ensures Valid() && OthersKept(log, old(slots), slots)
      ensures old(journal).None? ==> slots == old(slots)
      ensures r.Ok? ==> journal == None && slot < SLOT_COUNT && Opens(slots, slot, current)
      ensures r.Ok? && reliable ==> LowestSlot(slots, current) == Some(slot)
      ensures r.Ok? && old(journal).Some? ==>
        Resolved(old(slots), slots, shadow, old(journal).value, reliable) && !Full(slots)
      ensures r.Failed? ==> r.reason in {ForeignJournal, ManualRecovery, CommandFailed, NoDiskKeyMatches}
      ensures r == Failed(ForeignJournal) ==>
        old(journal).Some? && !Owned(old(journal).value, user) && slots == old(slots) && journal == old(journal)
      ensures r == Failed(ManualRecovery) && reliable ==>
        old(journal).Some? && !PairIsFound(slots, shadow, old(journal).value) && slots == old(slots)
      ensures r == Failed(NoDiskKeyMatches) ==> !reliable
      ensures undisturbed && reliable ==>
        (r.Ok? <==>
           old(journal).Some? ==>
             && old(journal).value.username == user && old(journal).value.device == device
             && PairIsFound(old(slots), shadow, old(journal).value))
    {
      slot := 0;
      :- Query();
      :- Recover(user, current);
      ghost var j := old(journal);
      if j.Some? {
        assert j.value.oldSlot !in slots || j.value.newSlot !in slots;
      }
      r, slot := MatchingSlot(current);
    }

    // The change proper, once the current login password was verified.
    method ChangeVerified(user: string, current: string, new': string) returns (r: Reply, message: Message)
      requires Valid() && current == shadow
      modifies `slots, `shadow, `journal, `log
      ensures Valid() && OthersKept(log, old(slots), slots)
      ensures old(log) <= log && |log| <= |old(log)| + 1
      ensures shadow == current || shadow == new'
      ensures r.Ok? ==> shadow == new' && (message == AlreadySet <==> current == new') && (encrypted ==> journal == None)
      ensures r.Ok? && encrypted && old(journal) == None && current != new' ==> Replaced(old(slots), slots, current, new')
      ensures undisturbed && reliable ==>
        (r == (if current == new' then Ok else Answer()) <==>
           encrypted ==>
             if old(journal).None? then current == new' || exists k: nat :: k < SLOT_COUNT && k !in old(slots)
             else
               && old(journal).value.username == user && old(journal).value.device == device
               && PairIsFound(old(slots), current, old(journal).value))
      ensures r.Ok? && encrypted && old(journal).Some? ==>
        Repaired(old(slots), slots, current, new', old(journal).value, reliable)
      ensures !encrypted ==> slots == old(slots) && journal == old(journal)
      ensures r.Failed? && r.reason.SaysUnchanged() ==> shadow == current
      ensures r.Failed? && r.reason == Retained ==>
        (encrypted ==> journal == None) && (old(journal) == None ==> slots == old(slots))
      ensures r.Failed? && r.reason.SaysCommitted() ==> shadow == new'
      ensures r.Failed? && r.reason == CommittedWithoutIntegration && encrypted ==> journal == None
      ensures r.Failed? ==> !r.reason.Policy? && !r.reason.NoInstallationRecord? && !r.reason.WrongPassword?
      ensures r == Failed(NoFreeSlot) ==> encrypted && Full(slots)
      ensures r == Failed(ForeignJournal) ==>
        encrypted && old(journal).Some? && !Owned(old(journal).value, user) && slots == old(slots) && journal == old(journal)
      ensures r == Failed(ManualRecovery) && reliable ==>
        encrypted && old(journal).Some? && !PairIsFound(slots, shadow, old(journal).value) && slots == old(slots)
      ensures r == Failed(NoDiskKeyMatches) ==> encrypted && !reliable
    {
      message := Changed;
      var slot, newSlot := 0, 0;
      if encrypted {
        slot :- Settle(user, current);
      }
      ghost var logBefore, settled := log, slots;
      if current == new' {
        return Ok, AlreadySet;
      }
      r := SwitchKeys(user, current, new', slot);
      KeptTransitively(logBefore, log, old(slots), settled, slots);
    }

    method SwitchKeys(user: string, current: string, new': string, slot: nat) returns (r: Reply)
      requires Valid() && current == shadow && current != new'
      requires encrypted ==> slot < SLOT_COUNT && journal == None && Opens(slots, slot, current)
      requires encrypted && reliable ==> LowestSlot(slots, current) == Some(slot)
      modifies `slots, `shadow, `journal, `log
      ensures Valid() && OthersKept(log, old(slots), slots)
      ensures old(log) <= log && |log| <= |old(log)| + 1
      ensures shadow == current || shadow == new'
      ensures r.Ok? ==> shadow == new' && (encrypted ==> journal == None && Replaced(old(slots), slots, current, new'))
      ensures undisturbed ==>
        r == if encrypted && Full(old(slots)) then Failed(NoFreeSlot) else Answer()
      ensures !encrypted ==> slots == old(slots) && journal == old(journal)
      ensures r.Failed? && r.reason.SaysUnchanged() ==> shadow == current
      ensures r.Failed? && r.reason == Retained && encrypted ==> journal == None && slots == old(slots)
      ensures r.Failed? && r.reason.SaysCommitted() ==> shadow == new'
      ensures r.Failed? && r.reason == CommittedWithoutIntegration && encrypted ==> journal == None
      ensures r.Failed? ==> !r.reason.Policy? && !r.reason.NoInstallationRecord? && !r.reason.WrongPassword?
      ensures r.Failed? ==> !r.reason.ForeignJournal? && !r.reason.ManualRecovery? && !r.reason.NoDiskKeyMatches?
      ensures r == Failed(NoFreeSlot) ==> encrypted && Full(slots)
    {
      var newSlot: nat := 0;
      if encrypted {
        newSlot :- AddSecondKey(user, current, new', slot);
      }
      ghost var both := slots;
      r := SwitchPassword(current, new', slot, newSlot);
      if encrypted {
        KeptTransitively(log, log, old(slots), both, slots);
        assert both - {newSlot} == old(slots);
        assert both - {slot} == (old(slots) - {slot})[newSlot := new'];
        assert r.Ok? ==> ReplacedAt(old(slots), slots, current, new', slot, newSlot);
      }
    }

    /** Change the login password, and with it the disk key. `Valid` holds however it ends, so some slot always opens
        with the login password, and slots outside the journaled pairs keep their keys. */
    method Change(user: string, current: string, new': string) returns (r: Reply, message: Message)
      requires Valid()
      modifies this
      ensures Valid() && OthersKept(log, old(slots), slots)
      ensures old(log) <= log && |log| <= |old(log)| + 1
      ensures shadow == old(shadow) || (shadow == new' && old(shadow) == current)
      // Success is exact.
      ensures r.Ok? ==> old(shadow) == current && shadow == new' && (message == AlreadySet <==> current == new')
      ensures r.Ok? ==> user == owner && shared && |new'| >= 8 && (encrypted ==> journal == None)
      ensures r.Ok? && encrypted && old(journal) == None && current != new' ==> Replaced(old(slots), slots, current, new')
      ensures r.Ok? && encrypted && old(journal).Some? ==>
        Repaired(old(slots), slots, current, new', old(journal).value, reliable)
      // With commands that work, a change goes through exactly if the request is right and the disk has a place for the
      // key. What `passwd` then does decides the answer, which leaves no journal and no second key behind.
      ensures undisturbed && reliable ==>
        (r == (if current == new' then Ok else
                 match ending
                 case Accepts => Ok
                 case Rejects => Failed(Retained)
                 case BreaksOff => Failed(CommittedWithoutIntegration)) <==>
           && |new'| >= 8 && Printable(new') && current != "" && Printable(current)
           && user == owner && shared && current == old(shadow)
           && (encrypted ==>
                 if old(journal).None? then current == new' || exists k: nat :: k < SLOT_COUNT && k !in old(slots)
                 else
                   && old(journal).value.username == user && old(journal).value.device == device
                   && PairIsFound(old(slots), current, old(journal).value)))
      ensures !encrypted ==> slots == old(slots) && journal == old(journal)
      // Every refusal says what is true of the stores.
      ensures r.Failed? && r.reason.SaysUnchanged() ==> shadow == old(shadow)
      ensures r.Failed? && r.reason.SaysCommitted() ==> shadow == new'
      ensures r.Failed? && (r.reason.Policy? || r.reason.NoInstallationRecord? || r.reason.WrongPassword?) ==>
        slots == old(slots) && journal == old(journal)
      ensures r == Failed(Policy) <==> |new'| < 8 || !Printable(new') || current == "" || !Printable(current)
      ensures r == Failed(NoInstallationRecord) ==> user != owner || !shared
      ensures r == Failed(WrongPassword) ==> current != old(shadow)
      ensures r == Failed(NoFreeSlot) ==> encrypted && Full(slots)
      ensures r == Failed(ForeignJournal) ==>
        encrypted && old(journal).Some? && !Owned(old(journal).value, user) && slots == old(slots) && journal == old(journal)
      ensures r == Failed(ManualRecovery) && reliable ==>
        encrypted && old(journal).Some? && !PairIsFound(slots, shadow, old(journal).value) && slots == old(slots)
      ensures r == Failed(NoDiskKeyMatches) ==> encrypted && !reliable
      ensures r.Failed? && r.reason == Retained ==>
        (encrypted ==> journal == None) && (old(journal) == None ==> slots == old(slots))
      ensures r.Failed? && r.reason == CommittedWithoutIntegration && encrypted ==> journal == None
    {
      message := Changed;
      if |new'| < 8 || !Printable(new') || current == "" || !Printable(current) {
        return Failed(Policy), message;
      }
      if user != owner || !shared {
        return Failed(NoInstallationRecord), message;
      }
      :- Query();
      if current != shadow {
        return Failed(WrongPassword), message;
      }
      r, message := ChangeVerified(user, current, new');
    }

    /** Any number of attempts by any users, each ending in any way: the disk always opens with the login password,
        and the keys of slots that no attempt named are those the machine was installed with. */
    method Session(attempts: seq<(string, string, string)>)
      requires Valid()
      modifies this
      ensures Valid() && OthersKept(log, old(slots), slots)
    {
      for i := 0 to |attempts|
        invariant Valid() && OthersKept(log, old(slots), slots)
        invariant old(log) <= log
      {
        var (user, current, new') := attempts[i];
        ghost var logBefore := log;
        var _, _ := Change(user, current, new');
        assert forall k: nat :: Journaled(logBefore, k) ==> Journaled(log, k);
      }
    }
  }
}
