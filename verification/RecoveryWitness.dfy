/** Runs that end where no repair gets any further: the two causes are reached from wherever a restore may begin. */
module RecoveryWitness {
  import opened Common
  import opened Inventory
  import opened RecoveryProtocol
  import opened RecoverySafety

  /** Some run of `b` from its beginning on ends in `d`. */
  ghost predicate Reached(start: Disk, d: Disk, b: Base, k: Checks) {
    exists run :: IsRun(run, k) && run[0] == Moment(start, b) && run[|run| - 1] == Moment(d, b)
  }

  lemma BeginningIsReached(d: Disk, b: Base, k: Checks)
    requires Begins(d, b, k) && d.journal.None?
    ensures Reached(d, d, b, k)
  {
    assert IsRun([Moment(d, b)], k);
  }

  lemma StepIsReached(start: Disk, d: Disk, b: Base, a: Action, k: Checks)
    requires Reached(start, d, b, k) && Enabled(d, b, a, k)
    ensures Reached(start, Do(d, b.id, a), b, k)
  {
    hide Enabled, Do, Begins;
    var run :| IsRun(run, k) && run[0] == Moment(start, b) && run[|run| - 1] == Moment(d, b);
    var next := Moment(Do(d, b.id, a), b);
    assert RunStep(run[|run| - 1], next, k);
    assert IsRun(run + [next], k) && (run + [next])[0] == run[0];
  }

  // ---------------------------------------------------------------- a replace restore cut short, and its repair

  /** The disk right after a replace restore wrote its checkpoint and its first journal. */
  function CutShort(d: Disk, b: Base, k: Checks): Disk
    requires Backupable(d.owned, k)
  {
    d.(checkpoints := d.checkpoints[b.id := Held(d.owned, k)], journal := Some(NewJournal(b)))
  }

  /** The repair of it, after the checkpoint's files are back and its skills have been swapped in. */
  function Swapped(d: Disk, b: Base, k: Checks): Disk
    requires Backupable(d.owned, k)
  {
    var c := CutShort(d, b, k);
    var rolling := c.(journal := Some(NewJournal(b).(phase := RollingBack)), owned := Image(Held(d.owned, k)));
    if d.owned.skills.None? then rolling
    else WithTx(rolling, b.id, EMPTY_TRANSACTION.(aside := map[InterruptedRollback := d.owned.skills.value]))
  }

  lemma CutShortIsReached(d: Disk, b: Base, k: Checks)
    requires Begins(d, b, k) && d.journal.None? && b.mode.Replace? && Backupable(d.owned, k)
    ensures Reached(d, CutShort(d, b, k), b, k)
  {
    var c := Held(d.owned, k);
    hide Reached, Backupable, Verified;
    BeginningIsReached(d, b, k);
    StepIsReached(d, d, b, WriteCheckpoint(c), k);
    StepIsReached(d, Do(d, b.id, WriteCheckpoint(c)), b, SaveJournal(NewJournal(b)), k);
  }

  lemma SwappedIsReached(d: Disk, b: Base, k: Checks)
    requires Begins(d, b, k) && d.journal.None? && b.mode.Replace? && Backupable(d.owned, k)
    ensures Reached(d, Swapped(d, b, k), b, k)
  {
    var c := Held(d.owned, k);
    hide Reached, Backupable, Verified;
    CutShortIsReached(d, b, k);
    var cut := CutShort(d, b, k);
    var rolling := Do(cut, b.id, SaveJournal(NewJournal(b).(phase := RollingBack)));
    StepIsReached(d, cut, b, SaveJournal(NewJournal(b).(phase := RollingBack)), k);
    assert Tx(rolling, b.id) == EMPTY_TRANSACTION;
    if d.owned.skills.None? {
      StepIsReached(d, rolling, b, InstallSkills(c.skills), k);
      assert Do(rolling, b.id, InstallSkills(c.skills)) == Swapped(d, b, k);
    } else {
      var moved := Do(rolling, b.id, MoveSkillsAside(InterruptedRollback));
      StepIsReached(d, rolling, b, MoveSkillsAside(InterruptedRollback), k);
      StepIsReached(d, moved, b, InstallSkills(c.skills), k);
      assert Do(moved, b.id, InstallSkills(c.skills)) == Swapped(d, b, k);
    }
  }

  /** From any beginning with skills: a crash right after a repair swapped them leaves what no repair gets past. */
  lemma CrashAfterSwapDooms(d: Disk, b: Base, k: Checks)
    requires Begins(d, b, k) && d.journal.None? && b.mode.Replace? && Backupable(d.owned, k)
    requires d.owned.skills.Some? && d.owned.skills.value != map[]
    ensures exists last :: Reached(d, last, b, k) && Interrupted(last) && Refused(last, b.id, InterruptedRollback)
                           && Doomed(last, b)
  {
    hide Reached, Backupable;
    SwappedIsReached(d, b, k);
    var last := Swapped(d, b, k);
    assert Tx(last, b.id).aside[InterruptedRollback] == d.owned.skills.value;
    assert Reached(d, last, b, k) && Refused(last, b.id, InterruptedRollback);
  }

  /** From any beginning of a replace restore: so does a crash beside the validation probe of its repair. */
  lemma CrashBesideProbeDoomsReplace(d: Disk, b: Base, k: Checks)
    requires Begins(d, b, k) && d.journal.None? && b.mode.Replace? && Backupable(d.owned, k)
    ensures exists last :: Reached(d, last, b, k) && Interrupted(last) && Tx(last, b.id).probe && Doomed(last, b)
  {
    hide Reached;
    SwappedIsReached(d, b, k);
    HeldIsVerified(d.owned, k);
    HeldByImage(Held(d.owned, k), k);
    hide Backupable;
    var swapped := Swapped(d, b, k);
    StepIsReached(d, swapped, b, WriteProbe, k);
    var last := Do(swapped, b.id, WriteProbe);
    assert Tx(last, b.id).probe && Reached(d, last, b, k);
  }

  // ---------------------------------------------------------------- a fresh restore

  /** The files after the pass over the table has replaced those before position `i`. */
  function Placed(files: map<ComponentId, Bytes>, wanted: map<ComponentId, Bytes>, i: nat): map<ComponentId, Bytes> {
    map c | c in files.Keys + wanted.Keys && (if Position(c) < i then c in wanted else c in files) ::
      if Position(c) < i then wanted[c] else files[c]
  }

  lemma SamePosition(c: ComponentId, e: ComponentId)
    ensures Position(c) == Position(e) ==> c == e
  {
    InventoryListsEachOnce(c);
    InventoryListsEachOnce(e);
  }

  lemma NextPlaced(files: map<ComponentId, Bytes>, wanted: map<ComponentId, Bytes>, c: ComponentId)
    ensures Placed(files, wanted, Position(c) + 1) ==
            if c in wanted then Placed(files, wanted, Position(c))[c := wanted[c]]
            else Placed(files, wanted, Position(c)) - {c}
  {
    hide Position;
    var i := Position(c);
    forall e: ComponentId
      ensures Position(e) < i + 1 <==> Position(e) < i || e == c
    {
      SamePosition(c, e);
    }
  }

  lemma AllPlaced(files: map<ComponentId, Bytes>, wanted: map<ComponentId, Bytes>)
    ensures Placed(files, wanted, 0) == files && Placed(files, wanted, 21) == wanted
  {
    forall c: ComponentId
      ensures Position(c) < 21
    {
      InventoryListsEachOnce(c);
    }
  }

  /** While files may change, a pass over the table puts the wanted ones in place. */
  lemma {:induction false} PlacingIsReached(
    start: Disk, d: Disk, b: Base, k: Checks, wanted: map<ComponentId, Bytes>, i: nat)
    requires Reached(start, d, b, k) && Mutable(d, b) && i <= 21
    ensures Reached(start, PutOwned(d, d.owned.(files := Placed(d.owned.files, wanted, i))), b, k)
    decreases i
  {
    hide Reached, Placed, Position;
    if i == 0 {
      AllPlaced(d.owned.files, wanted);
    } else {
      PlacingIsReached(start, d, b, k, wanted, i - 1);
      var c := V1_STATIC_INVENTORY[i - 1];
      PositionOf(i - 1);
      NextPlaced(d.owned.files, wanted, c);
      var before := PutOwned(d, d.owned.(files := Placed(d.owned.files, wanted, i - 1)));
      StepIsReached(start, before, b, if c in wanted then PutFile(c, wanted[c]) else RemoveFile(c), k);
    }
  }

  lemma PositionOf(i: nat)
    requires i < 21
    ensures |V1_STATIC_INVENTORY| == 21 && Position(V1_STATIC_INVENTORY[i]) == i
  {
    InventoryListsEachOnce(V1_STATIC_INVENTORY[i]);
  }

  /** The first `n` actionable paths moved aside. */
  function SetAside(d: Disk, b: Base, n: nat): Disk
    requires n <= |QUARANTINED_PATHS|
  {
    if n == 0 then d
    else
      var e, p := SetAside(d, b, n - 1), QUARANTINED_PATHS[n - 1];
      if p in e.home then Do(e, b.id, Quarantine(p)) else e
  }

  lemma {:induction false} SettingAsideIsReached(start: Disk, d: Disk, b: Base, k: Checks, n: nat)
    requires Reached(start, d, b, k) && InPhase(d, b, {Applying}) && n <= |QUARANTINED_PATHS|
    requires Tx(d, b.id) == EMPTY_TRANSACTION
    ensures var e := SetAside(d, b, n);
      && Reached(start, e, b, k) && e == d.(home := e.home, transactions := e.transactions)
      && e.home.Keys !! Tx(e, b.id).quarantine.Keys
      && Tx(e, b.id) == EMPTY_TRANSACTION.(quarantine := Tx(e, b.id).quarantine)
    decreases n
  {
    hide Reached;
    if n > 0 {
      SettingAsideIsReached(start, d, b, k, n - 1);
      var e, p := SetAside(d, b, n - 1), QUARANTINED_PATHS[n - 1];
      if p in e.home {
        StepIsReached(start, e, b, Quarantine(p), k);
      }
    }
  }

  lemma FilledIsReached(d: Disk, b: Base, k: Checks)
    requires Begins(d, b, k) && d.journal.None? && b.mode.Fresh? && FreshTarget(d.owned)
    ensures exists e ::
      Reached(d, e, b, k) && e.journal == Some(NewJournal(b)) && e.owned == d.owned.(files := b.backup.files)
                        && !Tx(e, b.id).probe && Apply !in Tx(e, b.id).aside
  {
    hide Reached, Backupable, Verified, Placed, Position;
    BeginningIsReached(d, b, k);
    var journaled := Do(d, b.id, SaveJournal(NewJournal(b)));
    StepIsReached(d, d, b, SaveJournal(NewJournal(b)), k);
    SettingAsideIsReached(d, journaled, b, k, |QUARANTINED_PATHS|);
    var begun := SetAside(journaled, b, |QUARANTINED_PATHS|);
    PlacingIsReached(d, begun, b, k, b.backup.files, 21);
    AllPlaced(d.owned.files, b.backup.files);
    var filled := PutOwned(begun, begun.owned.(files := b.backup.files));
    assert Tx(filled, b.id) == Tx(begun, b.id);
  }

  lemma WholeIsReached(d: Disk, b: Base, k: Checks)
    requires Begins(d, b, k) && d.journal.None? && b.mode.Fresh? && FreshTarget(d.owned)
    ensures exists e :: Reached(d, e, b, k) && e.journal == Some(NewJournal(b)) && e.owned == Image(b.backup)
                        && !Tx(e, b.id).probe
  {
    hide Reached, Backupable, Verified, Begins;
    FilledIsReached(d, b, k);
    var filled :| Reached(d, filled, b, k) && filled.journal == Some(NewJournal(b))
                  && filled.owned == d.owned.(files := b.backup.files)
                  && !Tx(filled, b.id).probe && Apply !in Tx(filled, b.id).aside;
    var cleared := if filled.owned.skills.None? then filled else Do(filled, b.id, MoveSkillsAside(Apply));
    if filled.owned.skills.Some? {
      StepIsReached(d, filled, b, MoveSkillsAside(Apply), k);
    }
    StepIsReached(d, cleared, b, InstallSkills(b.backup.skills), k);
    assert Reached(d, Do(cleared, b.id, InstallSkills(b.backup.skills)), b, k);
  }

  /** From any beginning of a fresh restore: a crash beside the validation probe leaves what no retry gets past. */
  lemma CrashBesideProbeDoomsFresh(d: Disk, b: Base, k: Checks)
    requires Begins(d, b, k) && d.journal.None? && b.mode.Fresh? && FreshTarget(d.owned) && k.bounded(b.backup)
    ensures exists last :: Reached(d, last, b, k) && Interrupted(last) && Tx(last, b.id).probe && Doomed(last, b)
  {
    HeldByImage(b.backup, k);
    hide Reached, Backupable, Verified;
    WholeIsReached(d, b, k);
    hide Begins;
    var whole :| Reached(d, whole, b, k) && whole.journal == Some(NewJournal(b)) && whole.owned == Image(b.backup)
                 && !Tx(whole, b.id).probe;
    var verifying := Do(whole, b.id, SaveJournal(NewJournal(b).(phase := Verifying)));
    StepIsReached(d, whole, b, SaveJournal(NewJournal(b).(phase := Verifying)), k);
    assert Tx(verifying, b.id) == Tx(whole, b.id);
    StepIsReached(d, verifying, b, WriteProbe, k);
    var last := Do(verifying, b.id, WriteProbe);
    assert Tx(last, b.id).probe && Reached(d, last, b, k);
  }

  // ---------------------------------------------------------------- one Home and one backup

  const FILES: map<ComponentId, Bytes> := map[Identity := [1], MemoryDatabase := [2], ConversationHistory := [3]]
  const BACKUP := Contents(FILES, map[])
  const HOME := Disk(None, Owned(FILES, Some(map["diary" := map["skill.json" := [4]]])), map[DaemonStop := []], map[],
    map[])
  const EMPTY_HOME := Disk(None, Owned(map[], None), map[], map[], map[])
  const REPLACING := Base(1, Replace, 7, BACKUP, HOME.owned, HOME.home, false)
  const REFILLING := Base(1, Fresh, 7, BACKUP, EMPTY_HOME.owned, EMPTY_HOME.home, false)

  function Lenient(): Checks {
    Checks(files => true, b => Some(map[]), p => None, c => true)
  }

  /** Both modes do begin somewhere, so both causes are reached somewhere. */
  lemma BeginningsExist()
    ensures Begins(HOME, REPLACING, Lenient()) && Backupable(HOME.owned, Lenient())
    ensures Begins(EMPTY_HOME, REFILLING, Lenient()) && FreshTarget(EMPTY_HOME.owned)
    ensures exists d :: Reached(HOME, d, REPLACING, Lenient()) && Refused(d, 1, InterruptedRollback) && Interrupted(d)
    ensures exists d :: Reached(HOME, d, REPLACING, Lenient()) && Tx(d, 1).probe && Interrupted(d)
    ensures exists d :: Reached(EMPTY_HOME, d, REFILLING, Lenient()) && Tx(d, 1).probe && Interrupted(d)
  {
    hide Reached;
    assert "diary" in HOME.owned.skills.value;
    CrashAfterSwapDooms(HOME, REPLACING, Lenient());
    CrashBesideProbeDoomsReplace(HOME, REPLACING, Lenient());
    CrashBesideProbeDoomsFresh(EMPTY_HOME, REFILLING, Lenient());
  }
}
