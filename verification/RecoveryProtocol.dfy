/**
  * The durable state of offline recovery and the atomic steps that may change it.  A crash loses
  * only the running process, so the states a crash can leave are exactly the states between steps.
  */
module RecoveryProtocol {
  import opened Common
  import opened Inventory

  type RecoveryId = nat
  type BackupId = nat

  datatype Phase =
    | Previewed | Checkpointed | Applying | Verifying | Hold
    | RollingBack | RolledBack | Released | Blocked

  datatype Mode = Replace | Fresh

  /** The journal document; `checkpoint` stands for the file named after that recovery. */
  datatype Journal = Journal(
    id: RecoveryId, backupId: BackupId, mode: Mode, phase: Phase, checkpoint: Option<RecoveryId>)

  /** Actionable state that is moved aside before apply. */
  datatype ActionablePath =
    | MemoryProposals | SkillInstallsConfig | SkillInstallsRuntime | LocalDocumentInputs | DaemonStop

  const QUARANTINED_PATHS: seq<ActionablePath> :=
    [MemoryProposals, SkillInstallsConfig, SkillInstallsRuntime, LocalDocumentInputs, DaemonStop]

  /** Names under which a transaction keeps the replaced skills directory. */
  datatype Label = Apply | Rollback | InterruptedRollback | FreshRetry

  /** A transaction directory: quarantined files, replaced skills, and the validation probe. */
  datatype Transaction = Transaction(
    quarantine: map<ActionablePath, Bytes>, aside: map<Label, SkillTree>, probe: bool)

  const EMPTY_TRANSACTION := Transaction(map[], map[], false)

  datatype Disk = Disk(
    journal: Option<Journal>,
    owned: Owned,
    home: map<ActionablePath, Bytes>,
    transactions: map<RecoveryId, Transaction>,
    checkpoints: map<RecoveryId, Contents>)

  function Tx(d: Disk, id: RecoveryId): Transaction {
    if id in d.transactions then d.transactions[id] else EMPTY_TRANSACTION
  }

  function WithTx(d: Disk, id: RecoveryId, t: Transaction): Disk {
    d.(transactions := d.transactions[id := t])
  }

  // ---------------------------------------------------------------- the journal's gates

  predicate StartAllowed(d: Disk) {
    d.journal.Some? ==> d.journal.value.phase in {Released, RolledBack}
  }

  predicate RuntimeAllowed(d: Disk) {
    d.journal.Some? ==> d.journal.value.phase in {Hold, Released, RolledBack}
  }

  predicate BackgroundAllowed(d: Disk) {
    d.journal.None? || d.journal.value.phase in {Released, RolledBack}
  }

  predicate Interrupted(d: Disk) {
    d.journal.Some? && d.journal.value.phase in {Checkpointed, Applying, Verifying, RollingBack, Blocked}
  }

  predicate ReleaseAllowed(d: Disk) {
    d.journal.Some? && d.journal.value.phase == Hold
  }

  predicate FreshTarget(o: Owned) {
    o.files.Keys <= {Identity} && (o.skills.Some? ==> o.skills.value == map[])
  }

  // ---------------------------------------------------------------- atomic steps

  /** What the recovery in progress started from and works towards. */
  datatype Base = Base(
    id: RecoveryId,
    mode: Mode,
    backupId: BackupId,
    backup: Contents,
    start: Owned,
    actionable: map<ActionablePath, Bytes>,
    touched: bool) // the Home itself ran and may have changed its files since

  datatype Action =
    | WriteCheckpoint(contents: Contents)
    | SaveJournal(journal: Journal)
    | PutFile(c: ComponentId, content: Bytes)
    | RemoveFile(c: ComponentId)
    | MoveSkillsAside(tag: Label)
    | InstallSkills(tree: SkillTree)
    | ShrinkSkills(rest: Option<SkillTree>)
    | Quarantine(path: ActionablePath)
    | Unquarantine(path: ActionablePath)
    | WriteProbe
    | RemoveProbe
    | RemoveTransaction
    | RemoveCheckpoint

  function PutOwned(d: Disk, o: Owned): Disk {
    d.(owned := o)
  }

  /** The effect of one atomic step of recovery `id`; steps that cannot apply change nothing. */
  function Do(d: Disk, id: RecoveryId, a: Action): Disk {
    var t := Tx(d, id);
    match a
    case WriteCheckpoint(c) => d.(checkpoints := d.checkpoints[id := c])
    case SaveJournal(j) => d.(journal := Some(j))
    case PutFile(c, content) => PutOwned(d, d.owned.(files := d.owned.files[c := content]))
    case RemoveFile(c) => PutOwned(d, d.owned.(files := d.owned.files - {c}))
    case MoveSkillsAside(tag) =>
      if d.owned.skills.None? then d
      else
        WithTx(PutOwned(d, d.owned.(skills := None)), id,
               t.(aside := t.aside[tag := d.owned.skills.value]))
    case InstallSkills(tree) => PutOwned(d, d.owned.(skills := Some(tree)))
    case ShrinkSkills(rest) => PutOwned(d, d.owned.(skills := rest))
    case Quarantine(p) =>
      if p !in d.home then d
      else WithTx(d.(home := d.home - {p}), id, t.(quarantine := t.quarantine[p := d.home[p]]))
    case Unquarantine(p) =>
      if p !in t.quarantine then d
      else WithTx(d.(home := d.home[p := t.quarantine[p]]), id, t.(quarantine := t.quarantine - {p}))
    case WriteProbe => WithTx(d, id, t.(probe := true))
    case RemoveProbe => WithTx(d, id, t.(probe := false))
    case RemoveTransaction => d.(transactions := d.transactions - {id})
    case RemoveCheckpoint => d.(checkpoints := d.checkpoints - {id})
  }

  /** The recovery named by `b` owns the journal. */
  predicate Mine(d: Disk, b: Base) {
    d.journal.Some? && d.journal.value.id == b.id
  }

  predicate InPhase(d: Disk, b: Base, phases: set<Phase>) {
    Mine(d, b) && d.journal.value.phase in phases
  }

  /** Phases during which the owned files may be in any intermediate state. */
  predicate Mutable(d: Disk, b: Base) {
    || InPhase(d, b, {Applying, RollingBack})
    || (b.mode.Fresh? && InPhase(d, b, {Verifying, Blocked}))
  }

  /** A directory rename refuses an existing target that is not empty. */
  predicate AsideOccupied(t: Transaction, tag: Label) {
    tag in t.aside && t.aside[tag] != map[]
  }

  function NewJournal(b: Base): Journal {
    if b.mode.Replace? then Journal(b.id, b.backupId, Replace, Checkpointed, Some(b.id))
    else Journal(b.id, b.backupId, Fresh, Applying, None)
  }

  predicate JournalStep(d: Disk, b: Base, j: Journal, k: Checks) {
    if !Mine(d, b) then
      && StartAllowed(d) && !b.touched && j == NewJournal(b)
      && (b.mode.Replace? ==>
            b.id in d.checkpoints && Some(d.checkpoints[b.id]) == Snapshot(d.owned, k))
      && (b.mode.Fresh? ==> FreshTarget(d.owned))
    else
      && j == d.journal.value.(phase := j.phase)
      && var from := d.journal.value.phase;
         match j.phase
         case Previewed => false
         case Checkpointed => false
         case Applying => from == Checkpointed
         case Verifying => Mutable(d, b) && from != RollingBack && d.owned == Image(b.backup)
         case Hold => from == Verifying && d.owned == Image(b.backup) && d.home == map[]
         case RollingBack => b.mode.Replace? && Interrupted(d)
         case RolledBack =>
           && from == RollingBack && b.id in d.checkpoints && d.owned == Image(d.checkpoints[b.id])
           && Tx(d, b.id).quarantine == map[]
         case Released => from == Hold
         case Blocked => Interrupted(d)
  }

  predicate Enabled(d: Disk, b: Base, a: Action, k: Checks) {
    var t := Tx(d, b.id);
    match a
    case WriteCheckpoint(c) =>
      !Mine(d, b) && StartAllowed(d) && !b.touched && b.mode.Replace? && Snapshot(d.owned, k) == Some(c)
    case SaveJournal(j) => JournalStep(d, b, j, k)
    case PutFile(c, content) => Mutable(d, b)
    case RemoveFile(c) => Mutable(d, b)
    case MoveSkillsAside(tag) =>
      Mutable(d, b) && d.owned.skills.Some? && !AsideOccupied(t, tag)
    case InstallSkills(tree) => Mutable(d, b) && d.owned.skills.None?
    case ShrinkSkills(rest) => Mutable(d, b) && b.mode.Fresh?
    case Quarantine(p) =>
      && Mine(d, b) && (d.journal.value.phase == Applying || (b.mode.Fresh? && Mutable(d, b)))
      && p in d.home && p !in t.quarantine
    case Unquarantine(p) => InPhase(d, b, {RollingBack}) && p in t.quarantine
    case WriteProbe => InPhase(d, b, {Verifying, RollingBack}) && !t.probe && Backupable(d.owned, k)
    case RemoveProbe => InPhase(d, b, {Verifying, RollingBack})
    case RemoveTransaction => InPhase(d, b, {Released})
    case RemoveCheckpoint => InPhase(d, b, {Released})
  }

  ghost predicate Next(d: Disk, d': Disk, b: Base, k: Checks) {
    exists a :: Enabled(d, b, a, k) && d' == Do(d, b.id, a)
  }

  /** The current skills directory cannot be moved aside under this name. */
  predicate Refused(d: Disk, id: RecoveryId, tag: Label) {
    d.owned.skills.Some? && AsideOccupied(Tx(d, id), tag)
  }

  /** A retained transaction that no further recovery attempt can get past. */
  predicate Doomed(d: Disk, b: Base) {
    Tx(d, b.id).probe || (b.mode.Replace? && Refused(d, b.id, InterruptedRollback))
  }

  /** A fresh recovery id names nothing that is on disk. */
  predicate Unused(d: Disk, id: RecoveryId) {
    && id !in d.transactions && id !in d.checkpoints
    && (d.journal.Some? ==> d.journal.value.id != id)
  }

  // ---------------------------------------------------------------- the invariant

  /** Every actionable path is in exactly one place, with its content. */
  predicate Split(d: Disk, b: Base) {
    d.home.Keys !! Tx(d, b.id).quarantine.Keys && d.home + Tx(d, b.id).quarantine == b.actionable
  }

  predicate HasCheckpoint(d: Disk, b: Base, k: Checks) {
    b.id in d.checkpoints && Some(d.checkpoints[b.id]) == Snapshot(b.start, k)
  }

  predicate NotBegun(d: Disk, b: Base, k: Checks) {
    && StartAllowed(d)
    && Tx(d, b.id) == EMPTY_TRANSACTION
    && (!b.touched ==> d.owned == b.start && d.home == b.actionable)
    && (b.id in d.checkpoints ==> HasCheckpoint(d, b, k))
  }

  predicate Begun(d: Disk, b: Base, k: Checks)
    requires Mine(d, b)
  {
    var j := d.journal.value;
    && j == NewJournal(b).(phase := j.phase)
    && j.phase != Previewed
    && (b.mode.Fresh? ==> j.phase !in {Checkpointed, RollingBack, RolledBack} && FreshTarget(b.start))
    && (b.mode.Replace? ==> Backupable(b.start, k) && (j.phase != Released ==> HasCheckpoint(d, b, k)))
    && (Interrupted(d) ==> !b.touched && Split(d, b))
    && (j.phase == Checkpointed ==>
          d.owned == b.start && d.home == b.actionable && Tx(d, b.id) == EMPTY_TRANSACTION)
    && (j.phase == Hold ==>
          && Tx(d, b.id).quarantine == b.actionable
          && (!b.touched ==> d.owned == Image(b.backup) && d.home == map[]))
    && (j.phase == RolledBack ==>
          && Tx(d, b.id).quarantine == map[]
          && (!b.touched ==>
                Backupable(b.start, k) && d.owned == Image(Snapshot(b.start, k).value) && d.home == b.actionable))
    && (j.phase == Released && !b.touched ==> d.owned == Image(b.backup))
  }

  /** Whatever recovery wrote the journal, its fields fit together and its checkpoint is there until release. */
  predicate SoundJournal(d: Disk) {
    d.journal.Some? ==>
      var j := d.journal.value;
      && j.phase != Previewed
      && (j.mode.Fresh? ==> j.phase !in {Checkpointed, RollingBack, RolledBack} && j.checkpoint.None?)
      && (j.mode.Replace? ==> j.checkpoint == Some(j.id) && (j.phase != Released ==> j.id in d.checkpoints))
  }

  predicate Inv(d: Disk, b: Base, k: Checks) {
    && Verified(b.backup, k) && SoundJournal(d)
    && (if Mine(d, b) then Begun(d, b, k) else NotBegun(d, b, k))
  }

  /** Every atomic step of the protocol keeps the invariant. */
  lemma StepKeepsInv(d: Disk, b: Base, a: Action, k: Checks)
    requires Inv(d, b, k) && Enabled(d, b, a, k)
    ensures Inv(Do(d, b.id, a), b, k)
  {
    hide Inv;
    if a.SaveJournal? {
      JournalStepKeepsInv(d, b, a.journal, k);
    } else if a.Quarantine? || a.Unquarantine? {
      QuarantineStepKeepsInv(d, b, a, k);
    } else if a.WriteCheckpoint? || a.RemoveTransaction? || a.RemoveCheckpoint? {
      RetentionStepKeepsInv(d, b, a, k);
    } else {
      OwnedStepKeepsInv(d, b, Do(d, b.id, a), k);
    }
  }

  /** While a transaction runs, the owned files and the replaced skills are free to change. */
  lemma OwnedStepKeepsInv(d: Disk, b: Base, d': Disk, k: Checks)
    requires Inv(d, b, k) && (Mutable(d, b) || (InPhase(d, b, {Verifying}) && d'.owned == d.owned))
    requires d'.journal == d.journal && d'.home == d.home && d'.checkpoints == d.checkpoints
    requires Tx(d', b.id).quarantine == Tx(d, b.id).quarantine
    ensures Inv(d', b, k)
  {
    hide Backupable, Verified, FreshTarget;
  }

  lemma QuarantineStepKeepsInv(d: Disk, b: Base, a: Action, k: Checks)
    requires Inv(d, b, k) && Enabled(d, b, a, k) && (a.Quarantine? || a.Unquarantine?)
    ensures Inv(Do(d, b.id, a), b, k)
  {
    hide Backupable, Verified, FreshTarget;
    var d' := Do(d, b.id, a);
    assert d'.home + Tx(d', b.id).quarantine == d.home + Tx(d, b.id).quarantine;
  }

  lemma RetentionStepKeepsInv(d: Disk, b: Base, a: Action, k: Checks)
    requires Inv(d, b, k) && Enabled(d, b, a, k)
    requires a.WriteCheckpoint? || a.RemoveTransaction? || a.RemoveCheckpoint?
    ensures Inv(Do(d, b.id, a), b, k)
  {
    hide Backupable, Verified, FreshTarget;
  }

  lemma JournalStepKeepsInv(d: Disk, b: Base, j: Journal, k: Checks)
    requires Inv(d, b, k) && JournalStep(d, b, j, k)
    ensures Inv(Do(d, b.id, SaveJournal(j)), b, k)
  {
    hide Backupable, Verified, FreshTarget;
    var d' := Do(d, b.id, SaveJournal(j));
    assert Tx(d', b.id) == Tx(d, b.id);
    if !Mine(d, b) {
      assert d.home + map[] == d.home;
    } else if j.phase == Hold {
      assert map[] + Tx(d, b.id).quarantine == Tx(d, b.id).quarantine;
    } else if j.phase == RolledBack {
      assert d.home + map[] == d.home;
    }
  }
}
