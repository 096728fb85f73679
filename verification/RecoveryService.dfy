/**
  * The offline recovery service.  Every durable write is one step of `RecoveryProtocol`, recorded
  * in `trace`; a step may fail, and a crash may leave any state of the trace behind.
  */
module RecoveryService {
  import opened Common
  import opened Inventory
  import opened RecoveryProtocol

  /** What reading one bundle yields: the authenticated manifest id, its versions, its contents. */
  datatype Bundle = Bundle(id: BackupId, supported: bool, contents: Contents)

  datatype Failure =
    | HomeNotQuiescent | RecoveryInProgress | InvalidBackup | BackupVersionUnsupported
    | RestoreConfirmationStale | FreshTargetNotEmpty | CurrentHomeIncomplete | RestoreFailed
    | RecoveryBlocked | RecoveryNotInterrupted | RecoveryHoldNotActive | RestoreValidationFailed
    | OperatingSystemFailure

  datatype Outcome = Done(phase: Phase) | Failed(error: Failure)

  /** Whether the two writer leases are free when a session asks for them. */
  datatype Guards = Guards(quiescent: bool, homeFree: bool, daemonFree: bool)

  predicate GuardsFree(g: Guards) {
    g.quiescent && g.homeFree && g.daemonFree
  }

  /** The bundle that a read returned is the confirmed one and is readable by this version. */
  predicate Confirmed(read: Option<Bundle>, expected: BackupId) {
    read.Some? && read.value.supported && read.value.id == expected
  }

  /** The backup file that the operator names for a repair, and what reading it yields. */
  datatype Source = NotNamed | Named(read: Option<Bundle>)

  /** A repair of a fresh restore is asked for with a backup file and the id that the journal holds. */
  predicate Asked(source: Source, expected: Option<BackupId>, journaled: BackupId) {
    source.Named? && expected == Some(journaled)
  }

  /** Nothing changed but the owned files and the replaced skills kept in the transaction. */
  predicate OnlyOwnedChanged(d: Disk, d': Disk, id: RecoveryId) {
    && d'.journal == d.journal && d'.home == d.home && d'.checkpoints == d.checkpoints
    && Tx(d', id).quarantine == Tx(d, id).quarantine && Tx(d', id).probe == Tx(d, id).probe
  }

  lemma ActionablePathsListed(p: ActionablePath)
    ensures exists i :: 0 <= i < |QUARANTINED_PATHS| && QUARANTINED_PATHS[i] == p
  {
    match p
    case MemoryProposals => assert QUARANTINED_PATHS[0] == p;
    case SkillInstallsConfig => assert QUARANTINED_PATHS[1] == p;
    case SkillInstallsRuntime => assert QUARANTINED_PATHS[2] == p;
    case LocalDocumentInputs => assert QUARANTINED_PATHS[3] == p;
    case DaemonStop => assert QUARANTINED_PATHS[4] == p;
  }

  class RecoveryService {
    var disk: Disk
    var homeHeld: bool
    var daemonHeld: bool
    var operations: nat
    const faults: nat -> bool
    const checks: Checks
    ghost var base: Base
    ghost var trace: seq<Disk>

    ghost predicate Valid()
      reads `disk, `base, `trace
    {
      && trace != [] && trace[|trace| - 1] == disk
      && (forall i | 0 <= i < |trace| :: Inv(trace[i], base, checks))
      && (forall i | 0 < i < |trace| :: Next(trace[i - 1], trace[i], base, checks))
    }

    predicate Holding()
      reads `homeHeld, `daemonHeld
    {
      homeHeld && daemonHeld
    }

    /** No operation from number `n` on fails. */
    ghost predicate FaultFree(n: nat) {
      forall i: nat | n <= i :: !faults(i)
    }

    /** Recovery cannot leave any state from number `n` of the trace on. */
    ghost predicate DoomedFrom(n: nat)
      reads `base, `trace
    {
      forall i | n <= i < |trace| :: Doomed(trace[i], base) && Interrupted(trace[i])
    }

    /** Opens the service on whatever state earlier sessions, or crashes, left on disk. */
    constructor (disk: Disk, faults: nat -> bool, checks: Checks, ghost base: Base)
      requires Inv(disk, base, checks)
      ensures Valid() && !homeHeld && !daemonHeld
      ensures this.disk == disk && this.base == base && this.checks == checks && this.faults == faults
      ensures trace == [disk]
    {
      this.disk, this.faults, this.checks := disk, faults, checks;
      homeHeld, daemonHeld, operations := false, false, 0;
      this.base, trace := base, [disk];
    }

    /** An operation with no durable effect of its own, which may fail. */
    method Effort() returns (ok: bool)
      modifies this`operations
      ensures operations == old(operations) + 1
      ensures ok == !faults(old(operations))
    {
      ok := !faults(operations);
      operations := operations + 1;
    }

    /** One atomic durable step: it either happens completely, or fails and changes nothing. */
    method Attempt(id: RecoveryId, a: Action) returns (ok: bool)
      requires Valid() && Holding() && id == base.id && Enabled(disk, base, a, checks)
      modifies this`disk, this`operations, this`trace
      ensures Valid() && operations == old(operations) + 1
      ensures ok == !faults(old(operations))
      ensures disk == if ok then Do(old(disk), id, a) else old(disk)
      ensures trace == if ok then old(trace) + [disk] else old(trace)
    {
      hide Inv, Backupable, Structured, Verified;
      ok := Effort();
      if ok {
        StepKeepsInv(disk, base, a, checks);
        disk := Do(disk, id, a);
        trace := trace + [disk];
      }
    }

    method SavePhase(id: RecoveryId, phase: Phase) returns (ok: bool)
      requires Valid() && Holding() && id == base.id && Mine(disk, base)
      requires JournalStep(disk, base, disk.journal.value.(phase := phase), checks)
      modifies this`disk, this`operations, this`trace
      ensures Valid() && operations == old(operations) + 1
      ensures ok == !faults(old(operations))
      ensures disk ==
              if ok then old(disk).(journal := Some(old(disk).journal.value.(phase := phase))) else old(disk)
      ensures trace == if ok then old(trace) + [disk] else old(trace)
    {
      ok := Attempt(id, SaveJournal(disk.journal.value.(phase := phase)));
    }

    // -------------------------------------------------------------- writer leases

    method AcquireGuards(g: Guards) returns (ok: bool)
      requires !homeHeld && !daemonHeld
      modifies this`homeHeld, this`daemonHeld
      ensures ok == GuardsFree(g)
      ensures homeHeld == daemonHeld == ok
    {
      if !g.quiescent || !g.homeFree {
        return false;
      }
      homeHeld := true;
      if !g.daemonFree {
        homeHeld := false;
        return false;
      }
      daemonHeld := true;
      return true;
    }

    method ReleaseGuards()
      requires Holding()
      modifies this`homeHeld, this`daemonHeld
      ensures !homeHeld && !daemonHeld
    {
      daemonHeld := false;
      homeHeld := false;
    }

    // -------------------------------------------------------------- replacing the owned files

    method ReplaceFile(id: RecoveryId, c: Contents, component: ComponentId) returns (ok: bool)
      requires Valid() && Holding() && id == base.id && Mutable(disk, base)
      requires component in REQUIRED ==> component in c.files
      modifies this`disk, this`operations, this`trace
      ensures Valid() && operations <= old(operations) + 1 && old(operations) <= operations
      ensures disk == PutOwned(old(disk), old(disk).owned.(files := disk.owned.files))
      ensures trace == old(trace) || trace == old(trace) + [disk]
      ensures forall other | SameAt(old(disk).owned.files, c.files, other) ::
                SameAt(disk.owned.files, c.files, other)
      ensures ok ==> SameAt(disk.owned.files, c.files, component)
      ensures FaultFree(old(operations)) ==> ok
    {
      hide Valid, Inv, Next, Backupable, Structured, Verified;
      ok := true;
      if component in c.files {
        ok := Attempt(id, PutFile(component, c.files[component]));
      } else if component in disk.owned.files {
        ok := Attempt(id, RemoveFile(component));
      }
    }

    method ReplaceFiles(id: RecoveryId, c: Contents) returns (ok: bool)
      requires Valid() && Holding() && id == base.id && Mutable(disk, base) && REQUIRED <= c.files.Keys
      modifies this`disk, this`operations, this`trace
      ensures Valid() && old(trace) <= trace && old(operations) <= operations
      ensures disk == old(disk).(owned := old(disk).owned.(files := disk.owned.files))
      ensures ok ==> disk.owned.files == c.files
      ensures FaultFree(old(operations)) ==> ok
      ensures Doomed(old(disk), base) && Interrupted(old(disk)) ==> DoomedFrom(|old(trace)|)
    {
      hide Valid, Inv, Next, Backupable, Structured;
      for i := 0 to |V1_STATIC_INVENTORY|
        invariant Valid() && old(trace) <= trace && old(operations) <= operations
        invariant disk == old(disk).(owned := old(disk).owned.(files := disk.owned.files))
        invariant forall m | 0 <= m < i :: SameAt(disk.owned.files, c.files, V1_STATIC_INVENTORY[m])
        invariant Doomed(old(disk), base) && Interrupted(old(disk)) ==> DoomedFrom(|old(trace)|)
      {
        var component := V1_STATIC_INVENTORY[i];
        ok := ReplaceFile(id, c, component);
        if !ok {
          return;
        }
      }
      ok := true;
      SameEverywhere(disk.owned.files, c.files);
    }

    method SetSkillsAside(id: RecoveryId, tag: Label) returns (ok: bool)
      requires Valid() && Holding() && id == base.id && Mutable(disk, base)
      modifies this`disk, this`operations, this`trace
      ensures Valid() && operations <= old(operations) + 1 && old(operations) <= operations
      ensures OnlyOwnedChanged(old(disk), disk, id) && disk.owned.files == old(disk).owned.files
      ensures forall l | l != tag :: AsideOccupied(Tx(disk, id), l) == AsideOccupied(Tx(old(disk), id), l)
      ensures trace == old(trace) || trace == old(trace) + [disk]
      ensures ok ==> disk.owned.skills.None? && !Refused(old(disk), id, tag)
      ensures Refused(old(disk), id, tag) ==> disk == old(disk) && trace == old(trace)
      ensures FaultFree(old(operations)) && !Refused(old(disk), id, tag) ==> ok
    {
      hide Valid, Inv, Next, Backupable, Structured, Verified;
      if disk.owned.skills.None? {
        return true;
      }
      if AsideOccupied(Tx(disk, id), tag) {
        return false;
      }
      ok := Attempt(id, MoveSkillsAside(tag));
    }

    method ReplaceSkills(id: RecoveryId, c: Contents, tag: Label) returns (ok: bool)
      requires Valid() && Holding() && id == base.id && Mutable(disk, base)
      modifies this`disk, this`operations, this`trace
      ensures Valid() && old(trace) <= trace && old(operations) <= operations
      ensures OnlyOwnedChanged(old(disk), disk, id) && disk.owned.files == old(disk).owned.files
      ensures forall l | l != tag :: AsideOccupied(Tx(disk, id), l) == AsideOccupied(Tx(old(disk), id), l)
      ensures ok ==> disk.owned.skills == Some(c.skills) && !Refused(old(disk), id, tag)
      ensures Refused(old(disk), id, tag) ==> disk == old(disk) && trace == old(trace)
      ensures FaultFree(old(operations)) && !Refused(old(disk), id, tag) ==> ok
      ensures Tx(old(disk), id).probe && Interrupted(old(disk)) ==> DoomedFrom(|old(trace)|)
    {
      hide Valid, Inv, Next, Backupable, Structured, Verified;
      ok := SetSkillsAside(id, tag);
      if ok {
        ok := Attempt(id, InstallSkills(c.skills));
      }
    }

    method ApplyMaterialized(id: RecoveryId, c: Contents, tag: Label) returns (ok: bool)
      requires Valid() && Holding() && id == base.id && Mutable(disk, base) && Verified(c, checks)
      modifies this`disk, this`operations, this`trace
      ensures Valid() && old(trace) <= trace && old(operations) <= operations
      ensures OnlyOwnedChanged(old(disk), disk, id)
      ensures forall l | l != tag :: AsideOccupied(Tx(disk, id), l) == AsideOccupied(Tx(old(disk), id), l)
      ensures ok ==> disk.owned == Image(c) && !Refused(old(disk), id, tag)
      ensures FaultFree(old(operations)) && !Refused(old(disk), id, tag) ==> ok
      ensures Doomed(old(disk), base) && Interrupted(old(disk)) && (base.mode.Replace? ==> tag == InterruptedRollback)
              ==> DoomedFrom(|old(trace)|)
    {
      hide Valid, Inv, Next, Backupable, Structured, Verified;
      assert REQUIRED <= c.files.Keys by {
        VerifiedIsComplete(c, checks);
      }
      ok := ReplaceFiles(id, c);
      if ok {
        ok := ReplaceSkills(id, c, tag);
      }
    }

    method ValidateApplied(id: RecoveryId, c: Contents) returns (ok: bool)
      requires Valid() && Holding() && id == base.id && InPhase(disk, base, {Verifying, RollingBack})
      modifies this`disk, this`operations, this`trace
      ensures Valid() && old(trace) <= trace && old(operations) <= operations
      ensures disk.owned == old(disk).owned
      ensures OnlyOwnedChanged(old(disk), disk, id) || (!ok && !Tx(old(disk), id).probe)
      ensures disk.journal == old(disk).journal && disk.home == old(disk).home
      ensures disk.checkpoints == old(disk).checkpoints
      ensures Tx(disk, id).quarantine == Tx(old(disk), id).quarantine
      ensures Tx(disk, id).aside == Tx(old(disk), id).aside
      ensures ok ==> disk.owned.files == c.files && Backupable(disk.owned, checks)
      ensures Tx(old(disk), id).probe ==> !ok && disk == old(disk) && trace == old(trace)
      ensures (FaultFree(old(operations)) && !Tx(old(disk), id).probe && disk.owned.files == c.files
               && Backupable(disk.owned, checks)) ==> ok
    {
      hide Valid, Inv, Next, Backupable, Structured, Verified;
      for i := 0 to |V1_STATIC_INVENTORY|
        invariant forall m | 0 <= m < i :: SameAt(disk.owned.files, c.files, V1_STATIC_INVENTORY[m])
      {
        var component := V1_STATIC_INVENTORY[i];
        if component !in c.files {
          if component in disk.owned.files {
            return false;
          }
        } else if component !in disk.owned.files || disk.owned.files[component] != c.files[component] {
          return false;
        }
      }
      SameEverywhere(disk.owned.files, c.files);
      BackupableIsStructured(disk.owned, checks);
      if !Structured(disk.owned, checks) {
        return false;
      }
      if Tx(disk, id).probe || !Backupable(disk.owned, checks) {
        return false; // a backup never overwrites an existing destination
      }
      ok := Attempt(id, WriteProbe);
      if ok {
        ok := Attempt(id, RemoveProbe);
      }
    }

    // -------------------------------------------------------------- quarantine

    /** During a transaction every actionable path is in exactly one place. */
    lemma CurrentlySplit()
      requires Valid() && Mine(disk, base) && Interrupted(disk)
      ensures Split(disk, base) && !base.touched
    {
      assert Inv(trace[|trace| - 1], base, checks);
    }

    method QuarantinePath(id: RecoveryId, p: ActionablePath) returns (ok: bool)
      requires Valid() && Holding() && id == base.id && Mine(disk, base)
      requires disk.journal.value.phase == Applying || (base.mode.Fresh? && Mutable(disk, base))
      modifies this`disk, this`operations, this`trace
      ensures Valid() && old(operations) <= operations <= old(operations) + 1
      ensures disk.owned == old(disk).owned && disk.journal == old(disk).journal
      ensures disk.checkpoints == old(disk).checkpoints
      ensures Tx(disk, id).aside == Tx(old(disk), id).aside && Tx(disk, id).probe == Tx(old(disk), id).probe
      ensures trace == old(trace) || trace == old(trace) + [disk]
      ensures ok ==> p !in disk.home
      ensures forall other | other != p ::
                && (other in disk.home <==> other in old(disk).home)
                && (other in Tx(disk, id).quarantine <==> other in Tx(old(disk), id).quarantine)
      ensures FaultFree(old(operations)) && !(p in old(disk).home && p in Tx(old(disk), id).quarantine) ==> ok
    {
      hide Valid, Inv, Next, Backupable, Structured, Verified;
      if p in Tx(disk, id).quarantine {
        return p !in disk.home;
      }
      ok := true;
      if p in disk.home {
        ok := Attempt(id, Quarantine(p));
      }
    }

    method QuarantineActionableState(id: RecoveryId) returns (ok: bool, rows: seq<ActionablePath>)
      requires Valid() && Holding() && id == base.id && Interrupted(disk) && Mine(disk, base)
      requires disk.journal.value.phase == Applying || (base.mode.Fresh? && Mutable(disk, base))
      modifies this`disk, this`operations, this`trace
      ensures Valid() && old(trace) <= trace && old(operations) <= operations
      ensures disk.owned == old(disk).owned && disk.journal == old(disk).journal
      ensures disk.checkpoints == old(disk).checkpoints
      ensures Tx(disk, id).aside == Tx(old(disk), id).aside && Tx(disk, id).probe == Tx(old(disk), id).probe
      ensures ok ==> disk.home == map[]
      ensures ok ==> forall p | p in Tx(disk, id).quarantine :: p in rows
      ensures FaultFree(old(operations)) ==> ok
      ensures Tx(old(disk), id).probe ==> DoomedFrom(|old(trace)|)
    {
      hide Valid, Inv, Next, Backupable, Structured, Verified;
      CurrentlySplit();
      rows := [];
      for i := 0 to |QUARANTINED_PATHS|
        invariant Valid() && old(trace) <= trace && old(operations) <= operations
        invariant disk.owned == old(disk).owned && disk.journal == old(disk).journal
        invariant disk.checkpoints == old(disk).checkpoints
        invariant Tx(disk, id).aside == Tx(old(disk), id).aside
        invariant Tx(disk, id).probe == Tx(old(disk), id).probe
        invariant disk.home.Keys !! Tx(disk, id).quarantine.Keys
        invariant forall m | 0 <= m < i :: QUARANTINED_PATHS[m] !in disk.home
        invariant forall m | 0 <= m < i ::
                    QUARANTINED_PATHS[m] in Tx(disk, id).quarantine ==> QUARANTINED_PATHS[m] in rows
        invariant Tx(old(disk), id).probe ==> DoomedFrom(|old(trace)|)
      {
        var p := QUARANTINED_PATHS[i];
        ok := QuarantinePath(id, p);
        if !ok {
          return;
        }
        if p in Tx(disk, id).quarantine {
          rows := rows + [p];
        }
      }
      ok := true;
      forall p: ActionablePath
        ensures p !in disk.home && (p in Tx(disk, id).quarantine ==> p in rows)
      {
        ActionablePathsListed(p);
      }
    }

    method RestoreQuarantine(id: RecoveryId, rows: seq<ActionablePath>) returns (ok: bool)
      requires Valid() && Holding() && id == base.id && InPhase(disk, base, {RollingBack})
      requires forall p | p in Tx(disk, id).quarantine :: p in rows
      modifies this`disk, this`operations, this`trace
      ensures Valid() && old(trace) <= trace && old(operations) <= operations
      ensures disk.owned == old(disk).owned && disk.journal == old(disk).journal
      ensures disk.checkpoints == old(disk).checkpoints
      ensures Tx(disk, id).aside == Tx(old(disk), id).aside && Tx(disk, id).probe == Tx(old(disk), id).probe
      ensures ok ==> Tx(disk, id).quarantine == map[]
      ensures FaultFree(old(operations)) ==> ok
    {
      hide Valid, Inv, Next, Backupable, Structured, Verified;
      var i := |rows|;
      while i > 0
        invariant 0 <= i <= |rows|
        invariant Valid() && old(trace) <= trace && old(operations) <= operations
        invariant disk.owned == old(disk).owned && disk.journal == old(disk).journal
        invariant disk.checkpoints == old(disk).checkpoints
        invariant Tx(disk, id).aside == Tx(old(disk), id).aside
        invariant Tx(disk, id).probe == Tx(old(disk), id).probe
        invariant forall p | p in Tx(disk, id).quarantine :: p in rows[..i]
      {
        i := i - 1;
        if rows[i] in Tx(disk, id).quarantine {
          ok := Attempt(id, Unquarantine(rows[i]));
          if !ok {
            return;
          }
        }
      }
      ok := true;
    }

    // -------------------------------------------------------------- restore

    /** What the invariant says about the retained checkpoint of a transaction. */
    lemma CurrentCheckpoint()
      requires Valid() && Mine(disk, base) && Interrupted(disk) && base.mode.Replace?
      ensures HasCheckpoint(disk, base, checks) && Backupable(base.start, checks)
      ensures Verified(disk.checkpoints[base.id], checks) && checks.bounded(disk.checkpoints[base.id])
      ensures disk.journal.value.checkpoint == Some(base.id)
    {
      assert Inv(trace[|trace| - 1], base, checks);
      HeldIsVerified(base.start, checks);
    }

    /** The state in which a finished rollback leaves the Home. */
    ghost predicate Undone()
      reads `disk, `base
    {
      && InPhase(disk, base, {RolledBack})
      && Backupable(base.start, checks)
      && disk.owned == Image(Snapshot(base.start, checks).value)
      && disk.home == base.actionable && Tx(disk, base.id).quarantine == map[]
    }

    /** The state in which a finished restore leaves the Home. */
    ghost predicate Restored()
      reads `disk, `base
    {
      && InPhase(disk, base, {Hold})
      && disk.owned == Image(base.backup)
      && disk.home == map[] && Tx(disk, base.id).quarantine == base.actionable
    }

    lemma RolledBackIsUndone()
      requires Valid() && InPhase(disk, base, {RolledBack}) && !base.touched && base.mode.Replace?
      ensures Undone()
    {
      assert Inv(trace[|trace| - 1], base, checks);
    }

    lemma HoldIsRestored()
      requires Valid() && InPhase(disk, base, {Hold}) && !base.touched
      ensures Restored()
    {
      assert Inv(trace[|trace| - 1], base, checks);
    }

    lemma DoomedNow(n: nat)
      requires Valid() && DoomedFrom(n) && n < |trace|
      ensures Doomed(disk, base)
    {
      hide Inv, Next;
    }

    /** Applies the checkpoint again and validates the result. */
    method ReapplyCheckpoint(id: RecoveryId, tag: Label) returns (ok: bool)
      requires Valid() && Holding() && id == base.id && InPhase(disk, base, {RollingBack})
      requires base.mode.Replace? && (tag == InterruptedRollback || tag == Rollback)
      modifies this`disk, this`operations, this`trace
      ensures Valid() && old(trace) <= trace && old(operations) <= operations
      ensures disk.journal == old(disk).journal && disk.home == old(disk).home
      ensures disk.checkpoints == old(disk).checkpoints
      ensures Tx(disk, id).quarantine == Tx(old(disk), id).quarantine
      ensures ok ==> id in disk.checkpoints && disk.owned == Image(disk.checkpoints[id])
      ensures FaultFree(old(operations)) ==> (ok <==> !Tx(old(disk), id).probe && !Refused(old(disk), id, tag))
      ensures tag == InterruptedRollback && Doomed(old(disk), base) ==> !ok && DoomedFrom(|old(trace)|)
    {
      hide Valid, Inv, Next, Backupable, Verified, Structured, Do, Enabled;
      CurrentCheckpoint();
      var previous := disk.checkpoints[id];
      ImageIsBackupable(previous, checks);
      ok := ApplyMaterialized(id, previous, tag);
      if ok {
        ok := ValidateApplied(id, previous);
      }
    }

    /** Returns the quarantined files and closes a rollback whose checkpoint is in place. */
    method CloseRollback(id: RecoveryId, rows: seq<ActionablePath>) returns (ok: bool)
      requires Valid() && Holding() && id == base.id && InPhase(disk, base, {RollingBack}) && base.mode.Replace?
      requires id in disk.checkpoints && disk.owned == Image(disk.checkpoints[id])
      requires forall p | p in Tx(disk, id).quarantine :: p in rows
      modifies this`disk, this`operations, this`trace
      ensures Valid() && old(trace) <= trace && old(operations) <= operations && Mine(disk, base)
      ensures if ok then Undone() else Interrupted(disk)
      ensures FaultFree(old(operations)) ==> ok
    {
      hide Valid, Inv, Next, Backupable, Verified, Structured;
      CurrentlySplit();
      ok := RestoreQuarantine(id, rows);
      if ok {
        ok := SavePhase(id, RolledBack);
      }
      if ok {
        RolledBackIsUndone();
      }
    }

    /** Rolls back: the checkpoint in place, the quarantined files returned, the recovery closed. */
    method ApplyCheckpoint(id: RecoveryId, opens: bool, tag: Label, rows: seq<ActionablePath>) returns (ok: bool)
      requires Valid() && Holding() && id == base.id && Mine(disk, base) && Interrupted(disk)
      requires base.mode.Replace? && (tag == InterruptedRollback || tag == Rollback)
      requires forall p | p in Tx(disk, id).quarantine :: p in rows
      modifies this`disk, this`operations, this`trace
      ensures Valid() && old(trace) <= trace && old(operations) <= operations && Mine(disk, base)
      ensures if ok then Undone() else Interrupted(disk)
      ensures !opens ==> disk.owned == old(disk).owned && disk.home == old(disk).home
      ensures FaultFree(old(operations)) ==>
                (ok <==> opens && !Tx(old(disk), id).probe && !Refused(old(disk), id, tag))
      ensures tag == InterruptedRollback && Doomed(old(disk), base) ==>
                !ok && Doomed(disk, base) && DoomedFrom(|old(trace)|)
    {
      hide Valid, Inv, Next, Backupable, Verified, Structured, Do, Enabled, Undone;
      ok := SavePhase(id, RollingBack);
      if !ok {
        return;
      }
      ok := Effort();
      if !ok || !opens {
        return false;
      }
      ok := ReapplyCheckpoint(id, tag);
      if tag == InterruptedRollback && Doomed(old(disk), base) {
        DoomedNow(|old(trace)|);
      }
      if ok {
        ok := CloseRollback(id, rows);
      }
    }

    method Block(id: RecoveryId)
      requires Valid() && Holding() && id == base.id && Mine(disk, base) && Interrupted(disk)
      modifies this`disk, this`operations, this`trace
      ensures Valid() && old(trace) <= trace && Mine(disk, base) && Interrupted(disk)
      ensures disk == old(disk).(journal := disk.journal)
      ensures Doomed(old(disk), base) ==> DoomedFrom(|old(trace)|)
    {
      hide Valid, Inv, Next, Backupable, Structured, Verified;
      var _ := SavePhase(id, Blocked);
    }

    /** The encrypted safety copy that a REPLACE restore retains. */
    method CreateCheckpoint(id: RecoveryId) returns (ok: bool)
      requires Valid() && Holding() && id == base.id && !Mine(disk, base) && StartAllowed(disk)
      requires base.mode.Replace? && !base.touched
      modifies this`disk, this`operations, this`trace
      ensures Valid() && operations >= old(operations)
      ensures disk == old(disk).(checkpoints := disk.checkpoints)
      ensures ok ==> id in disk.checkpoints && Some(disk.checkpoints[id]) == Snapshot(disk.owned, checks)
      ensures FaultFree(old(operations)) ==> (ok <==> Backupable(disk.owned, checks))
    {
      hide Valid, Inv, Next;
      if !Backupable(disk.owned, checks) {
        return false;
      }
      ok := Attempt(id, WriteCheckpoint(Snapshot(disk.owned, checks).value));
    }

    /** Applies the backup, validates it, and compensates when that fails. */
    method ApplyBackup(id: RecoveryId, c: Contents, mode: Mode) returns (r: Outcome)
      requires Valid() && Holding() && id == base.id && InPhase(disk, base, {Applying})
      requires c == base.backup && mode == base.mode && Verified(c, checks)
      requires Tx(disk, id) == EMPTY_TRANSACTION
      modifies this`disk, this`operations, this`trace
      ensures Valid() && Mine(disk, base)
      ensures r.Done? ==> r.phase == Hold && Restored()
      ensures r == Failed(RestoreFailed) ==> base.mode.Replace? && Undone()
      ensures r.Failed? && r.error != RestoreFailed ==> Interrupted(disk)
      ensures FaultFree(old(operations)) ==> (r.Done? <==> checks.bounded(c))
    {
      hide Valid, Inv, Next, Backupable, Structured, Verified;
      CurrentlySplit();
      ImageIsBackupable(c, checks);
      var ok, rows := QuarantineActionableState(id);
      if !ok {
        return Failed(OperatingSystemFailure);
      }
      ok := ApplyMaterialized(id, c, Apply);
      if ok {
        ok := SavePhase(id, Verifying);
      }
      if ok {
        ok := ValidateApplied(id, c);
      }
      if !ok {
        if mode.Replace? {
          ok := ApplyCheckpoint(id, true, Rollback, rows);
          if ok {
            return Failed(RestoreFailed);
          }
        }
        Block(id);
        return Failed(RecoveryBlocked);
      }
      ok := SavePhase(id, Hold);
      if !ok {
        return Failed(OperatingSystemFailure);
      }
      HoldIsRestored();
      return Done(Hold);
    }

    /** The restore session once both writer leases are held. */
    method RestoreHeld(first: Option<Bundle>, second: Option<Bundle>, expected: BackupId, mode: Mode, id: RecoveryId)
      returns (r: Outcome)
      requires Valid() && Holding() && Unused(disk, id)
      requires first.Some? ==> Verified(first.value.contents, checks)
      requires second.Some? ==> Verified(second.value.contents, checks)
      modifies this`disk, this`operations, this`trace, this`base
      ensures Valid()
      ensures !CanBegin(old(disk), first, expected, mode) ==> r.Failed? && disk == old(disk)
      ensures r.Done? ==> r.phase == Hold && Restored() && Confirmed(second, expected)
                          && base == NewBase(id, mode, second.value, old(disk))
      ensures r == Failed(RestoreFailed) ==> Undone() && Confirmed(second, expected)
                                             && base == NewBase(id, Replace, second.value, old(disk))
      ensures r.Failed? && r.error != RestoreFailed ==>
                || Interrupted(disk)
                || disk == old(disk).(checkpoints := disk.checkpoints)
      ensures FaultFree(old(operations)) ==>
                (r.Done? <==> && CanBegin(old(disk), first, expected, mode)
                              && (mode.Replace? ==> Backupable(old(disk).owned, checks))
                              && Confirmed(second, expected) && checks.bounded(second.value.contents))
      ensures FaultFree(old(operations)) ==>
                if old(disk).journal.Some? && old(disk).journal.value.phase !in {Released, RolledBack} then
                  r == Failed(RecoveryInProgress)
                else if first.None? then r == Failed(InvalidBackup)
                else if !first.value.supported then r == Failed(BackupVersionUnsupported)
                else if first.value.id != expected then r == Failed(RestoreConfirmationStale)
                else if mode.Fresh? && exists c | c in old(disk).owned.files :: c != Identity then
                  r == Failed(FreshTargetNotEmpty)
                else if mode.Fresh? && old(disk).owned.skills.GetOr(map[]) != map[] then
                  r == Failed(FreshTargetNotEmpty)
                else if mode.Replace? && !Backupable(old(disk).owned, checks) then r == Failed(CurrentHomeIncomplete)
                else if second.None? then r == Failed(InvalidBackup)
                else if !second.value.supported then r == Failed(BackupVersionUnsupported)
                else if second.value.id != expected then r == Failed(RestoreConfirmationStale)
                else if checks.bounded(second.value.contents) then r == Done(Hold)
                else r.Failed?
    {
      hide Valid, Inv, Next, Backupable, Structured, Verified;
      if !StartAllowed(disk) {
        return Failed(RecoveryInProgress);
      }
      if first.None? {
        return Failed(InvalidBackup);
      }
      if !first.value.supported {
        return Failed(BackupVersionUnsupported);
      }
      if first.value.id != expected {
        return Failed(RestoreConfirmationStale);
      }
      if mode.Fresh? && !FreshTarget(disk.owned) {
        return Failed(FreshTargetNotEmpty);
      }
      CurrentJournalIsSound();
      ghost var bundle := if Confirmed(second, expected) then second.value else first.value;
      base := NewBase(id, mode, bundle, disk);
      trace := [disk];
      BeginIsValid();
      var ok: bool;
      if mode.Replace? {
        ok := CreateCheckpoint(id);
        if !ok {
          return Failed(CurrentHomeIncomplete);
        }
        ok := Attempt(id, SaveJournal(Journal(id, expected, Replace, Checkpointed, Some(id))));
        if !ok {
          return Failed(OperatingSystemFailure);
        }
      }
      ok := Effort();
      if !ok || second.None? {
        return Failed(InvalidBackup);
      }
      if !second.value.supported {
        return Failed(BackupVersionUnsupported);
      }
      if second.value.id != expected {
        return Failed(RestoreConfirmationStale);
      }
      if mode.Replace? {
        ok := SavePhase(id, Applying);
      } else {
        ok := Attempt(id, SaveJournal(Journal(id, expected, Fresh, Applying, None)));
      }
      if !ok {
        return Failed(OperatingSystemFailure);
      }
      r := ApplyBackup(id, second.value.contents, mode);
    }

    lemma CurrentJournalIsSound()
      requires Valid()
      ensures SoundJournal(disk)
    {
      assert Inv(trace[|trace| - 1], base, checks);
    }

    lemma BeginIsValid()
      requires SoundJournal(disk)
      requires trace == [disk] && StartAllowed(disk) && Unused(disk, base.id) && Verified(base.backup, checks)
      requires base.start == disk.owned && base.actionable == disk.home
      ensures Valid() && !Mine(disk, base)
    {
    }

    /** One whole restore session, including its writer leases. */
    method Restore(g: Guards, first: Option<Bundle>, second: Option<Bundle>, expected: BackupId, mode: Mode,
      id: RecoveryId)
      returns (r: Outcome)
      requires Valid() && !homeHeld && !daemonHeld && Unused(disk, id)
      requires first.Some? ==> Verified(first.value.contents, checks)
      requires second.Some? ==> Verified(second.value.contents, checks)
      modifies this
      ensures Valid() && !homeHeld && !daemonHeld
      ensures !GuardsFree(g) || !CanBegin(old(disk), first, expected, mode) ==> r.Failed? && disk == old(disk)
      ensures mode.Fresh? && (exists c | c in old(disk).owned.files :: c != Identity) ==> r.Failed? && disk == old(disk)
      ensures mode.Fresh? && old(disk).owned.skills.Some? && old(disk).owned.skills.value != map[] ==>
                r.Failed? && disk == old(disk)
      ensures r.Done? ==> r.phase == Hold && Restored() && Confirmed(second, expected)
                          && base == NewBase(id, mode, second.value, old(disk))
      ensures r == Failed(RestoreFailed) ==> Undone() && Confirmed(second, expected)
                                             && base == NewBase(id, Replace, second.value, old(disk))
      ensures r.Failed? && r.error != RestoreFailed ==>
                || Interrupted(disk)
                || disk == old(disk).(checkpoints := disk.checkpoints)
      ensures FaultFree(old(operations)) ==>
                (r.Done? <==> && GuardsFree(g)
                              && CanBegin(old(disk), first, expected, mode)
                              && (mode.Replace? ==> Backupable(old(disk).owned, checks))
                              && Confirmed(second, expected) && checks.bounded(second.value.contents))
      ensures !g.quiescent || !g.homeFree || !g.daemonFree ==> r == Failed(HomeNotQuiescent)
      ensures FaultFree(old(operations)) && g.quiescent && g.homeFree && g.daemonFree ==>
                if old(disk).journal.Some? && old(disk).journal.value.phase !in {Released, RolledBack} then
                  r == Failed(RecoveryInProgress)
                else if first.None? then r == Failed(InvalidBackup)
                else if !first.value.supported then r == Failed(BackupVersionUnsupported)
                else if first.value.id != expected then r == Failed(RestoreConfirmationStale)
                else if mode.Fresh? && exists c | c in old(disk).owned.files :: c != Identity then
                  r == Failed(FreshTargetNotEmpty)
                else if mode.Fresh? && old(disk).owned.skills.GetOr(map[]) != map[] then
                  r == Failed(FreshTargetNotEmpty)
                else if mode.Replace? && !Backupable(old(disk).owned, checks) then r == Failed(CurrentHomeIncomplete)
                else if second.None? then r == Failed(InvalidBackup)
                else if !second.value.supported then r == Failed(BackupVersionUnsupported)
                else if second.value.id != expected then r == Failed(RestoreConfirmationStale)
                else if checks.bounded(second.value.contents) then r == Done(Hold)
                else r.Failed?
      ensures r.Done? ==>
                && disk.owned == Owned(second.value.contents.files, Some(second.value.contents.skills))
                && disk.home == map[] && Tx(disk, id).quarantine == old(disk).home
      ensures r == Failed(RestoreFailed) ==>
                && disk.home == old(disk).home && Tx(disk, id).quarantine == map[]
                && disk.owned == Image(Held(old(disk).owned, checks))
    {
      hide Valid, Inv, Next, Backupable, Structured, Verified;
      var held := AcquireGuards(g);
      if !held {
        return Failed(HomeNotQuiescent);
      }
      r := RestoreHeld(first, second, expected, mode, id);
      ReleaseGuards();
    }

    // -------------------------------------------------------------- repair after an interruption

    method RecoverReplace(id: RecoveryId, opens: bool) returns (r: Outcome)
      requires Valid() && Holding() && id == base.id && Mine(disk, base) && Interrupted(disk)
      requires base.mode.Replace?
      modifies this`disk, this`operations, this`trace
      ensures Valid() && old(trace) <= trace
      ensures if r.Done? then r.phase == RolledBack && Undone() else Mine(disk, base) && Interrupted(disk)
      ensures !opens ==> disk.owned == old(disk).owned && disk.home == old(disk).home
      ensures FaultFree(old(operations)) ==> (r.Done? <==> opens && !Doomed(old(disk), base))
      ensures Doomed(old(disk), base) ==> r.Failed? && DoomedFrom(|old(trace)|)
    {
      hide Valid, Inv, Next, Backupable, Structured, Verified;
      CurrentCheckpoint();
      if disk.journal.value.checkpoint != Some(id) || id !in disk.checkpoints {
        return Failed(RecoveryBlocked);
      }
      forall p | p in Tx(disk, id).quarantine
        ensures p in QUARANTINED_PATHS
      {
        ActionablePathsListed(p);
      }
      var ok := ApplyCheckpoint(id, opens, InterruptedRollback, QUARANTINED_PATHS);
      if ok {
        return Done(RolledBack);
      }
      Block(id);
      return Failed(RecoveryBlocked);
    }

    /** Removes what a FRESH restore may have put in place, one file and one package at a time. */
    method ResetPartialFreshTargets(id: RecoveryId) returns (ok: bool)
      requires Valid() && Holding() && id == base.id && Mutable(disk, base) && base.mode.Fresh?
      modifies this`disk, this`operations, this`trace
      ensures Valid() && old(trace) <= trace && operations >= old(operations)
      ensures disk == PutOwned(old(disk), disk.owned)
      ensures ok ==> disk.owned.skills.None? && disk.owned.files.Keys <= {Identity}
      ensures FaultFree(old(operations)) ==> ok
      ensures Doomed(old(disk), base) ==> Doomed(disk, base) && DoomedFrom(|old(trace)|)
    {
      hide Valid, Inv, Next, Backupable, Structured, Verified;
      for i := 0 to |V1_STATIC_INVENTORY|
        invariant Valid() && old(trace) <= trace && operations >= old(operations)
        invariant disk == PutOwned(old(disk), disk.owned)
        invariant forall m | 0 <= m < i ::
                    V1_STATIC_INVENTORY[m] != Identity ==> V1_STATIC_INVENTORY[m] !in disk.owned.files
        invariant Doomed(old(disk), base) ==> Doomed(disk, base) && DoomedFrom(|old(trace)|)
      {
        var component := V1_STATIC_INVENTORY[i];
        if component != Identity && component in disk.owned.files {
          ok := Attempt(id, RemoveFile(component));
          if !ok {
            return;
          }
        }
      }
      forall c | c in disk.owned.files
        ensures c == Identity
      {
        InventoryListsEachOnce(c);
      }
      ok := RemoveSkillTree(id);
    }

    method RemoveSkillTree(id: RecoveryId) returns (ok: bool)
      requires Valid() && Holding() && id == base.id && Mutable(disk, base) && base.mode.Fresh?
      modifies this`disk, this`operations, this`trace
      ensures Valid() && old(trace) <= trace && operations >= old(operations)
      ensures disk == PutOwned(old(disk), old(disk).owned.(skills := disk.owned.skills))
      ensures ok ==> disk.owned.skills.None?
      ensures FaultFree(old(operations)) ==> ok
      ensures Doomed(old(disk), base) ==> Doomed(disk, base) && DoomedFrom(|old(trace)|)
    {
      hide Valid, Inv, Next, Backupable, Structured, Verified;
      if disk.owned.skills.None? {
        return true;
      }
      while disk.owned.skills.value != map[]
        invariant Valid() && old(trace) <= trace && operations >= old(operations)
        invariant disk.owned.skills.Some?
        invariant disk == PutOwned(old(disk), old(disk).owned.(skills := disk.owned.skills))
        invariant Doomed(old(disk), base) ==> Doomed(disk, base) && DoomedFrom(|old(trace)|)
        decreases disk.owned.skills.value.Keys
      {
        var s :| s in disk.owned.skills.value;
        ok := Attempt(id, ShrinkSkills(Some(disk.owned.skills.value - {s})));
        if !ok {
          return;
        }
      }
      ok := Attempt(id, ShrinkSkills(None));
    }

    /** Puts the confirmed backup in place of whatever an earlier FRESH attempt left. */
    method PlaceFreshly(id: RecoveryId, c: Contents) returns (ok: bool)
      requires Valid() && Holding() && id == base.id && Mutable(disk, base) && Interrupted(disk)
      requires base.mode.Fresh? && disk.owned.skills.None? && Verified(c, checks)
      modifies this`disk, this`operations, this`trace
      ensures Valid() && old(trace) <= trace && operations >= old(operations)
      ensures disk.journal == old(disk).journal && Tx(disk, id).probe == Tx(old(disk), id).probe
      ensures ok ==> disk.owned == Image(c) && disk.home == map[]
      ensures FaultFree(old(operations)) ==> ok
      ensures Tx(old(disk), id).probe ==> DoomedFrom(|old(trace)|)
    {
      hide Valid, Inv, Next, Backupable, Structured, Verified, Do, Enabled;
      CurrentlySplit();
      var rows;
      ok, rows := QuarantineActionableState(id);
      if ok {
        ok := ApplyMaterialized(id, c, FreshRetry);
      }
    }

    /** Validates a retried FRESH restore and puts it on hold. */
    method FinishFreshly(id: RecoveryId, c: Contents) returns (ok: bool)
      requires Valid() && Holding() && id == base.id && Mutable(disk, base) && Interrupted(disk)
      requires base.mode.Fresh? && disk.journal.value.phase != RollingBack && disk.home == map[]
      requires c == base.backup && disk.owned == Image(c) && Verified(c, checks)
      modifies this`disk, this`operations, this`trace
      ensures Valid() && old(trace) <= trace && operations >= old(operations) && Mine(disk, base)
      ensures if ok then Restored() else Interrupted(disk)
      ensures FaultFree(old(operations)) ==> (ok <==> !Tx(old(disk), id).probe && checks.bounded(c))
      ensures Tx(old(disk), id).probe ==> !ok && Tx(disk, id).probe && DoomedFrom(|old(trace)|)
    {
      hide Valid, Inv, Next, Backupable, Structured, Verified, Do, Enabled;
      ImageIsBackupable(c, checks);
      CurrentlySplit();
      ok := SavePhase(id, Verifying);
      if ok {
        ok := ValidateApplied(id, c);
      }
      if ok {
        ok := SavePhase(id, Hold);
      }
      if ok {
        HoldIsRestored();
      }
    }

    method RetryFresh(id: RecoveryId, archive: Option<Bundle>) returns (ok: bool, error: Failure)
      requires Valid() && Holding() && id == base.id && Mine(disk, base) && Interrupted(disk)
      requires archive.Some? ==> Verified(archive.value.contents, checks)
      requires base.mode.Fresh?
      requires Confirmed(archive, base.backupId) ==> archive.value.contents == base.backup
      modifies this`disk, this`operations, this`trace
      ensures Valid() && old(trace) <= trace && Mine(disk, base)
      ensures if ok then Restored() else Interrupted(disk)
      ensures FaultFree(old(operations)) ==>
                (ok <==> Confirmed(archive, base.backupId) && checks.bounded(base.backup) && !Doomed(old(disk), base))
      ensures Doomed(old(disk), base) ==> !ok && Doomed(disk, base) && DoomedFrom(|old(trace)|)
    {
      hide Valid, Inv, Next, Backupable, Structured, Verified;
      CurrentFreshPhase();
      CurrentlySplit();
      var expected := disk.journal.value.backupId;
      error := RecoveryBlocked;
      ok := ResetPartialFreshTargets(id);
      if ok {
        ok := Effort();
      }
      if !ok || archive.None? {
        return false, RecoveryBlocked;
      }
      if !archive.value.supported {
        return false, BackupVersionUnsupported;
      }
      if archive.value.id != expected {
        return false, RestoreConfirmationStale;
      }
      ok := PlaceFreshly(id, archive.value.contents);
      if ok {
        ok := FinishFreshly(id, archive.value.contents);
      }
    }

    lemma CurrentFreshPhase()
      requires Valid() && Mine(disk, base) && Interrupted(disk)
      ensures disk.journal.value.mode == base.mode && disk.journal.value.backupId == base.backupId
      ensures base.mode.Fresh? ==> Mutable(disk, base) && disk.journal.value.phase != RollingBack
    {
      assert Inv(trace[|trace| - 1], base, checks);
    }

    /** Only the recovery that `base` describes can be interrupted or on hold. */
    lemma CurrentIsMine()
      requires Valid() && (Interrupted(disk) || ReleaseAllowed(disk))
      ensures Mine(disk, base)
    {
      assert Inv(trace[|trace| - 1], base, checks);
    }

    method RecoverFresh(id: RecoveryId, archive: Option<Bundle>) returns (r: Outcome)
      requires Valid() && Holding() && id == base.id && Mine(disk, base) && Interrupted(disk)
      requires archive.Some? ==> Verified(archive.value.contents, checks)
      requires base.mode.Fresh?
      requires Confirmed(archive, base.backupId) ==> archive.value.contents == base.backup
      modifies this`disk, this`operations, this`trace
      ensures Valid() && old(trace) <= trace && Mine(disk, base)
      ensures if r.Done? then r.phase == Hold && Restored() else Interrupted(disk)
      ensures FaultFree(old(operations)) ==>
                (r.Done? <==>
                 Confirmed(archive, base.backupId) && checks.bounded(base.backup) && !Doomed(old(disk), base))
      ensures Doomed(old(disk), base) ==> r.Failed? && DoomedFrom(|old(trace)|)
    {
      hide Valid, Inv, Next, Backupable, Structured, Verified;
      var ok, error := RetryFresh(id, archive);
      if ok {
        return Done(Hold);
      }
      Block(id);
      return Failed(error);
    }

    /** What the operator supplies is enough to repair the interrupted recovery. */
    ghost predicate CanRepair(opens: bool, source: Source, expected: Option<BackupId>)
      reads `base
    {
      if base.mode.Replace? then opens
      else
        && Asked(source, expected, base.backupId) && Confirmed(source.read, base.backupId)
        && checks.bounded(base.backup)
    }

    /**
      * One whole repair session for a retained, incomplete transaction. Every archive that carries the journaled backup
      * id holds the journaled backup.
      */
    method RecoverInterrupted(g: Guards, opens: bool, source: Source, expected: Option<BackupId>)
      returns (r: Outcome)
      requires Valid() && !homeHeld && !daemonHeld
      requires source.Named? && source.read.Some? ==> Verified(source.read.value.contents, checks)
      requires source.Named? && source.read.Some? && source.read.value.id == base.backupId ==>
                 source.read.value.contents == base.backup
      modifies this
      ensures Valid() && !homeHeld && !daemonHeld && base == old(base)
      ensures !GuardsFree(g) || !Interrupted(old(disk)) ==> r.Failed? && disk == old(disk)
      ensures base.mode.Fresh? && !Asked(source, expected, base.backupId) ==> r.Failed? && disk == old(disk)
      ensures r.Done? ==> if base.mode.Replace? then r.phase == RolledBack && Undone()
                          else r.phase == Hold && Restored()
      ensures r.Done? && base.mode.Replace? ==>
                && disk.journal.Some? && disk.journal.value.phase == RolledBack
                && disk.owned.files == base.start.files && disk.home == base.actionable
                && Tx(disk, base.id).quarantine == map[]
      ensures r.Done? && base.mode.Fresh? ==>
                && disk.journal.Some? && disk.journal.value.phase == Hold
                && disk.owned == Owned(base.backup.files, Some(base.backup.skills)) && disk.home == map[]
                && Tx(disk, base.id).quarantine == base.actionable
      ensures Interrupted(old(disk)) && r.Failed? ==> Interrupted(disk)
      ensures FaultFree(old(operations)) ==>
                (r.Done? <==> && GuardsFree(g) && Interrupted(old(disk))
                              && CanRepair(opens, source, expected) && !Doomed(old(disk), base))
      ensures !g.quiescent || !g.homeFree || !g.daemonFree ==> r == Failed(HomeNotQuiescent)
      ensures FaultFree(old(operations)) && g.quiescent && g.homeFree && g.daemonFree ==>
                if old(disk).journal.None? || old(disk).journal.value.phase in {Hold, Released, RolledBack} then
                  r == Failed(RecoveryNotInterrupted)
                else if base.mode.Replace? then
                  r.Done? <==>
                  && opens && !Tx(old(disk), base.id).probe
                  && (old(disk).owned.skills.Some? ==>
                        InterruptedRollback !in Tx(old(disk), base.id).aside
                        || Tx(old(disk), base.id).aside[InterruptedRollback] == map[])
                else if source.NotNamed? || expected != Some(base.backupId) then
                  r == Failed(RestoreConfirmationStale)
                else
                  r.Done? <==>
                  && source.read.Some? && source.read.value.supported && source.read.value.id == base.backupId
                  && checks.bounded(base.backup) && !Tx(old(disk), base.id).probe
      ensures Interrupted(old(disk)) && Doomed(old(disk), base) ==>
                r.Failed? && trace[0] == old(disk) && DoomedFrom(0)
    {
      hide Inv, Next, Backupable, Structured, Verified;
      CurrentJournalIsSound();
      trace := trace[|trace| - 1..];
      var held := AcquireGuards(g);
      if !held {
        return Failed(HomeNotQuiescent);
      }
      if !Interrupted(disk) {
        r := Failed(RecoveryNotInterrupted);
      } else {
        CurrentIsMine();
        CurrentFreshPhase();
        var id := disk.journal.value.id;
        if disk.journal.value.mode.Replace? {
          r := RecoverReplace(id, opens);
        } else if !Asked(source, expected, disk.journal.value.backupId) {
          r := Failed(RestoreConfirmationStale);
        } else {
          r := RecoverFresh(id, source.read);
        }
      }
      ReleaseGuards();
    }

    // -------------------------------------------------------------- leaving Recovery Hold

    method ReleaseHeld(id: RecoveryId) returns (r: Outcome)
      requires Valid() && Holding() && id == base.id && InPhase(disk, base, {Hold})
      modifies this`disk, this`operations, this`trace
      ensures Valid() && disk.owned == old(disk).owned && disk.home == old(disk).home
      ensures r.Done? ==> r.phase == Released && id !in disk.checkpoints
      ensures !InPhase(disk, base, {Released}) ==> disk == old(disk)
      ensures FaultFree(old(operations)) ==>
                (r.Done? <==> Structured(disk.owned, checks))
                && (r.Done? ==> InPhase(disk, base, {Released}) && id !in disk.transactions)
      ensures FaultFree(old(operations)) && !Structured(disk.owned, checks) ==> r == Failed(RestoreValidationFailed)
    {
      hide Valid, Inv, Next, Backupable, Structured, Verified;
      if !Structured(disk.owned, checks) {
        return Failed(RestoreValidationFailed);
      }
      var ok := SavePhase(id, Released);
      if !ok {
        return Failed(OperatingSystemFailure);
      }
      var _ := Attempt(id, RemoveTransaction); // a failure to clean up is ignored
      if id in disk.checkpoints {
        ok := Attempt(id, RemoveCheckpoint);
        if !ok {
          return Failed(OperatingSystemFailure);
        }
      }
      return Done(Released);
    }

    method ReleaseRecoveryHold(g: Guards) returns (r: Outcome)
      requires Valid() && !homeHeld && !daemonHeld
      modifies this
      ensures Valid() && !homeHeld && !daemonHeld && base == old(base)
      ensures disk.owned == old(disk).owned && disk.home == old(disk).home
      ensures !GuardsFree(g) || !ReleaseAllowed(old(disk)) ==> r.Failed? && disk == old(disk)
      ensures !InPhase(disk, base, {Released}) ==> disk == old(disk)
      ensures r.Done? ==> r.phase == Released && base.id !in disk.checkpoints
      ensures FaultFree(old(operations)) ==>
                (r.Done? <==> GuardsFree(g) && ReleaseAllowed(old(disk)) && Structured(old(disk).owned, checks))
                && (r.Done? ==> InPhase(disk, base, {Released}) && base.id !in disk.transactions)
      ensures !g.quiescent || !g.homeFree || !g.daemonFree ==> r == Failed(HomeNotQuiescent)
      ensures FaultFree(old(operations)) && g.quiescent && g.homeFree && g.daemonFree ==>
                r == if old(disk).journal.None? || old(disk).journal.value.phase != Hold then
                       Failed(RecoveryHoldNotActive)
                     else if !Structured(old(disk).owned, checks) then Failed(RestoreValidationFailed)
                     else Done(Released)
    {
      hide Valid, Inv, Next, Backupable, Structured, Verified;
      var held := AcquireGuards(g);
      if !held {
        return Failed(HomeNotQuiescent);
      }
      if !ReleaseAllowed(disk) {
        r := Failed(RecoveryHoldNotActive);
      } else {
        CurrentIsMine();
        r := ReleaseHeld(disk.journal.value.id);
      }
      ReleaseGuards();
    }
  }

  /** The checks that a restore makes before it changes anything. */
  predicate CanBegin(d: Disk, read: Option<Bundle>, expected: BackupId, mode: Mode) {
    && StartAllowed(d)
    && Confirmed(read, expected)
    && (mode.Fresh? ==> FreshTarget(d.owned))
  }

  function NewBase(id: RecoveryId, mode: Mode, bundle: Bundle, d: Disk): Base {
    Base(id, mode, bundle.id, bundle.contents, d.owned, d.home, false)
  }

  lemma ImageIsBackupable(c: Contents, k: Checks)
    requires Verified(c, k)
    ensures Structured(Image(c), k) && (Backupable(Image(c), k) <==> k.bounded(c))
  {
    HeldByImage(c, k);
  }

  lemma BackupableIsStructured(o: Owned, k: Checks)
    ensures Backupable(o, k) ==> Structured(o, k)
  {
  }

  predicate SameAt(files: map<ComponentId, Bytes>, wanted: map<ComponentId, Bytes>, c: ComponentId) {
    (c in files <==> c in wanted) && (c in files ==> files[c] == wanted[c])
  }

  lemma VerifiedIsComplete(c: Contents, k: Checks)
    requires Verified(c, k)
    ensures REQUIRED <= c.files.Keys
  {
  }

  lemma SameEverywhere(files: map<ComponentId, Bytes>, wanted: map<ComponentId, Bytes>)
    requires forall m | 0 <= m < |V1_STATIC_INVENTORY| :: SameAt(files, wanted, V1_STATIC_INVENTORY[m])
    ensures files == wanted
  {
    forall c: ComponentId
      ensures (c in files <==> c in wanted) && (c in files ==> files[c] == wanted[c])
    {
      InventoryListsEachOnce(c);
      assert SameAt(files, wanted, V1_STATIC_INVENTORY[Position(c)]);
    }
  }
}
