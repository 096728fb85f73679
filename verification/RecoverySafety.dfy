/**
  * What holds at every moment of every run: any number of restores, repairs and releases, each cut
  * short by a crash between any two steps, with the Home itself running whenever its gate is open.
  */
module RecoverySafety {
  import opened Common
  import opened Inventory
  import opened RecoveryProtocol

  datatype Moment = Moment(disk: Disk, base: Base)

  /** A restore session has passed its checks and fixed what it works towards. */
  predicate Begins(d: Disk, b: Base, k: Checks) {
    && StartAllowed(d) && Unused(d, b.id) && Verified(b.backup, k)
    && b.start == d.owned && b.actionable == d.home && !b.touched
  }

  /** The Home runs and writes whatever it likes to its own files. */
  predicate HomeRuns(m: Moment, m': Moment) {
    && RuntimeAllowed(m.disk)
    && m' == Moment(m.disk.(owned := m'.disk.owned, home := m'.disk.home), m.base.(touched := true))
  }

  ghost predicate RunStep(m: Moment, m': Moment, k: Checks) {
    || (m'.base == m.base && Next(m.disk, m'.disk, m.base, k))
    || (m'.disk == m.disk && Begins(m.disk, m'.base, k))
    || HomeRuns(m, m')
  }

  ghost predicate IsRun(run: seq<Moment>, k: Checks) {
    && run != []
    && run[0].disk.journal.None? && Begins(run[0].disk, run[0].base, k)
    && forall i | 0 < i < |run| :: RunStep(run[i - 1], run[i], k)
  }

  lemma {:induction false} RunKeepsInv(run: seq<Moment>, k: Checks, i: nat)
    requires IsRun(run, k) && i < |run|
    ensures Inv(run[i].disk, run[i].base, k)
  {
    if i > 0 {
      RunKeepsInv(run, k, i - 1);
      RunStepKeepsInv(run[i - 1], run[i], k);
    }
  }

  lemma RunStepKeepsInv(m: Moment, m': Moment, k: Checks)
    requires RunStep(m, m', k) && Inv(m.disk, m.base, k)
    ensures Inv(m'.disk, m'.base, k)
  {
    hide Backupable, Verified, FreshTarget, Enabled, Do;
    if m'.base == m.base && Next(m.disk, m'.disk, m.base, k) {
      var a :| Enabled(m.disk, m.base, a, k) && m'.disk == Do(m.disk, m.base.id, a);
      StepKeepsInv(m.disk, m.base, a, k);
    }
  }

  /** The owned inventory is exactly one of the wholes that the journal can answer for. */
  predicate Whole(d: Disk, b: Base, k: Checks) {
    if !Mine(d, b) || d.journal.value.phase == Checkpointed then d.owned == b.start && d.home == b.actionable
    else match d.journal.value.phase
      case Hold => d.owned == Image(b.backup) && d.home == map[]
      case Released => d.owned == Image(b.backup)
      case RolledBack =>
        && Backupable(b.start, k) && d.owned == Image(Snapshot(b.start, k).value) && d.home == b.actionable
      case _ => false
  }

  /**
    * Crash atomicity: a mix of old and new files exists only while the journal keeps the Home, its
    * background work and a new restore from starting.
    */
  lemma CrashAtomicity(run: seq<Moment>, k: Checks, i: nat)
    requires IsRun(run, k) && i < |run|
    ensures var d, b := run[i].disk, run[i].base;
            && (!Whole(d, b, k) && !b.touched ==>
                  !RuntimeAllowed(d) && !BackgroundAllowed(d) && !StartAllowed(d) && Interrupted(d))
            && (b.touched ==> RuntimeAllowed(d))
  {
    hide Backupable, Verified, FreshTarget;
    RunKeepsInv(run, k, i);
  }

  /** On entering Recovery Hold the Home is the backup; on entering ROLLED_BACK it is the checkpoint. */
  lemma EnteringTerminalPhases(run: seq<Moment>, k: Checks, i: nat)
    requires IsRun(run, k) && 0 < i < |run|
    requires Interrupted(run[i - 1].disk) && !Interrupted(run[i].disk)
    ensures var d, b := run[i].disk, run[i].base;
            && Mine(d, b) && d.journal.value.phase in {Hold, RolledBack}
            && (d.journal.value.phase == Hold ==>
                  d.owned == Image(b.backup) && d.home == map[] && Tx(d, b.id).quarantine == b.actionable)
            && (d.journal.value.phase == RolledBack ==>
                  && b.mode.Replace? && HasCheckpoint(d, b, k)
                  && d.owned == Image(d.checkpoints[b.id])
                  && d.home == b.actionable && Tx(d, b.id).quarantine == map[])
  {
    hide Backupable, Verified, FreshTarget, Enabled, Do;
    RunKeepsInv(run, k, i - 1);
    RunKeepsInv(run, k, i);
    assert RunStep(run[i - 1], run[i], k);
    OnlyTheJournalEndsAnInterruption(run[i - 1], run[i], k);
  }

  lemma OnlyTheJournalEndsAnInterruption(m: Moment, m': Moment, k: Checks)
    requires RunStep(m, m', k) && Inv(m.disk, m.base, k) && Interrupted(m.disk) && !Interrupted(m'.disk)
    ensures m'.base == m.base && Mine(m.disk, m.base) && Mine(m'.disk, m'.base)
    ensures m'.disk.journal.value.phase in {Hold, RolledBack}
  {
    hide Enabled, Do, Inv, Begins;
    var a :| Enabled(m.disk, m.base, a, k) && m'.disk == Do(m.disk, m.base.id, a);
    OtherActionsKeepTheJournal(m.disk, m.base.id, a);
    JournalEndsAnInterruption(m.disk, m.base, a, k);
  }

  lemma OtherActionsKeepTheJournal(d: Disk, id: RecoveryId, a: Action)
    ensures a.SaveJournal? || Do(d, id, a).journal == d.journal
  {
  }

  lemma JournalEndsAnInterruption(d: Disk, b: Base, a: Action, k: Checks)
    requires a.SaveJournal? && Enabled(d, b, a, k) && Inv(d, b, k)
    requires Interrupted(d) && !Interrupted(Do(d, b.id, a))
    ensures var d' := Do(d, b.id, a);
      Mine(d, b) && Mine(d', b) && d'.journal.value.phase in {Hold, RolledBack}
  {
    hide Backupable, Verified, FreshTarget;
  }

  /**
    * Quarantine conservation: from the first write of a recovery until its release, every actionable
    * path of the start is kept with its content, and during a transaction in exactly one place.
    */
  lemma QuarantineConservation(run: seq<Moment>, k: Checks, i: nat, p: ActionablePath)
    requires IsRun(run, k) && i < |run|
    requires Mine(run[i].disk, run[i].base) && run[i].disk.journal.value.phase != Released
    requires p in run[i].base.actionable
    ensures var d, b := run[i].disk, run[i].base;
            var kept := Tx(d, b.id).quarantine;
            && (p in kept ==> kept[p] == b.actionable[p])
            && (Interrupted(d) ==> (p in d.home <==> p !in kept) && (p in d.home ==> d.home[p] == b.actionable[p]))
            && (d.journal.value.phase == Hold ==> p in kept)
            && (d.journal.value.phase == RolledBack && !b.touched ==> p in d.home && d.home[p] == b.actionable[p])
  {
    hide Backupable, Verified, FreshTarget;
    RunKeepsInv(run, k, i);
  }

  /**
    * A fresh recovery that has begun started on a Home without packages and with no file but the identity: nothing that
    * it overwrites was worth a checkpoint.
    */
  lemma FreshStartsEmpty(run: seq<Moment>, k: Checks, i: nat)
    requires IsRun(run, k) && i < |run| && Mine(run[i].disk, run[i].base)
    requires run[i].disk.journal.value.mode.Fresh? || run[i].disk.journal.value.checkpoint.None?
    ensures var start := run[i].base.start;
      && (forall c | c in start.files :: c == Identity)
      && (start.skills.Some? ==> start.skills.value.Keys == {})
  {
    hide Backupable, Verified;
    RunKeepsInv(run, k, i);
  }

  /**
    * The gates, phase by phase: without a journal, and after a release or a rollback, everything may start; in Hold the
    * Home may run, without its background work, and be released; in between only a repair may run.
    */
  lemma Gates(run: seq<Moment>, k: Checks, i: nat)
    requires IsRun(run, k) && i < |run|
    ensures var d := run[i].disk;
      if d.journal.None? || d.journal.value.phase == Released || d.journal.value.phase == RolledBack then
        RuntimeAllowed(d) && BackgroundAllowed(d) && StartAllowed(d) && !ReleaseAllowed(d) && !Interrupted(d)
      else if d.journal.value.phase == Hold then
        RuntimeAllowed(d) && !BackgroundAllowed(d) && !StartAllowed(d) && ReleaseAllowed(d) && !Interrupted(d)
      else
        !RuntimeAllowed(d) && !BackgroundAllowed(d) && !StartAllowed(d) && !ReleaseAllowed(d) && Interrupted(d)
  {
    hide Backupable, Verified, FreshTarget;
    RunKeepsInv(run, k, i);
  }

  /** What a persisted journal can say, and which one operation it then admits. */
  lemma JournalStateMachine(run: seq<Moment>, k: Checks, i: nat)
    requires IsRun(run, k) && i < |run| && run[i].disk.journal.Some?
    ensures var d := run[i].disk; var j := d.journal.value;
            && j.phase != Previewed
            && (if Interrupted(d) then !StartAllowed(d) && !ReleaseAllowed(d)
                else StartAllowed(d) != ReleaseAllowed(d))
            && (j.mode.Fresh? ==> j.phase !in {Checkpointed, RollingBack, RolledBack} && j.checkpoint.None?)
            && (j.mode.Replace? ==> j.checkpoint == Some(j.id))
            && (j.mode.Replace? && j.phase != Released ==> j.id in d.checkpoints)
  {
    hide Backupable, Verified, FreshTarget;
    RunKeepsInv(run, k, i);
  }

  /** The states of one session, from the moment it fixed its base, are consecutive moments of a run. */
  lemma SessionExtendsRun(run: seq<Moment>, session: seq<Disk>, b: Base, k: Checks)
    requires IsRun(run, k) && session != []
    requires run[|run| - 1] == Moment(session[0], b)
    requires forall i | 0 < i < |session| :: Next(session[i - 1], session[i], b, k)
    ensures IsRun(run + seq(|session| - 1, i requires 0 <= i < |session| - 1 => Moment(session[i + 1], b)), k)
  {
    hide Next, Begins;
    var rest := seq(|session| - 1, i requires 0 <= i < |session| - 1 => Moment(session[i + 1], b));
    var all := run + rest;
    forall i | 0 < i < |all|
      ensures RunStep(all[i - 1], all[i], k)
    {
      if i >= |run| {
        var n := i - |run|;
        assert all[i] == Moment(session[n + 1], b);
        assert all[i - 1] == Moment(session[n], b);
        assert Next(session[n + 1 - 1], session[n + 1], b, k);
      }
    }
  }
}
