/** Applying a confirmed proposal to memory, with writes and status saves that may fail. */
module ConfirmedMutation {
  import opened Common
  import opened Proposals

  type Document = map<RecordId, Memory>

  datatype Action = Created | Edited | Hidden | Restored | Replaced

  datatype Event = Event(action: Action, proposal: ProposalId, record: RecordId)

  /** The memory document and its audit trail, replaced together in one transaction. */
  datatype World = World(document: Document, audit: seq<Event>)

  /** The document validator, for a document that a change would give. */
  type Schema = (Document, Change) -> bool

  function ActionOf(c: Change): Action {
    match c
    case Create(_) => Created
    case Edit(_, _) => Edited
    case Hide(_) => Hidden
    case Restore(_) => Restored
    case Supersede(_, _) => Replaced
  }

  function Subject(c: Change): RecordId {
    if c.Create? then c.record.id else c.target
  }

  const SUPERSEDED := "superseded"

  function Replacing(d: Document, c: Change, now: Time): Option<Document> {
    match c
    case Create(r) => if r.id in d then None else Some(d[r.id := r])
    case Edit(t, r) => if t !in d || r.id != t then None else Some(d[t := r.(updatedAt := now)])
    case Hide(t) => if t !in d then None else Some(d[t := d[t].(visible := false, updatedAt := now)])
    case Restore(t) => if t !in d then None else Some(d[t := d[t].(visible := true, updatedAt := now)])
    case Supersede(t, r) =>
      if t !in d || r.id in d || r.supersedes != Some(t) then None
      else Some(d[t := d[t].(status := SUPERSEDED, supersededBy := Some(r.id), updatedAt := now)][r.id := r])
  }

  /** The world with the proposal's change made and audited; nothing when the service refuses it. */
  function Apply(w: World, p: Proposal, now: Time, schema: Schema): Option<World> {
    match Replacing(w.document, p.change, now)
    case None => None
    case Some(d) =>
      if schema(d, p.change) then
        Some(World(d, w.audit + [Event(ActionOf(p.change), p.id, Subject(p.change))]))
      else None
  }

  predicate Audited(w: World, p: Proposal) {
    exists e :: e in w.audit && e.action == ActionOf(p.change) && e.proposal == p.id
                && (p.change.Create? ==> e.record == p.change.record.id)
  }

  /** Equal but for the time of the last update. */
  predicate Same(a: Memory, b: Memory) {
    a == b.(updatedAt := a.updatedAt)
  }

  /** The proposal is audited and its subject looks as the proposal would leave it. */
  predicate Postcondition(w: World, p: Proposal) {
    && Subject(p.change) in w.document && Audited(w, p)
    && var now := w.document[Subject(p.change)];
       match p.change
       case Create(r) => now == r
       case Edit(_, r) => Same(now, r)
       case Hide(_) => !now.visible
       case Restore(_) => now.visible
       case Supersede(_, r) =>
         && r.id in w.document && now.supersededBy == Some(r.id) && now.status == SUPERSEDED
         && Same(w.document[r.id], r)
  }

  /**
    * A proposal is seen as applied when the audit trail has its own entry of that action, and the record is there as
    * proposed: an addition exactly, an edit and a replacement up to the time of the last update.
    */
  lemma SeenAsApplied(w: World, p: Proposal)
    ensures Postcondition(w, p) <==>
      && (exists e :: e in w.audit && e.proposal == p.id && e.action == ActionOf(p.change)
            && (p.change.Create? ==> e.record == p.change.record.id))
      && match p.change
         case Create(r) => r.id in w.document && w.document[r.id] == r
         case Edit(t, r) =>
           && t in w.document && w.document[t].id == r.id && w.document[t].body == r.body
           && w.document[t].status == r.status && w.document[t].visible == r.visible
           && w.document[t].supersedes == r.supersedes && w.document[t].supersededBy == r.supersededBy
         case Hide(t) => t in w.document && !w.document[t].visible
         case Restore(t) => t in w.document && w.document[t].visible
         case Supersede(t, r) =>
           && t in w.document && w.document[t].supersededBy == Some(r.id) && w.document[t].status == "superseded"
           && r.id in w.document && w.document[r.id].id == r.id && w.document[r.id].body == r.body
           && w.document[r.id].status == r.status && w.document[r.id].visible == r.visible
           && w.document[r.id].supersedes == r.supersedes && w.document[r.id].supersededBy == r.supersededBy
  {
  }

  datatype WriteFault = Clean | LostBefore | LostAfter

  /**
    * What goes wrong during one confirmation: each check and each status save may fail, the write on either side, and
    * the announcement of a success.
    */
  datatype Faults = Faults(
    checks: bool, write: WriteFault, verifies: bool, saves: bool, rechecks: bool, savesAgain: bool, announces: bool)

  const FAULTLESS := Faults(true, Clean, true, true, true, true, true)

  /** `Raised` is no reply: an error reached the caller. */
  datatype Reply = Success | AlreadySaved | AlreadyCancelled | Unknown | StillPending(applied: bool) | Raised

  /** `successes` lists the proposals whose announcement was begun. */
  datatype State = State(world: World, proposals: seq<Proposal>, successes: seq<ProposalId>)

  /** The confirmed state: saved, and its announcement begun. */
  function Completed(s: State, w: World, id: ProposalId): State {
    State(w, WithStatus(s.proposals, id, Confirmed), s.successes + [id])
  }

  function WriteOutcome(w: World, p: Proposal, fault: WriteFault, now: Time, schema: Schema): (World, bool) {
    match Apply(w, p, now, schema)
    case None => (w, false)
    case Some(w') =>
      match fault
      case Clean => (w', true)
      case LostBefore => (w, false)
      case LostAfter => (w', false)
  }

  /** One attempt to confirm a proposal. */
  function ConfirmStep(s: State, id: ProposalId, f: Faults, now: Time, schema: Schema): (State, Reply) {
    match Find(s.proposals, id)
    case None => (s, Unknown)
    case Some(i) =>
      var p := s.proposals[i];
      if p.status == Confirmed then (s, AlreadySaved)
      else if p.status == Cancelled then (s, AlreadyCancelled)
      else if !f.checks then (s, StillPending(false))
      else if Postcondition(s.world, p) then
        if !f.saves then (s, StillPending(false))
        else (Completed(s, s.world, id), if f.announces then Success else StillPending(false))
      else
        var (w, ok) := WriteOutcome(s.world, p, f.write, now, schema);
        if (ok && f.verifies && Postcondition(w, p) && f.saves)
          || (f.rechecks && Postcondition(w, p) && f.savesAgain) then
          (Completed(s, w, id), if f.announces then Success else Raised)
        else (s.(world := w), StillPending(f.rechecks && Postcondition(w, p)))
  }

  function CancelStep(s: State, id: ProposalId, works: bool): State {
    match Find(s.proposals, id)
    case None => s
    case Some(i) =>
      if s.proposals[i].status == Pending && works then s.(proposals := WithStatus(s.proposals, id, Cancelled)) else s
  }

  // ---------------------------------------------------------------- counting

  function Applications(audit: seq<Event>, id: ProposalId): nat {
    if audit == [] then 0
    else Applications(audit[..|audit| - 1], id) + if audit[|audit| - 1].proposal == id then 1 else 0
  }

  function Announcements(successes: seq<ProposalId>, id: ProposalId): nat {
    if successes == [] then 0
    else Announcements(successes[..|successes| - 1], id) + if successes[|successes| - 1] == id then 1 else 0
  }

  lemma {:induction false} AuditedMeansApplied(w: World, p: Proposal)
    requires Audited(w, p)
    ensures Applications(w.audit, p.id) >= 1
    decreases |w.audit|
  {
    var front, last := w.audit[..|w.audit| - 1], w.audit[|w.audit| - 1];
    assert w.audit == front + [last];
    if last.proposal != p.id {
      AuditedMeansApplied(w.(audit := front), p);
    }
  }

  // ---------------------------------------------------------------- one attempt

  /** What is applied is seen as applied, exactly one audit entry later. */
  lemma ApplyingSatisfies(w: World, p: Proposal, now: Time, schema: Schema)
    ensures var w' := Apply(w, p, now, schema);
      w'.Some? ==>
        && Postcondition(w'.value, p)
        && w'.value.audit[..|w.audit|] == w.audit && |w'.value.audit| == |w.audit| + 1
        && (forall id :: Applications(w'.value.audit, id) == Applications(w.audit, id) + if id == p.id then 1 else 0)
        && w.document.Keys <= w'.value.document.Keys
  {
    var w' := Apply(w, p, now, schema);
    if w'.Some? {
      var e := Event(ActionOf(p.change), p.id, Subject(p.change));
      assert w'.value.audit == w.audit + [e];
      assert w'.value.audit[..|w'.value.audit| - 1] == w.audit;
      assert e in w'.value.audit;
    }
  }

  /** When a change can be made: what it adds is new, what it changes is there, and it names that record. */
  lemma ApplicableIff(w: World, p: Proposal, now: Time, schema: Schema)
    ensures Apply(w, p, now, schema).Some? <==>
      && Replacing(w.document, p.change, now).Some? && schema(Replacing(w.document, p.change, now).value, p.change)
    ensures Replacing(w.document, p.change, now).Some? <==>
      match p.change
      case Create(r) => r.id !in w.document
      case Edit(t, r) => t in w.document && r.id == t
      case Hide(t) => t in w.document
      case Restore(t) => t in w.document
      case Supersede(t, r) => t in w.document && r.id !in w.document && r.supersedes == Some(t)
  {
  }

  /**
    * What a change makes of its records. A superseded record keeps its text, its place in view and what it replaced;
    * hiding and restoring keep all but the place in view; an edit and an addition are as proposed.
    */
  lemma ChangesOnlyWhatItSays(w: World, p: Proposal, now: Time, schema: Schema)
    requires Apply(w, p, now, schema).Some?
    ensures var (d, d') := (w.document, Apply(w, p, now, schema).value.document);
      match p.change
      case Create(r) => r.id !in d && d'.Keys == d.Keys + {r.id} && d'[r.id] == r
      case Edit(t, r) =>
        && t in d && d'.Keys == d.Keys && d'[t].updatedAt == now && d'[t].id == t
        && d'[t].body == r.body && d'[t].status == r.status && d'[t].visible == r.visible
        && d'[t].supersedes == r.supersedes && d'[t].supersededBy == r.supersededBy
      case Supersede(t, r) =>
        && t in d && t != r.id && r.id !in d && d'.Keys == d.Keys + {r.id}
        && d'[r.id] == r && r.supersedes == Some(t)
        && d'[t].supersededBy == Some(r.id) && d'[t].status == "superseded" && d'[t].updatedAt == now
        && d'[t].id == d[t].id && d'[t].body == d[t].body && d'[t].visible == d[t].visible
        && d'[t].supersedes == d[t].supersedes
      case _ =>
        var t := p.change.target;
        && t in d && d'.Keys == d.Keys && d'[t].visible == p.change.Restore? && d'[t].updatedAt == now
        && d'[t].id == d[t].id && d'[t].body == d[t].body && d'[t].status == d[t].status
        && d'[t].supersedes == d[t].supersedes && d'[t].supersededBy == d[t].supersededBy
  {
  }

  /** Restoring undoes hiding, and hiding restoring, up to the time of the last update. */
  lemma RestoringUndoesHiding(w: World, p: Proposal, q: Proposal, now: Time, later: Time, schema: Schema)
    requires Apply(w, p, now, schema).Some? && Apply(Apply(w, p, now, schema).value, q, later, schema).Some?
    requires (p.change.Hide? && q.change.Restore?) || (p.change.Restore? && q.change.Hide?)
    requires p.change.target == q.change.target && w.document[p.change.target].visible == p.change.Hide?
    ensures var (d, d') := (w.document, Apply(Apply(w, p, now, schema).value, q, later, schema).value.document);
      var t := p.change.target;
      d' == d[t := d[t].(updatedAt := later)]
  {
  }

  /** A confirmation without faults completes exactly when the change is already there or can be made. */
  lemma FaultlessConfirmCompletes(s: State, id: ProposalId, now: Time, schema: Schema)
    requires Find(s.proposals, id).Some? && s.proposals[Find(s.proposals, id).value].status == Pending
    ensures var p := s.proposals[Find(s.proposals, id).value];
      var (s', reply) := ConfirmStep(s, id, FAULTLESS, now, schema);
      && (reply == Success <==> Postcondition(s.world, p) || Apply(s.world, p, now, schema).Some?)
      && (reply == Success ==>
            && Postcondition(s'.world, p) && s'.proposals == WithStatus(s.proposals, id, Confirmed)
            && s'.successes == s.successes + [id])
      && (reply != Success ==> s' == s && reply == StillPending(false))
  {
    var p := s.proposals[Find(s.proposals, id).value];
    ApplyingSatisfies(s.world, p, now, schema);
  }

  /** An attempt writes exactly when the proposal waits, is not seen as applied, and the write takes effect. */
  lemma AppliedIff(s: State, id: ProposalId, f: Faults, now: Time, schema: Schema)
    requires Find(s.proposals, id).Some?
    ensures var p := s.proposals[Find(s.proposals, id).value];
      var (s', _) := ConfirmStep(s, id, f, now, schema);
      var writes := p.status == Pending && f.checks && !Postcondition(s.world, p)
                    && Apply(s.world, p, now, schema).Some? && f.write != LostBefore;
      && Applications(s'.world.audit, id) == Applications(s.world.audit, id) + (if writes then 1 else 0)
      && s'.world == (if writes then Apply(s.world, p, now, schema).value else s.world)
  {
    hide Postcondition, Apply;
    var p := s.proposals[Find(s.proposals, id).value];
    ApplyingSatisfies(s.world, p, now, schema);
  }

  /**
    * No attempt announces what did not happen. A reply that the proposal stays pending is true exactly unless the
    * change was found already applied, its status saved, and the announcement failed: then it is confirmed. A reply
    * that it could not be applied is true exactly when it was not in effect before and the write, if it was tried, had
    * no effect.
    */
  lemma RepliesAreTrue(s: State, id: ProposalId, f: Faults, now: Time, schema: Schema)
    requires DistinctProposals(s.proposals) && Find(s.proposals, id).Some?
    ensures var i := Find(s.proposals, id).value;
      var (s', reply) := ConfirmStep(s, id, f, now, schema);
      match reply
      case Success => s'.proposals[i].status == Confirmed && Postcondition(s'.world, s.proposals[i])
      case Raised => s'.proposals[i].status == Confirmed && Postcondition(s'.world, s.proposals[i]) && !f.announces
      case StillPending(applied) =>
        var late := f.checks && Postcondition(s.world, s.proposals[i]) && f.saves && !f.announces;
        && s.proposals[i].status == Pending && (s'.proposals[i].status == Pending <==> !late)
        && (late ==> s'.proposals[i].status == Confirmed && Postcondition(s'.world, s.proposals[i]))
        && (!late ==> s'.proposals == s.proposals && s'.successes == s.successes)
        && (applied ==> Postcondition(s'.world, s.proposals[i]))
        && (!applied ==>
              var p := s.proposals[i];
              Postcondition(s'.world, p) <==>
                || Postcondition(s.world, p)
                || (f.checks && Apply(s.world, p, now, schema).Some? && f.write != LostBefore))
      case _ => s' == s
  {
    ApplyingSatisfies(s.world, s.proposals[Find(s.proposals, id).value], now, schema);
  }

  // ---------------------------------------------------------------- runs

  datatype Move =
    | Propose(proposal: Proposal, works: bool)
    | Confirm(id: ProposalId, faults: Faults, now: Time)
    | Cancel(id: ProposalId, works: bool)
    | Collapse(conversation: string, current: ProposalId)
    | Elsewhere(world: World)

  /** Another writer: it forgets no record and no audit entry, and audits under no proposal of this store. */
  ghost predicate Foreign(s: State, w: World) {
    && s.world.document.Keys <= w.document.Keys
    && s.world.audit <= w.audit
    && forall p | p in s.proposals :: Applications(w.audit, p.id) == Applications(s.world.audit, p.id)
  }

  /** A new proposal waits, and its id was never used. */
  predicate Unused(s: State, p: Proposal) {
    && p.status == Pending && Applications(s.world.audit, p.id) == 0 && Announcements(s.successes, p.id) == 0
    && forall q | q in s.proposals :: q.id != p.id
  }

  ghost predicate Enabled(s: State, m: Move) {
    match m
    case Propose(p, _) => Unused(s, p)
    case Elsewhere(w) => Foreign(s, w)
    case _ => true
  }

  function After(s: State, m: Move, schema: Schema): State {
    match m
    case Propose(p, works) =>
      if works && forall q | q in s.proposals :: !Waits(q, p.conversation) then s.(proposals := s.proposals + [p])
        else s
    case Confirm(id, f, now) => ConfirmStep(s, id, f, now, schema).0
    case Cancel(id, works) => CancelStep(s, id, works)
    case Collapse(c, current) => s.(proposals := Collapsed(s.proposals, c, current))
    case Elsewhere(w) => s.(world := w)
  }

  /** Changes that can be made only once, because the record they add stays. */
  predicate AddsRecord(c: Change) {
    c.Create? || c.Supersede?
  }

  /** What holds of each proposal in every run, whatever fails and whoever else writes. */
  predicate Accounted(s: State, p: Proposal) {
    var applied, announced := Applications(s.world.audit, p.id), Announcements(s.successes, p.id);
    && (p.status == Confirmed ==> applied >= 1)
    && announced <= 1 && (announced == 1 ==> p.status == Confirmed)
    && (AddsRecord(p.change) ==> applied <= 1 && (applied == 1 ==> p.change.record.id in s.world.document))
  }

  predicate Sound(s: State) {
    DistinctProposals(s.proposals) && forall p | p in s.proposals :: Accounted(s, p)
  }

  /** Only the status of a proposal ever changes, and only from pending. */
  predicate SameBut(p: Proposal, q: Proposal) {
    q == p || (p.status == Pending && q == p.(status := q.status))
  }

  lemma StatusStep(s: State, m: Move, schema: Schema, i: nat)
    requires DistinctProposals(s.proposals) && i < |s.proposals|
    ensures var s' := After(s, m, schema);
      && |s.proposals| <= |s'.proposals| && SameBut(s.proposals[i], s'.proposals[i])
      && (!m.Propose? ==> |s'.proposals| == |s.proposals|)
  {
  }

  lemma AppendedAnnouncement(successes: seq<ProposalId>, id: ProposalId, other: ProposalId)
    ensures Announcements(successes + [id], other) == Announcements(successes, other) + if id == other then 1 else 0
  {
    assert (successes + [id])[..|successes + [id]| - 1] == successes;
  }

  lemma FindsItself(ps: seq<Proposal>, i: nat)
    requires DistinctProposals(ps) && i < |ps|
    ensures Find(ps, ps[i].id) == Some(i)
  {
    assert ps[i] in ps;
  }

  lemma CompletedPlaces(s: State, w: World, id: ProposalId, i: nat)
    requires i < |s.proposals|
    ensures var after := Completed(s, w, id);
      && |after.proposals| == |s.proposals|
      && after.proposals[i]
        == (if s.proposals[i].id == id then s.proposals[i].(status := Confirmed) else s.proposals[i])
      && after.world == w && after.successes == s.successes + [id]
  {
  }

  lemma ConfirmKeepsAccount(s: State, id: ProposalId, f: Faults, now: Time, schema: Schema, i: nat)
    requires Sound(s) && i < |s.proposals|
    ensures var s' := ConfirmStep(s, id, f, now, schema).0;
      |s'.proposals| == |s.proposals| && Accounted(s', s'.proposals[i])
  {
    var k := Find(s.proposals, id);
    assert s.proposals[i] in s.proposals && Accounted(s, s.proposals[i]);
    if k.Some? {
      assert s.proposals[k.value] in s.proposals && Accounted(s, s.proposals[k.value]);
      hide Postcondition, Replacing, DistinctProposals, ConfirmStep, Apply, Completed, Applications, Announcements;
      var s' := ConfirmStep(s, id, f, now, schema).0;
      AppendedAnnouncement(s.successes, id, s.proposals[i].id);
      ConfirmWrites(s, id, f, now, schema);
      SamePlace(s.proposals, i, k.value);
      CompletedPlaces(s, s'.world, id, i);
    }
  }

  lemma SamePlace(ps: seq<Proposal>, i: nat, k: nat)
    requires DistinctProposals(ps) && i < |ps| && k < |ps|
    ensures ps[i].id == ps[k].id ==> i == k
  {
  }

  lemma AddedRecordIsNew(w: World, p: Proposal, now: Time, schema: Schema)
    ensures var w' := Apply(w, p, now, schema);
      w'.Some? && AddsRecord(p.change) ==>
        p.change.record.id !in w.document && p.change.record.id in w'.value.document
  {
  }

  /** What one attempt does to the world, and when it completes. */
  lemma ConfirmWrites(s: State, id: ProposalId, f: Faults, now: Time, schema: Schema)
    requires Find(s.proposals, id).Some?
    ensures var p := s.proposals[Find(s.proposals, id).value];
      var (s', reply) := ConfirmStep(s, id, f, now, schema);
      && (s'.world == s.world || Some(s'.world) == Apply(s.world, p, now, schema))
      && (s'.world != s.world ==> p.status == Pending && !Postcondition(s.world, p))
      && s.world.document.Keys <= s'.world.document.Keys
      && (forall other :: Applications(s'.world.audit, other) == Applications(s.world.audit, other) ||
            (other == id && s'.world != s.world
              && Applications(s'.world.audit, other) == Applications(s.world.audit, other) + 1))
      && (AddsRecord(p.change) && s'.world != s.world ==>
            p.change.record.id !in s.world.document && p.change.record.id in s'.world.document)
      && (s' == s.(world := s'.world) || (p.status == Pending && s' == Completed(s, s'.world, id)))
      && (reply == Success ==> s' == Completed(s, s'.world, id))
      && (s' != s.(world := s'.world) ==> Applications(s'.world.audit, id) >= 1 && Postcondition(s'.world, p))
  {
    hide Postcondition, Apply;
    var p := s.proposals[Find(s.proposals, id).value];
    ApplyingSatisfies(s.world, p, now, schema);
    AddedRecordIsNew(s.world, p, now, schema);
    var s' := ConfirmStep(s, id, f, now, schema).0;
    PostconditionMeansApplied(s'.world, p);
  }

  lemma PostconditionMeansApplied(w: World, p: Proposal)
    ensures Postcondition(w, p) ==> Applications(w.audit, p.id) >= 1
  {
    if Postcondition(w, p) {
      AuditedMeansApplied(w, p);
    }
  }

  lemma CancelKeepsAccount(s: State, id: ProposalId, works: bool, i: nat)
    requires Sound(s) && i < |s.proposals|
    ensures var s' := CancelStep(s, id, works);
      |s'.proposals| == |s.proposals| && Accounted(s', s'.proposals[i])
  {
    assert Accounted(s, s.proposals[i]);
    var k := Find(s.proposals, id);
    if k.Some? {
      SamePlace(s.proposals, i, k.value);
    }
  }

  lemma CollapseKeepsAccount(s: State, conversation: string, current: ProposalId, i: nat)
    requires Sound(s) && i < |s.proposals|
    ensures var s' := s.(proposals := Collapsed(s.proposals, conversation, current));
      |s'.proposals| == |s.proposals| && Accounted(s', s'.proposals[i])
  {
    assert Accounted(s, s.proposals[i]);
  }

  lemma ForeignKeepsAccount(s: State, w: World, i: nat)
    requires Sound(s) && i < |s.proposals| && Foreign(s, w)
    ensures Accounted(s.(world := w), s.proposals[i])
  {
    assert s.proposals[i] in s.proposals && Accounted(s, s.proposals[i]);
  }

  lemma StepKeepsSound(s: State, m: Move, schema: Schema)
    requires Sound(s) && Enabled(s, m)
    ensures Sound(After(s, m, schema))
  {
    hide Accounted, ConfirmStep, CancelStep, DistinctProposals, Foreign;
    var s' := After(s, m, schema);
    StatusSteps(s, m, schema);
    forall i | 0 <= i < |s'.proposals|
      ensures Accounted(s', s'.proposals[i])
    {
      match m
      case Propose(p, works) => ProposingKeepsAccount(s, p, works, schema, i);
      case Confirm(id, f, now) => ConfirmKeepsAccount(s, id, f, now, schema, i);
      case Cancel(id, works) => CancelKeepsAccount(s, id, works, i);
      case Collapse(c, current) => CollapseKeepsAccount(s, c, current, i);
      case Elsewhere(w) => ForeignKeepsAccount(s, w, i);
    }
  }

  lemma ProposingKeepsAccount(s: State, p: Proposal, works: bool, schema: Schema, i: nat)
    requires Sound(s) && Unused(s, p) && i < |After(s, Propose(p, works), schema).proposals|
    ensures var s' := After(s, Propose(p, works), schema); Accounted(s', s'.proposals[i])
  {
    if i < |s.proposals| {
      assert s.proposals[i] in s.proposals && Accounted(s, s.proposals[i]);
    }
  }

  lemma StatusSteps(s: State, m: Move, schema: Schema)
    requires DistinctProposals(s.proposals) && Enabled(s, m)
    ensures |s.proposals| <= |After(s, m, schema).proposals| && DistinctProposals(After(s, m, schema).proposals)
    ensures !m.Propose? ==> |After(s, m, schema).proposals| == |s.proposals|
  {
    if m.Propose? {
      assert forall i | 0 <= i < |s.proposals| :: s.proposals[i] in s.proposals;
    } else {
      var s' := After(s, m, schema);
      forall i | 0 <= i < |s.proposals|
        ensures |s'.proposals| == |s.proposals| && s'.proposals[i].id == s.proposals[i].id
      {
        StatusStep(s, m, schema, i);
      }
      if s.proposals == [] {
        assert s'.proposals == [];
      }
    }
  }

  /** Where at most one proposal waits in each conversation, that stays so. */
  lemma OneKeepsWaiting(s: State, m: Move, schema: Schema)
    requires OneWaitsEach(s.proposals) && DistinctProposals(s.proposals) && Enabled(s, m)
    ensures OneWaitsEach(After(s, m, schema).proposals)
  {
    hide ConfirmStep, CancelStep;
    var ps, qs := s.proposals, After(s, m, schema).proposals;
    StatusSteps(s, m, schema);
    forall i | 0 <= i < |ps|
      ensures ps[i] in ps && SameBut(ps[i], qs[i])
    {
      StatusStep(s, m, schema, i);
    }
  }

  ghost predicate IsRun(states: seq<State>, moves: seq<Move>, schema: Schema) {
    && |states| == |moves| + 1
    && forall i | 0 <= i < |moves| ::
      Enabled(states[i], moves[i]) && states[i + 1] == After(states[i], moves[i], schema)
  }

  /** Proposals just made: nothing applied, nothing announced. */
  predicate Fresh(s: State) {
    && DistinctProposals(s.proposals) && s.successes == []
    && forall p | p in s.proposals :: p.status == Pending && Applications(s.world.audit, p.id) == 0
  }

  /**
   * In every run, with any faults and any other writers: what is confirmed was applied, each success is announced at
   * most once, and what adds a record is applied at most once.
   */
  lemma {:induction false} RunsStaySound(states: seq<State>, moves: seq<Move>, schema: Schema)
    requires IsRun(states, moves, schema) && Fresh(states[0])
    ensures Sound(states[|moves|]) && |states[0].proposals| <= |states[|moves|].proposals|
    ensures forall i | 0 <= i < |states[0].proposals| ::
      states[|moves|].proposals[i] == states[0].proposals[i].(status := states[|moves|].proposals[i].status)
  {
    hide Accounted, After, Enabled, DistinctProposals;
    var n := |moves|;
    if n == 0 {
      FreshIsSound(states[0]);
    } else {
      RunsStaySound(states[..n], moves[..n - 1], schema);
      StepKeepsSound(states[n - 1], moves[n - 1], schema);
      forall i | 0 <= i < |states[n - 1].proposals|
        ensures |states[n - 1].proposals| <= |states[n].proposals|
        ensures SameBut(states[n - 1].proposals[i], states[n].proposals[i])
      {
        StatusStep(states[n - 1], moves[n - 1], schema, i);
      }
      StatusSteps(states[n - 1], moves[n - 1], schema);
    }
  }

  lemma FreshIsSound(s: State)
    requires Fresh(s)
    ensures Sound(s)
  {
  }

  // ---------------------------------------------------------------- at most once

  function Touches(c: Change): set<RecordId> {
    match c
    case Supersede(t, r) => {t, r.id}
    case _ => {Subject(c)}
  }

  /** Applying a change alters none but its own records, and drops none. */
  lemma ApplyingTouchesOnlyItsRecords(w: World, p: Proposal, now: Time, schema: Schema, r: RecordId)
    requires Apply(w, p, now, schema).Some? && r !in Touches(p.change)
    ensures var d := Apply(w, p, now, schema).value.document;
      (r in d <==> r in w.document) && (r in d ==> d[r] == w.document[r])
  {
  }

  /** The records of a change are the same before and after. */
  predicate Untouched(w: World, w': World, c: Change) {
    forall r | r in Touches(c) ::
      (r in w.document <==> r in w'.document) && (r in w.document ==> w.document[r] == w'.document[r])
  }

  /** The move is about this proposal, or leaves its records alone. */
  predicate Undisturbed(s: State, m: Move, schema: Schema, p: Proposal) {
    (m.Confirm? && m.id == p.id) || Untouched(s.world, After(s, m, schema).world, p.change)
  }

  /** Applied at most once, and still in effect if applied. */
  predicate InEffect(w: World, p: Proposal) {
    Applications(w.audit, p.id) <= 1 && (Applications(w.audit, p.id) == 1 ==> Postcondition(w, p))
  }

  lemma EffectStays(w: World, w': World, p: Proposal)
    requires Untouched(w, w', p.change) && w.audit <= w'.audit && Postcondition(w, p)
    ensures Postcondition(w', p)
  {
    assert Audited(w', p) by {
      var e :| e in w.audit && e.action == ActionOf(p.change) && e.proposal == p.id
               && (p.change.Create? ==> e.record == p.change.record.id);
      var k :| 0 <= k < |w.audit| && w.audit[k] == e;
      assert w'.audit[k] == e;
    }
    assert Subject(p.change) in Touches(p.change);
  }

  lemma AuditGrows(s: State, m: Move, schema: Schema)
    requires Enabled(s, m)
    ensures s.world.audit <= After(s, m, schema).world.audit
  {
    if m.Confirm? && Find(s.proposals, m.id).Some? {
      ConfirmWrites(s, m.id, m.faults, m.now, schema);
      ApplyingSatisfies(s.world, s.proposals[Find(s.proposals, m.id).value], m.now, schema);
    }
  }

  lemma OthersApplyNothing(s: State, m: Move, schema: Schema, p: Proposal)
    requires Enabled(s, m) && p in s.proposals && !(m.Confirm? && m.id == p.id)
    ensures Applications(After(s, m, schema).world.audit, p.id) == Applications(s.world.audit, p.id)
  {
    if m.Confirm? && Find(s.proposals, m.id).Some? {
      ConfirmWrites(s, m.id, m.faults, m.now, schema);
    }
  }

  lemma UndisturbedStaysInEffect(s: State, m: Move, schema: Schema, i: nat)
    requires DistinctProposals(s.proposals) && i < |s.proposals| && Enabled(s, m)
    requires InEffect(s.world, s.proposals[i]) && Undisturbed(s, m, schema, s.proposals[i])
    ensures InEffect(After(s, m, schema).world, s.proposals[i])
  {
    hide Postcondition, After, Untouched, Enabled, Apply, ConfirmStep;
    var p := s.proposals[i];
    var w' := After(s, m, schema).world;
    if m.Confirm? && m.id == p.id {
      FindsItself(s.proposals, i);
      OwnAttempt(s, m, schema, i);
    } else {
      assert p in s.proposals;
      AuditGrows(s, m, schema);
      OthersApplyNothing(s, m, schema, p);
      if Postcondition(s.world, p) {
        EffectStays(s.world, w', p);
      }
    }
  }

  lemma OwnAttempt(s: State, m: Move, schema: Schema, i: nat)
    requires i < |s.proposals| && m.Confirm? && Find(s.proposals, m.id) == Some(i) && InEffect(s.world, s.proposals[i])
    ensures InEffect(After(s, m, schema).world, s.proposals[i])
  {
    hide Postcondition, Apply, ConfirmStep;
    ConfirmWrites(s, m.id, m.faults, m.now, schema);
    ApplyingSatisfies(s.world, s.proposals[i], m.now, schema);
  }

  /**
   * Any proposal is applied at most once over any attempts with any faults, as long as nobody else touches its records
   * meanwhile, and once confirmed it is in effect.
   */
  lemma {:induction false} AppliedAtMostOnce(states: seq<State>, moves: seq<Move>, schema: Schema, i: nat)
    requires IsRun(states, moves, schema) && Fresh(states[0]) && i < |states[0].proposals|
    requires forall k | 0 <= k < |moves| :: Undisturbed(states[k], moves[k], schema, states[0].proposals[i])
    ensures var last, p := states[|moves|], states[0].proposals[i];
      && InEffect(last.world, p) && |states[0].proposals| <= |last.proposals|
      && (last.proposals[i].status == Confirmed
        ==> Applications(last.world.audit, p.id) == 1 && Postcondition(last.world, p))
  {
    hide Postcondition, Undisturbed, Enabled, After, Accounted, InEffect;
    var n := |moves|;
    RunsStaySound(states, moves, schema);
    if n == 0 {
      NothingAppliedYet(states[0], i);
    } else {
      AppliedAtMostOnce(states[..n], moves[..n - 1], schema, i);
      RunsStaySound(states[..n], moves[..n - 1], schema);
      var s, p, q := states[n - 1], states[0].proposals[i], states[n - 1].proposals[i];
      StatusIsIrrelevant(s, moves[n - 1], schema, p, q);
      UndisturbedStaysInEffect(s, moves[n - 1], schema, i);
      StatusIsIrrelevant(states[n], moves[n - 1], schema, p, q);
    }
    assert states[n].proposals[i] in states[n].proposals;
    ConfirmedWasApplied(states[n], states[n].proposals[i], states[0].proposals[i]);
  }

  lemma NothingAppliedYet(s: State, i: nat)
    requires Fresh(s) && i < |s.proposals|
    ensures InEffect(s.world, s.proposals[i])
  {
    assert s.proposals[i] in s.proposals;
  }

  lemma StatusIsIrrelevant(s: State, m: Move, schema: Schema, p: Proposal, q: Proposal)
    requires q == p.(status := q.status)
    ensures Undisturbed(s, m, schema, p) <==> Undisturbed(s, m, schema, q)
    ensures InEffect(s.world, p) <==> InEffect(s.world, q)
  {
    assert Audited(s.world, p) <==> Audited(s.world, q);
  }

  lemma ConfirmedWasApplied(s: State, q: Proposal, p: Proposal)
    requires Accounted(s, q) && q == p.(status := q.status) && InEffect(s.world, p)
    ensures q.status == Confirmed ==> Applications(s.world.audit, p.id) == 1 && Postcondition(s.world, p)
  {
  }

  // ---------------------------------------------------------------- exactly how often

  /**
    * This move applies the proposal: it waits, its checks run and do not find it applied, and the write takes effect.
    */
  predicate Effective(s: State, m: Move, id: ProposalId, schema: Schema) {
    && m.Confirm? && m.id == id && Find(s.proposals, id).Some?
    && var p := s.proposals[Find(s.proposals, id).value];
       && p.status == Pending && m.faults.checks && !Postcondition(s.world, p)
       && Apply(s.world, p, m.now, schema).Some? && m.faults.write != LostBefore
  }

  /** The moves of a run that apply the proposal. */
  function EffectiveAt(states: seq<State>, moves: seq<Move>, id: ProposalId, schema: Schema): set<nat>
    requires |states| == |moves| + 1
  {
    set k: nat | k < |moves| && Effective(states[k], moves[k], id, schema)
  }

  lemma EffectiveBefore(states: seq<State>, moves: seq<Move>, id: ProposalId, schema: Schema)
    requires |states| == |moves| + 1 && moves != []
    ensures var n := |moves| - 1;
      var before := EffectiveAt(states[..n + 1], moves[..n], id, schema);
      && n !in before
      && EffectiveAt(states, moves, id, schema) ==
         if Effective(states[n], moves[n], id, schema) then before + {n} else before
  {
    hide Effective;
  }

  lemma StepApplications(s: State, m: Move, id: ProposalId, schema: Schema)
    requires Enabled(s, m) && Find(s.proposals, id).Some?
    ensures Applications(After(s, m, schema).world.audit, id)
         == Applications(s.world.audit, id) + if Effective(s, m, id, schema) then 1 else 0
  {
    var p := s.proposals[Find(s.proposals, id).value];
    assert p in s.proposals;
    if m.Confirm? && m.id == id {
      AppliedIff(s, id, m.faults, m.now, schema);
    } else {
      OthersApplyNothing(s, m, schema, p);
    }
  }

  lemma IdsStay(s: State, m: Move, id: ProposalId, schema: Schema)
    requires DistinctProposals(s.proposals) && Find(s.proposals, id).Some?
    ensures Find(After(s, m, schema).proposals, id).Some?
  {
    var i := Find(s.proposals, id).value;
    StatusStep(s, m, schema, i);
    assert After(s, m, schema).proposals[i] in After(s, m, schema).proposals;
  }

  lemma {:induction false} UnknownWasNeverApplied(states: seq<State>, moves: seq<Move>, id: ProposalId, schema: Schema)
    requires IsRun(states, moves, schema) && Fresh(states[0]) && Find(states[|moves|].proposals, id).None?
    ensures EffectiveAt(states, moves, id, schema) == {}
  {
    hide Effective, Enabled, After, Find;
    if moves != [] {
      var n := |moves| - 1;
      RunsStaySound(states[..n + 1], moves[..n], schema);
      if Find(states[n].proposals, id).Some? {
        IdsStay(states[n], moves[n], id, schema);
      }
      UnknownWasNeverApplied(states[..n + 1], moves[..n], id, schema);
      EffectiveBefore(states, moves, id, schema);
      OnlyKnownAreEffective(states[n], moves[n], id, schema);
    }
  }

  lemma OnlyKnownAreEffective(s: State, m: Move, id: ProposalId, schema: Schema)
    ensures Effective(s, m, id, schema) ==> Find(s.proposals, id).Some?
  {
  }

  lemma CreatedUnapplied(s: State, m: Move, id: ProposalId, schema: Schema)
    requires Enabled(s, m) && DistinctProposals(s.proposals)
    requires Find(s.proposals, id).None? && Find(After(s, m, schema).proposals, id).Some?
    ensures Applications(After(s, m, schema).world.audit, id) == 0
  {
    var s' := After(s, m, schema);
    var p := s'.proposals[Find(s'.proposals, id).value];
    StatusSteps(s, m, schema);
    forall i | 0 <= i < |s.proposals|
      ensures s'.proposals[i].id == s.proposals[i].id && s.proposals[i] in s.proposals
    {
      StatusStep(s, m, schema, i);
    }
    assert m.Propose? && p == m.proposal;
  }

  /**
    * Over any run, with any faults and any other writers, a proposal is applied exactly as often as it has effective
    * moves.
    */
  lemma {:induction false} AppliedByEffectiveMoves(
    states: seq<State>, moves: seq<Move>, id: ProposalId, schema: Schema)
    requires IsRun(states, moves, schema) && Fresh(states[0]) && Find(states[|moves|].proposals, id).Some?
    ensures Applications(states[|moves|].world.audit, id) == |EffectiveAt(states, moves, id, schema)|
  {
    hide Effective, Enabled, After, Find, Applications;
    if moves == [] {
      FreshIsUnapplied(states[0], id);
      assert EffectiveAt(states, moves, id, schema) == {};
    } else {
      var n := |moves| - 1;
      RunsStaySound(states[..n + 1], moves[..n], schema);
      EffectiveBefore(states, moves, id, schema);
      if Find(states[n].proposals, id).Some? {
        AppliedByEffectiveMoves(states[..n + 1], moves[..n], id, schema);
        StepApplications(states[n], moves[n], id, schema);
      } else {
        UnknownWasNeverApplied(states[..n + 1], moves[..n], id, schema);
        OnlyKnownAreEffective(states[n], moves[n], id, schema);
        CreatedUnapplied(states[n], moves[n], id, schema);
      }
    }
  }

  lemma FreshIsUnapplied(s: State, id: ProposalId)
    requires Fresh(s) && Find(s.proposals, id).Some?
    ensures Applications(s.world.audit, id) == 0
  {
    assert s.proposals[Find(s.proposals, id).value] in s.proposals;
  }

  lemma AtMostOneElement(s: set<nat>)
    ensures |s| <= 1 <==> forall j, k | j in s && k in s :: j == k
  {
    if j, k :| j in s && k in s && j != k {
      assert |s - {j} - {k}| == |s| - 2;
    }
    if s != {} && forall j, k | j in s && k in s :: j == k {
      var j :| j in s;
      assert s == {j};
    }
  }

  /**
   * A proposal is applied at most once exactly when no attempt after one that applied it finds it waiting, finds its
   * effect gone, and writes.
   */
  lemma AppliedAtMostOnceIff(states: seq<State>, moves: seq<Move>, id: ProposalId, schema: Schema)
    requires IsRun(states, moves, schema) && Fresh(states[0]) && Find(states[|moves|].proposals, id).Some?
    ensures Applications(states[|moves|].world.audit, id) <= 1 <==>
      forall j, k | 0 <= j < k < |moves| ::
        !(Effective(states[j], moves[j], id, schema) && Effective(states[k], moves[k], id, schema))
  {
    hide Effective, Enabled, After, Find, Applications;
    AppliedByEffectiveMoves(states, moves, id, schema);
    var at := EffectiveAt(states, moves, id, schema);
    AtMostOneElement(at);
    assert forall k: nat | k < |moves| :: k in at <==> Effective(states[k], moves[k], id, schema);
    if (forall j, k | 0 <= j < k < |moves| ::
          !(Effective(states[j], moves[j], id, schema) && Effective(states[k], moves[k], id, schema))) {
      forall j, k | j in at && k in at
        ensures j == k
      {
      }
    }
  }

  // ---------------------------------------------------------------- cancelling

  /** A cancelled proposal stays cancelled and is never applied again; so what it did, it did before. */
  lemma CancelledStaysAsItIs(s: State, m: Move, schema: Schema, i: nat)
    requires DistinctProposals(s.proposals) && i < |s.proposals| && Enabled(s, m) && s.proposals[i].status == Cancelled
    ensures var s' := After(s, m, schema);
      && |s.proposals| <= |s'.proposals| && s'.proposals[i] == s.proposals[i]
      && Applications(s'.world.audit, s.proposals[i].id) == Applications(s.world.audit, s.proposals[i].id)
  {
    var p := s.proposals[i];
    StatusStep(s, m, schema, i);
    FindsItself(s.proposals, i);
    assert p in s.proposals;
    if !(m.Confirm? && m.id == p.id) {
      OthersApplyNothing(s, m, schema, p);
    }
  }

  /** Cancelling applies nothing: a cancelled proposal is unapplied exactly when no earlier attempt had applied it. */
  lemma CancellingAppliesNothing(s: State, id: ProposalId, works: bool)
    requires DistinctProposals(s.proposals) && Find(s.proposals, id).Some?
    ensures var i, s' := Find(s.proposals, id).value, CancelStep(s, id, works);
      && s'.world == s.world && s'.successes == s.successes
      && (s'.proposals[i].status == Cancelled <==>
            s.proposals[i].status == Cancelled || (s.proposals[i].status == Pending && works))
      && (!works ==> s' == s)
  {
  }

  lemma {:induction false} CancelledGainsNothing(
    states: seq<State>, moves: seq<Move>, id: ProposalId, schema: Schema, k: nat)
    requires IsRun(states, moves, schema) && Fresh(states[0]) && k <= |moves|
    requires Find(states[k].proposals, id).Some?
    requires states[k].proposals[Find(states[k].proposals, id).value].status == Cancelled
    ensures var last := states[|moves|];
      && Find(last.proposals, id) == Find(states[k].proposals, id)
      && last.proposals[Find(last.proposals, id).value].status == Cancelled
      && Applications(last.world.audit, id) == Applications(states[k].world.audit, id)
    decreases |moves|
  {
    hide Enabled, After, Find, Applications, DistinctProposals;
    if k < |moves| {
      var n := |moves| - 1;
      CancelledGainsNothing(states[..n + 1], moves[..n], id, schema, k);
      RunsStaySound(states[..n + 1], moves[..n], schema);
      RunsStaySound(states, moves, schema);
      var s := states[n];
      var i := Find(s.proposals, id).value;
      CancelledStaysAsItIs(s, moves[n], schema, i);
      assert states[n + 1].proposals[i].id == id;
      FindsItself(states[n + 1].proposals, i);
    }
  }

  /** A proposal once cancelled is unapplied for good exactly when no attempt before the cancelling applied it. */
  lemma CancelledIsUnappliedIff(
    states: seq<State>, moves: seq<Move>, id: ProposalId, schema: Schema, k: nat)
    requires IsRun(states, moves, schema) && Fresh(states[0]) && k <= |moves|
    requires Find(states[k].proposals, id).Some?
    requires states[k].proposals[Find(states[k].proposals, id).value].status == Cancelled
    ensures Applications(states[|moves|].world.audit, id) == 0 <==>
      forall j | 0 <= j < k :: !Effective(states[j], moves[j], id, schema)
  {
    hide Enabled, After, Find, Applications, Effective;
    CancelledGainsNothing(states, moves, id, schema, k);
    var front, first := states[..k + 1], moves[..k];
    AppliedByEffectiveMoves(front, first, id, schema);
    var at := EffectiveAt(front, first, id, schema);
    assert forall j: nat | j < k :: j in at <==> Effective(states[j], moves[j], id, schema);
    if forall j | 0 <= j < k :: !Effective(states[j], moves[j], id, schema) {
      assert at == {};
    }
  }

  // ---------------------------------------------------------------- retrying

  function Attempts(s: State, id: ProposalId, faults: seq<Faults>, times: seq<Time>, schema: Schema): State
    requires |faults| == |times|
  {
    if faults == [] then s
    else
      var n := |faults| - 1;
      ConfirmStep(Attempts(s, id, faults[..n], times[..n], schema), id, faults[n], times[n], schema).0
  }

  ghost predicate Applicable(w: World, p: Proposal, schema: Schema) {
    forall now :: Apply(w, p, now, schema).Some?
  }

  /** Where retrying can stand: untouched, applied but unsaved, or done. */
  predicate Retrying(s: State, t: State, i: nat) {
    && i < |s.proposals| && |t.proposals| == |s.proposals| && DistinctProposals(t.proposals)
    && t.proposals[i] == s.proposals[i].(status := t.proposals[i].status)
    && var p := s.proposals[i];
       match t.proposals[i].status
       case Pending =>
         && t.successes == s.successes
         && (t.world == s.world || (Applications(t.world.audit, p.id) == 1 && Postcondition(t.world, p)))
       case Confirmed =>
         t.successes == s.successes + [p.id] && Applications(t.world.audit, p.id) == 1 && Postcondition(t.world, p)
       case Cancelled => false
  }

  lemma AttemptKeepsRetrying(s: State, t: State, i: nat, f: Faults, now: Time, schema: Schema)
    requires i < |s.proposals| && Applications(s.world.audit, s.proposals[i].id) == 0 && Retrying(s, t, i)
    ensures Retrying(s, ConfirmStep(t, s.proposals[i].id, f, now, schema).0, i)
  {
    hide Postcondition, ConfirmStep, Replacing, DistinctProposals;
    var p, q := s.proposals[i], t.proposals[i];
    FindsItself(t.proposals, i);
    StatusStep(t, Confirm(p.id, f, now), schema, i);
    StatusSteps(t, Confirm(p.id, f, now), schema);
    ConfirmWrites(t, p.id, f, now, schema);
    ApplyingSatisfies(t.world, q, now, schema);
    var t' := ConfirmStep(t, p.id, f, now, schema).0;
    PostIgnoresStatus(t.world, p, q);
    PostIgnoresStatus(t'.world, p, q);
    CompletedPlaces(t, t'.world, p.id, i);
    if q.status == Confirmed {
      ConfirmedIsFinal(t, i, f, now, schema);
    }
  }

  lemma ConfirmedIsFinal(t: State, i: nat, f: Faults, now: Time, schema: Schema)
    requires i < |t.proposals| && Find(t.proposals, t.proposals[i].id) == Some(i) && t.proposals[i].status == Confirmed
    ensures ConfirmStep(t, t.proposals[i].id, f, now, schema) == (t, AlreadySaved)
  {
  }

  lemma PostIgnoresStatus(w: World, p: Proposal, q: Proposal)
    requires q == p.(status := q.status)
    ensures Postcondition(w, p) <==> Postcondition(w, q)
  {
    assert Audited(w, p) <==> Audited(w, q);
  }

  lemma {:induction false} AttemptsKeepRetrying(
    s: State, i: nat, faults: seq<Faults>, times: seq<Time>, schema: Schema)
    requires |faults| == |times| && DistinctProposals(s.proposals) && i < |s.proposals|
    requires s.proposals[i].status == Pending && Applications(s.world.audit, s.proposals[i].id) == 0
    ensures Retrying(s, Attempts(s, s.proposals[i].id, faults, times, schema), i)
  {
    if faults != [] {
      var n := |faults| - 1;
      AttemptsKeepRetrying(s, i, faults[..n], times[..n], schema);
      AttemptKeepsRetrying(s, Attempts(s, s.proposals[i].id, faults[..n], times[..n], schema), i, faults[n], times[n],
        schema);
    }
  }

  /**
    * However many attempts failed and how, one without faults leaves the change applied once, confirmed and announced
    * once.
    */
  lemma RetriesConverge(s: State, i: nat, faults: seq<Faults>, times: seq<Time>, now: Time, schema: Schema)
    requires |faults| == |times| && DistinctProposals(s.proposals) && i < |s.proposals|
    requires s.proposals[i].status == Pending && Applications(s.world.audit, s.proposals[i].id) == 0
    requires Applicable(s.world, s.proposals[i], schema)
    ensures var p := s.proposals[i];
      var (t, reply) := ConfirmStep(Attempts(s, p.id, faults, times, schema), p.id, FAULTLESS, now, schema);
      && reply in {Success, AlreadySaved} && i < |t.proposals| && t.proposals[i].status == Confirmed
      && Applications(t.world.audit, p.id) == 1 && Postcondition(t.world, p)
      && t.successes == s.successes + [p.id]
  {
    hide Postcondition, Replacing, ConfirmStep, Apply;
    var p := s.proposals[i];
    AttemptsKeepRetrying(s, i, faults, times, schema);
    var t := Attempts(s, p.id, faults, times, schema);
    var q := t.proposals[i];
    FindsItself(t.proposals, i);
    AttemptKeepsRetrying(s, t, i, FAULTLESS, now, schema);
    PostIgnoresStatus(t.world, p, q);
    SameApply(t.world, p, q, now, schema);
    if q.status == Pending {
      FaultlessConfirmCompletes(t, p.id, now, schema);
      CompletedPlaces(t, t.world, p.id, i);
    } else {
      ConfirmedIsFinal(t, i, FAULTLESS, now, schema);
    }
  }

  lemma SameApply(w: World, p: Proposal, q: Proposal, now: Time, schema: Schema)
    requires q == p.(status := q.status)
    ensures Apply(w, p, now, schema) == Apply(w, q, now, schema)
  {
  }

  // ---------------------------------------------------------------- what is kept

  /** The same text and lineage. */
  predicate SameText(a: Memory, b: Memory) {
    a.id == b.id && a.body == b.body && a.supersedes == b.supersedes
  }

  /** The move is another writer's and keeps this record's text, or it applies no edit of the record. */
  predicate RewritesNot(s: State, m: Move, schema: Schema, r: RecordId)
    requires r in s.world.document
  {
    && (m.Elsewhere? ==> r in m.world.document && SameText(s.world.document[r], m.world.document[r]))
    && (Effective(s, m, if m.Confirm? then m.id else "", schema) ==>
          var c := s.proposals[Find(s.proposals, m.id).value].change;
          !(c.Edit? && c.target == r))
  }

  lemma StepKeepsText(s: State, m: Move, schema: Schema, r: RecordId)
    requires r in s.world.document && RewritesNot(s, m, schema, r)
    ensures var d := After(s, m, schema).world.document; r in d && SameText(s.world.document[r], d[r])
  {
    hide Postcondition, Apply, ConfirmStep;
    if m.Confirm? && Find(s.proposals, m.id).Some? {
      var p := s.proposals[Find(s.proposals, m.id).value];
      AppliedIff(s, m.id, m.faults, m.now, schema);
      if Effective(s, m, m.id, schema) {
        ChangesOnlyWhatItSays(s.world, p, m.now, schema);
        if r !in Touches(p.change) {
          ApplyingTouchesOnlyItsRecords(s.world, p, m.now, schema, r);
        }
      }
    } else if m.Confirm? {
      UnknownChangesNothing(s, m.id, m.faults, m.now, schema);
    }
  }

  lemma UnknownChangesNothing(s: State, id: ProposalId, f: Faults, now: Time, schema: Schema)
    requires Find(s.proposals, id).None?
    ensures ConfirmStep(s, id, f, now, schema).0 == s
  {
  }

  /**
    * Over any run a record stays, with its text and what it replaced, unless an edit of it is applied or another writer
    * changes it: whatever else is created, hidden, restored or superseded.
    */
  lemma {:induction false} OnlyEditsRewrite(states: seq<State>, moves: seq<Move>, schema: Schema, r: RecordId)
    requires IsRun(states, moves, schema) && r in states[0].world.document
    requires forall k | 0 <= k < |moves| && r in states[k].world.document :: RewritesNot(states[k], moves[k], schema, r)
    ensures var d := states[|moves|].world.document; r in d && SameText(states[0].world.document[r], d[r])
  {
    hide RewritesNot, Enabled, After;
    if moves != [] {
      var n := |moves| - 1;
      OnlyEditsRewrite(states[..n + 1], moves[..n], schema, r);
      assert states[n + 1] == After(states[n], moves[n], schema);
      StepKeepsText(states[n], moves[n], schema, r);
    }
  }

  // ---------------------------------------------------------------- additions that stay pending

  lemma AddedCannotBeAppliedAgain(w: World, p: Proposal, now: Time, schema: Schema)
    requires AddsRecord(p.change) && p.change.record.id in w.document
    ensures Apply(w, p, now, schema).None?
  {
  }

  /** An attempt on an addition that was applied changes nothing while the record differs, whatever fails or not. */
  lemma AddedCompletesIff(s: State, i: nat, f: Faults, now: Time, schema: Schema)
    requires Sound(s) && i < |s.proposals| && s.proposals[i].status == Pending && AddsRecord(s.proposals[i].change)
    requires Applications(s.world.audit, s.proposals[i].id) >= 1
    ensures var p := s.proposals[i];
      var (s', reply) := ConfirmStep(s, p.id, f, now, schema);
      && (!Postcondition(s.world, p) ==> s' == s && reply == StillPending(false))
      && (f == FAULTLESS ==> (reply == Success <==> Postcondition(s.world, p)))
  {
    var p := s.proposals[i];
    assert p in s.proposals && Accounted(s, p);
    FindsItself(s.proposals, i);
    AddedCannotBeAppliedAgain(s.world, p, now, schema);
  }

  /**
    * So an addition once applied is not confirmed as long as every attempt finds its record changed by somebody else.
    */
  lemma {:induction false} AddedStaysUnconfirmed(states: seq<State>, moves: seq<Move>, schema: Schema, i: nat)
    requires IsRun(states, moves, schema) && Sound(states[0]) && i < |states[0].proposals|
    requires states[0].proposals[i].status == Pending && AddsRecord(states[0].proposals[i].change)
    requires Applications(states[0].world.audit, states[0].proposals[i].id) >= 1
    requires forall k | 0 <= k < |moves| && moves[k].Confirm? && moves[k].id == states[0].proposals[i].id ::
      !Postcondition(states[k].world, states[0].proposals[i])
    ensures var last, p := states[|moves|], states[0].proposals[i];
      && Sound(last) && i < |last.proposals| && Applications(last.world.audit, p.id) >= 1
      && last.proposals[i] == p.(status := last.proposals[i].status) && last.proposals[i].status != Confirmed
  {
    hide Postcondition, Enabled, After, Accounted, ConfirmStep, Find, DistinctProposals;
    if moves != [] {
      var n := |moves| - 1;
      var s, m, p := states[n], moves[n], states[0].proposals[i];
      AddedStaysUnconfirmed(states[..n + 1], moves[..n], schema, i);
      StepKeepsSound(s, m, schema);
      StatusStep(s, m, schema, i);
      FindsItself(s.proposals, i);
      StepApplications(s, m, p.id, schema);
      PostIgnoresStatus(s.world, p, s.proposals[i]);
      if m.Confirm? && m.id == p.id {
        AttemptOnAdded(s, m, schema, i);
      } else {
        OthersConfirmNothing(s, m, schema, i);
      }
    }
  }

  lemma AttemptOnAdded(s: State, m: Move, schema: Schema, i: nat)
    requires Sound(s) && i < |s.proposals| && m.Confirm? && m.id == s.proposals[i].id
    requires AddsRecord(s.proposals[i].change) && Applications(s.world.audit, m.id) >= 1
    requires s.proposals[i].status != Confirmed && !Postcondition(s.world, s.proposals[i])
    ensures After(s, m, schema) == s
  {
    hide Postcondition, Apply;
    FindsItself(s.proposals, i);
    if s.proposals[i].status == Pending {
      AddedCompletesIff(s, i, m.faults, m.now, schema);
    }
  }

  /** Only an attempt on the proposal itself confirms it. */
  lemma OthersConfirmNothing(s: State, m: Move, schema: Schema, i: nat)
    requires DistinctProposals(s.proposals) && i < |s.proposals| && !(m.Confirm? && m.id == s.proposals[i].id)
    requires s.proposals[i].status != Confirmed
    ensures |s.proposals| <= |After(s, m, schema).proposals| && After(s, m, schema).proposals[i].status != Confirmed
  {
    StatusStep(s, m, schema, i);
    if m.Confirm? && Find(s.proposals, m.id).Some? {
      ConfirmWrites(s, m.id, m.faults, m.now, schema);
      CompletedPlaces(s, After(s, m, schema).world, m.id, i);
    }
  }
}
