/**
  * Turns against the store: what the engine decides, the store does, and every stored question stays open for answers.
  */
module DialogueStore {
  import opened Common
  import opened Frames
  import opened PendingRecords
  import opened Clarification
  import opened DialogueClosure
  import opened Dialogue
  import opened PendingDocument
  import opened PendingMirror

  /** What a turn makes of the question it finds. */
  function Effect(r: Record, turn: Turn, home: Home): Decision {
    match Follow(r, turn, home.dates, home.required)
    case None => Refuse
    case Some(reply) => Decide(r, reply, home.catalog, home.adopted)
  }

  function TransitionFor(id: ResolutionId, d: Decision): Op
    requires d.Write?
  {
    Transition(id, d.status, d.interpretation, d.reason, d.question)
  }

  datatype Reaction = NoQuestion | Kept | Refused | Answered(answer: Answer)

  /**
    * One turn of a conversation: the active question is read, the turn decided, and the decision written, perhaps
    * later.
    */
  function TurnStep(rows: Rows, c: ConversationId, turn: Turn, home: Home, read: Time, write: Time, lim: Limits):
    (Rows, Reaction)
  {
    var (seen, found) := Step(rows, Active(c), read, lim);
    match found.record
    case None => (seen, NoQuestion)
    case Some(r) =>
      var d := Effect(r, turn, home);
      if d.Keep? then (seen, Kept)
      else if d.Refuse? then (seen, Refused)
      else
        var (after, answer) := Step(seen, TransitionFor(r.id, d), write, lim);
        (after, Answered(answer))
  }

  // ---------------------------------------------------------------- the store stays valid

  ghost function LiveFor(rows: Rows, t: Time, c: ConversationId): Record
    requires exists r :: r in rows && Current(r, t) && r.conversation == c
  {
    var r :| r in rows && Current(r, t) && r.conversation == c;
    r
  }

  lemma MirrorExists(rows: Rows, t: Time)
    requires ValidDocument(rows, t)
    ensures exists m :: Mirrors(rows, t, m)
  {
    hide ValidRecord;
    var names := set r | r in rows && Current(r, t) :: r.conversation;
    var m := map c | c in names :: LiveFor(rows, t, c);
    forall r | r in rows && Current(r, t)
      ensures r.conversation in m && m[r.conversation] == r
    {
      var x := m[r.conversation];
      if x != r {
        OtherRecordOtherConversation(rows, x, r);
      }
    }
    assert Mirrors(rows, t, m);
  }

  lemma StepKeepsStore(rows: Rows, op: Op, t: Time, now: Time, lim: Limits)
    requires ValidStore(rows, t, lim) && t <= now && lim.max < DOCUMENT_CAP && Acceptable(op, rows, now)
    ensures ValidStore(Step(rows, op, now, lim).0, now, lim)
  {
    hide ValidDocument, Step, EagerStep, Mirrors, Acceptable;
    MirrorExists(rows, t);
    var m :| Mirrors(rows, t, m);
    StepAgrees(rows, op, t, now, lim, m);
  }

  // ---------------------------------------------------------------- every open record stays live

  /** Every stored question is open and coherent, and none is from the future. */
  predicate AllLive(rows: Rows, home: Home, t: Time) {
    forall r | r in rows && Open(r) :: Live(r, home) && r.updatedAt <= t
  }

  /** What the operation would leave open is live. */
  ghost predicate LeavesLive(rows: Rows, op: Op, home: Home, now: Time) {
    match op
    case Save(r, _) => Live(r, home) && r.updatedAt <= now
    case Transition(id, status, interpretation, reason, question) =>
      forall r | r in rows && Current(r, now) && r.id == id ::
        var u := Moved(r, status, interpretation, reason, question, now);
        u.Some? && Open(u.value) ==> Live(u.value, home) && u.value.updatedAt <= now
    case _ => true
  }

  lemma StepKeepsLive(rows: Rows, op: Op, t: Time, now: Time, lim: Limits, home: Home)
    requires AllLive(rows, home, t) && t <= now && LeavesLive(rows, op, home, now)
    ensures AllLive(Step(rows, op, now, lim).0, home, now)
  {
    hide Live, Step, Moved;
    EachRecordsFate(rows, op, now, lim);
    forall x | x in Step(rows, op, now, lim).0 && Open(x)
      ensures Live(x, home) && x.updatedAt <= now
    {
      if !(op.Save? && x == op.record) {
        var r :| r in rows && Fate(r, x, op, now);
      }
    }
  }

  // ---------------------------------------------------------------- one turn

  lemma AdvanceIsDecided(r: Record, turn: Turn, home: Home, now: Time)
    ensures match Effect(r, turn, home)
      case Keep => Advance(r, turn, home, now) == Some(r)
      case Refuse => Advance(r, turn, home, now) == None
      case Write(status, interpretation, reason, question) =>
        Advance(r, turn, home, now) == Moved(r, status, interpretation, reason, question, now)
  {
    hide Follow, Decide, Moved;
  }

  /** What the active lookup finds is a current question of the document it leaves behind. */
  lemma FoundIsCurrent(rows: Rows, c: ConversationId, t: Time, now: Time, lim: Limits)
    requires ValidStore(rows, t, lim) && t <= now
    ensures var (seen, found) := Step(rows, Active(c), now, lim);
      found.record.Some? ==>
        var r := found.record.value;
        r in rows && r in seen && Current(r, now) && r.conversation == c
  {
    hide ValidDocument, Compact, ValidRecord;
    var d := Expire(rows, now);
    ExpiryKeepsDocument(rows, t, now);
    SameSizeAfterExpiry(rows, now);
    PendingsFit(d, lim);
    hide Expire;
    var i := IndexOfActive(d, c);
    if i.Some? {
      assert d[i.value] in d;
      CompactionOnlyDrops(d, lim, d[i.value]);
    }
  }

  /** The store answers a transition of a question it holds with the moved record, while the question is current. */
  lemma TransitionAnswer(rows: Rows, r: Record, op: Op, t: Time, now: Time, lim: Limits)
    requires ValidStore(rows, t, lim) && r in rows && Open(r) && op.Transition? && op.id == r.id
    ensures var u := Moved(r, op.status, op.interpretation, op.reason, op.question, now);
      Step(rows, op, now, lim).1 == if now < r.expiresAt && u.Some? then Changed(u.value) else Failed
  {
    hide ValidRecord, Moved, Compact, Settle, Pendings;
    var d := Expire(rows, now);
    var k :| 0 <= k < |rows| && rows[k] == r;
    assert d[k].id == r.id && d[k] in d;
    var i := IndexById(d, op.id);
    assert i.Some?;
    assert rows[i.value].id == r.id;
    assert i.value == k;
    hide Expire;
    var u := Moved(d[k], op.status, op.interpretation, op.reason, op.question, now);
    if u.Some? {
      PendingsFit(d[k := u.value], lim);
    }
  }

  /**
    * A turn against the store: when it has something to write, the store answers with exactly what the turn makes of
    * the question if the turn is answerable and the question has not expired meanwhile, and fails otherwise.
    */
  lemma TurnAnswers(
    rows: Rows, c: ConversationId, turn: Turn, home: Home, t: Time, read: Time, write: Time, lim: Limits)
    requires ValidStore(rows, t, lim) && AllLive(rows, home, t) && lim.max < DOCUMENT_CAP && t <= read <= write
    requires var found := Step(rows, Active(c), read, lim).1.record; found.Some? ==> Understood(turn, found.value)
    ensures var found, reaction :=
        Step(rows, Active(c), read, lim).1.record, TurnStep(rows, c, turn, home, read, write, lim).1;
      if found.None? then reaction == NoQuestion
      else
        var r := found.value;
        var next := Advance(r, turn, home, write);
        && (next.Some? <==> Answerable(turn, r))
        && (reaction == Kept ==> next == Some(r))
        && (reaction == Refused ==> !Answerable(turn, r))
        && (reaction.Answered? ==>
              reaction.answer == if Answerable(turn, r) && write < r.expiresAt then Changed(next.value) else Failed)
        && reaction != NoQuestion
  {
    hide Live, Understood, Answerable, Advance, Effect, ValidStore, Step, Advanced, Moved;
    var (seen, found) := Step(rows, Active(c), read, lim);
    FoundIsRecord(rows, c, read, lim);
    if found.record.Some? {
      var r := found.record.value;
      FoundIsCurrent(rows, c, t, read, lim);
      TurnCloses(r, turn, home, write);
      AdvanceIsDecided(r, turn, home, write);
      var d := Effect(r, turn, home);
      if d.Write? {
        StepKeepsStore(rows, Active(c), t, read, lim);
        TransitionAnswer(seen, r, TransitionFor(r.id, d), read, write, lim);
      }
    }
  }

  lemma FoundIsRecord(rows: Rows, c: ConversationId, now: Time, lim: Limits)
    ensures Step(rows, Active(c), now, lim).1.Found?
  {
  }

  /** After a turn the store is valid and every question in it is live. */
  lemma TurnKeepsLive(
    rows: Rows, c: ConversationId, turn: Turn, home: Home, t: Time, read: Time, write: Time, lim: Limits)
    requires ValidStore(rows, t, lim) && AllLive(rows, home, t) && lim.max < DOCUMENT_CAP && t <= read <= write
    requires var found := Step(rows, Active(c), read, lim).1.record; found.Some? ==> Understood(turn, found.value)
    ensures var after := TurnStep(rows, c, turn, home, read, write, lim).0;
      ValidStore(after, write, lim) && AllLive(after, home, write)
  {
    hide Live, Understood, Answerable, Advance, Effect, ValidStore, Step, Advanced, Moved, AllLive;
    var (seen, found) := Step(rows, Active(c), read, lim);
    FoundIsRecord(rows, c, read, lim);
    StepKeepsStore(rows, Active(c), t, read, lim);
    StepKeepsLive(rows, Active(c), t, read, lim, home);
    Later(seen, read, write, lim, home);
    if found.record.Some? {
      var r := found.record.value;
      FoundIsCurrent(rows, c, t, read, lim);
      var d := Effect(r, turn, home);
      if d.Write? {
        DecisionLeavesLive(seen, r, turn, home, read, write, lim);
        StepKeepsStore(seen, TransitionFor(r.id, d), read, write, lim);
        StepKeepsLive(seen, TransitionFor(r.id, d), read, write, lim, home);
      }
    }
  }

  lemma Later(rows: Rows, t: Time, now: Time, lim: Limits, home: Home)
    requires ValidStore(rows, t, lim) && AllLive(rows, home, t) && t <= now
    ensures ValidStore(rows, now, lim) && AllLive(rows, home, now)
  {
    hide ValidRecord, Live;
  }

  lemma DecisionLeavesLive(rows: Rows, r: Record, turn: Turn, home: Home, t: Time, now: Time, lim: Limits)
    requires ValidStore(rows, t, lim) && AllLive(rows, home, t) && t <= now
    requires r in rows && Open(r) && Understood(turn, r) && Effect(r, turn, home).Write?
    ensures LeavesLive(rows, TransitionFor(r.id, Effect(r, turn, home)), home, now)
  {
    hide Live, Understood, Answerable, Advance, Effect, Moved, ValidRecord;
    TurnCloses(r, turn, home, now);
    AdvanceIsDecided(r, turn, home, now);
    var d := Effect(r, turn, home);
    forall x | x in rows && x.id == r.id
      ensures x == r
    {
      if x != r {
        OtherRecordOtherId(rows, x, r);
      }
    }
    MovedNow(r, d, now);
  }

  lemma MovedNow(r: Record, d: Decision, now: Time)
    requires d.Write?
    ensures var u := Moved(r, d.status, d.interpretation, d.reason, d.question, now);
      u.Some? ==> u.value.updatedAt == now
  {
    hide ValidRecord, AcceptsPatch;
  }

  // ---------------------------------------------------------------- runs

  /** What happens to the store: turns, new questions, reads, and endings that take no answer. */
  datatype Happening =
    | Turned(conversation: ConversationId, turn: Turn, read: Time, write: Time)
    | Asked(record: Record, supersede: bool, now: Time)
    | Done(op: Op, now: Time)

  function At(h: Happening): Time {
    match h
    case Turned(_, _, _, write) => write
    case Asked(_, _, now) => now
    case Done(_, now) => now
  }

  function Happen(rows: Rows, h: Happening, home: Home, lim: Limits): Rows {
    match h
    case Turned(c, turn, read, write) => TurnStep(rows, c, turn, home, read, write, lim).0
    case Asked(r, supersede, now) => Step(rows, Save(r, supersede), now, lim).0
    case Done(op, now) => Step(rows, op, now, lim).0
  }

  /** A turn is understood against the question it finds; a new question is live under a fresh id; an ending ends. */
  predicate Proper(rows: Rows, h: Happening, home: Home, t: Time, lim: Limits) {
    match h
    case Turned(c, turn, read, write) =>
      && t <= read <= write
      && var found := Step(rows, Active(c), read, lim).1.record; found.Some? ==> Understood(turn, found.value)
    case Asked(r, supersede, now) =>
      t <= now && Acceptable(Save(r, supersede), rows, now) && Live(r, home) && r.updatedAt <= now
    case Done(op, now) => t <= now && (Reads(op) || (op.Transition? && op.status in {Cancelled, Expired, Superseded}))
  }

  lemma HappeningKeepsLive(rows: Rows, h: Happening, home: Home, t: Time, lim: Limits)
    requires ValidStore(rows, t, lim) && AllLive(rows, home, t) && lim.max < DOCUMENT_CAP
    requires Proper(rows, h, home, t, lim)
    ensures ValidStore(Happen(rows, h, home, lim), At(h), lim) && AllLive(Happen(rows, h, home, lim), home, At(h))
  {
    hide Live, Understood, ValidStore, Step, TurnStep, AllLive;
    match h
    case Turned(c, turn, read, write) => TurnKeepsLive(rows, c, turn, home, t, read, write, lim);
    case Asked(r, supersede, now) =>
      StepKeepsStore(rows, Save(r, supersede), t, now, lim);
      StepKeepsLive(rows, Save(r, supersede), t, now, lim, home);
    case Done(op, now) =>
      EndingLeavesLive(rows, op, home, now);
      StepKeepsStore(rows, op, t, now, lim);
      StepKeepsLive(rows, op, t, now, lim, home);
  }

  lemma EndingLeavesLive(rows: Rows, op: Op, home: Home, now: Time)
    requires Reads(op) || (op.Transition? && op.status in {Cancelled, Expired, Superseded})
    ensures LeavesLive(rows, op, home, now)
  {
    hide Live, Moved;
  }

  /** The clock before the happening number `i`. */
  function Since(hs: seq<Happening>, t: Time, i: nat): Time
    requires i <= |hs|
  {
    if i == 0 then t else At(hs[i - 1])
  }

  ghost predicate IsStoreRun(states: seq<Rows>, hs: seq<Happening>, home: Home, t: Time, lim: Limits) {
    && |states| == |hs| + 1
    && forall i: nat | i < |hs| ::
         && Proper(states[i], hs[i], home, Since(hs, t, i), lim)
         && states[i + 1] == Happen(states[i], hs[i], home, lim)
  }

  lemma FrontOfRun(states: seq<Rows>, hs: seq<Happening>, home: Home, t: Time, lim: Limits)
    requires IsStoreRun(states, hs, home, t, lim) && hs != []
    ensures IsStoreRun(states[..|hs|], hs[..|hs| - 1], home, t, lim)
  {
    hide Proper, Happen;
    var front := hs[..|hs| - 1];
    forall i: nat | i < |front|
      ensures Proper(states[..|hs|][i], front[i], home, Since(front, t, i), lim)
      ensures states[..|hs|][i + 1] == Happen(states[..|hs|][i], front[i], home, lim)
    {
      assert Since(front, t, i) == Since(hs, t, i);
      assert Proper(states[i], hs[i], home, Since(hs, t, i), lim);
    }
  }

  /** In every run of turns, new questions, reads and endings, each question that the store holds open stays live. */
  lemma {:induction false} StoreStaysLive(states: seq<Rows>, hs: seq<Happening>, home: Home, t: Time, lim: Limits)
    requires IsStoreRun(states, hs, home, t, lim) && lim.max < DOCUMENT_CAP
    requires ValidStore(states[0], t, lim) && AllLive(states[0], home, t)
    ensures ValidStore(states[|hs|], Since(hs, t, |hs|), lim) && AllLive(states[|hs|], home, Since(hs, t, |hs|))
  {
    hide ValidStore, AllLive, Proper, Happen;
    if hs != [] {
      var n := |hs| - 1;
      FrontOfRun(states, hs, home, t, lim);
      StoreStaysLive(states[..n + 1], hs[..n], home, t, lim);
      assert Since(hs[..n], t, n) == Since(hs, t, n);
      assert Proper(states[n], hs[n], home, Since(hs, t, n), lim);
      HappeningKeepsLive(states[n], hs[n], home, Since(hs, t, n), lim);
    }
  }
}
