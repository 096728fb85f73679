/** The durable store of pending questions. */
module PendingStore {
  import opened Common
  import opened Frames
  import opened PendingRecords
  import opened PendingDocument
  import opened PendingMirror

  class PendingResolutionStore {
    const limits: Limits
    var rows: Rows

    /** What an eager store would hold, and when either was last used. */
    ghost var live: Eager
    ghost var clock: Time

    ghost predicate Valid()
      reads this
    {
      ValidStore(rows, clock, limits) && Mirrors(rows, clock, live) && limits.max < DOCUMENT_CAP
    }

    constructor (limits: Limits, now: Time)
      requires ValidLimits(limits) && limits.max < DOCUMENT_CAP
      ensures Valid() && this.limits == limits && rows == [] && live == map[] && clock == now
    {
      this.limits := limits;
      rows, live, clock := [], map[], now;
    }

    /**
      * What every operation promises: the eager map's next state, its answer, and no record altered but as it may be.
      */
    twostate predicate Performed(op: Op, now: Time, answer: Answer)
      reads this
    {
      && Valid() && clock == now
      && live == EagerStep(old(live), op, now, limits).0
      && (Observable(op) ==> answer == EagerStep(old(live), op, now, limits).1)
      && TerminalsKept(old(rows), rows) && Descends(old(rows), rows, op, now)
      && (rows, answer) == Step(old(rows), op, now, limits)
    }

    /** The ghost side of an operation whose code has computed the next document. */
    ghost method Perform(was: Rows, op: Op, now: Time, answer: Answer)
      requires ValidStore(was, clock, limits) && Mirrors(was, clock, live) && limits.max < DOCUMENT_CAP
      requires clock <= now && Acceptable(op, was, now) && (rows, answer) == Step(was, op, now, limits)
      modifies this`live, this`clock
      ensures Valid() && clock == now && TerminalsKept(was, rows) && Descends(was, rows, op, now)
      ensures live == EagerStep(old(live), op, now, limits).0
      ensures Observable(op) ==> answer == EagerStep(old(live), op, now, limits).1
    {
      hide Mirrors, ValidStore, Step, EagerStep, TerminalsKept, Descends, Acceptable;
      EachRecordsFate(was, op, now, limits);
      StepAgrees(was, op, clock, now, limits, live);
      StoreIdsDiffer(was, op, clock, now, limits);
      TerminalsNeverChange(was, op, now, limits);
      live, clock := EagerStep(live, op, now, limits).0, now;
    }

    method Save(r: Record, supersede: bool, now: Time) returns (answer: Answer)
      requires Valid() && clock <= now && Acceptable(Op.Save(r, supersede), rows, now)
      modifies this
      ensures Performed(Op.Save(r, supersede), now, answer)
    {
      hide Mirrors, ValidStore, EagerStep, TerminalsKept, Descends, Acceptable, Compact, Expire, Settle;
      ghost var was := rows;
      var d := Expire(rows, now);
      var active := IndexOfActive(d, r.conversation);
      if r.expiresAt <= now || IndexById(d, r.id).Some? || (active.Some? && !supersede) {
        rows := Settle(rows, now, limits);
        answer := Failed;
      } else {
        if active.Some? {
          d := d[active.value := SupersededRow(d[active.value], now)];
        }
        d := d + [r];
        answer := Failed;
        if |d| <= DOCUMENT_CAP {
          var kept := Compact(d, limits);
          if kept.Some? {
            rows, answer := kept.value, Stored;
          }
        }
      }
      assert (rows, answer) == Saved(was, r, supersede, now, limits);
      Perform(was, Op.Save(r, supersede), now, answer);
    }

    method Get(id: ResolutionId, now: Time) returns (answer: Answer)
      requires Valid() && clock <= now
      modifies this
      ensures Performed(Op.Get(id), now, answer)
      ensures answer.Found? && (answer.record.None? <==> forall r | r in old(rows) :: r.id != id)
      ensures forall r | r in old(rows) && r.id == id ::
                && (answer.record.value.status == Pending <==> r.status == Pending && now < r.expiresAt)
                && (r.status == Pending && r.expiresAt <= now ==> answer.record.value.status == Expired)
                && (r.status != Pending || now < r.expiresAt ==> answer.record == Some(r))
    {
      GetFinds(rows, id, clock, now, limits);
      hide Mirrors, ValidStore, EagerStep, TerminalsKept, Descends, Compact, Expire, Settle;
      ghost var was := rows;
      var d := Expire(rows, now);
      rows := Settle(rows, now, limits);
      var i := IndexById(d, id);
      answer := Found(if i.Some? then Some(d[i.value]) else None);
      Perform(was, Op.Get(id), now, answer);
    }

    method ActiveForConversation(conversation: ConversationId, now: Time) returns (answer: Answer)
      requires Valid() && clock <= now
      modifies this
      ensures Performed(Active(conversation), now, answer)
    {
      hide Mirrors, ValidStore, EagerStep, TerminalsKept, Descends, Compact, Expire, Settle;
      ghost var was := rows;
      var d := Expire(rows, now);
      rows := Settle(rows, now, limits);
      var i := IndexOfActive(d, conversation);
      answer := Found(if i.Some? then Some(d[i.value]) else None);
      Perform(was, Active(conversation), now, answer);
    }

    method ExpireDue(now: Time) returns (answer: Answer)
      requires Valid() && clock <= now
      modifies this
      ensures Performed(Op.ExpireDue, now, answer)
    {
      hide Mirrors, ValidStore, EagerStep, TerminalsKept, Descends, Compact, Expire, Settle;
      ghost var was := rows;
      var expired, i := 0, 0;
      while i < |rows|
        invariant 0 <= i <= |rows| && rows == was && expired == DueCount(rows[..i], now)
      {
        assert rows[..i + 1][..i] == rows[..i];
        if Due(rows[i], now) {
          expired := expired + 1;
        }
        i := i + 1;
      }
      assert rows[..i] == rows;
      rows := Settle(rows, now, limits);
      answer := Count(expired);
      Perform(was, Op.ExpireDue, now, answer);
    }

    method Move(
      id: ResolutionId, status: Status, interpretation: Option<Frame>, reason: Option<string>,
      question: Option<Question>, now: Time)
      returns (answer: Answer)
      requires Valid() && clock <= now
      modifies this
      ensures Performed(Transition(id, status, interpretation, reason, question), now, answer)
    {
      hide Mirrors, ValidStore, EagerStep, TerminalsKept, Descends, Compact, Expire, Settle, Moved;
      ghost var was := rows;
      ghost var op := Transition(id, status, interpretation, reason, question);
      var d := Expire(rows, now);
      var i := IndexById(d, id);
      answer := Failed;
      if i.None? || !Open(d[i.value]) {
        rows := Settle(rows, now, limits);
      } else {
        var updated := Moved(d[i.value], status, interpretation, reason, question, now);
        if updated.Some? {
          var kept := Compact(d[i.value := updated.value], limits);
          if kept.Some? {
            rows, answer := kept.value, Changed(updated.value);
          }
        }
      }
      assert (rows, answer) == Transitioned(was, op, now, limits);
      Perform(was, op, now, answer);
    }

    /** Only a resolved meaning resolves a question; anything else is refused before the document is read. */
    method Resolve(id: ResolutionId, interpretation: Frame, now: Time) returns (answer: Answer)
      requires Valid() && clock <= now
      modifies this
      ensures interpretation.state != Resolved ==> unchanged(this) && answer == Failed
      ensures interpretation.state == Resolved ==>
        Performed(Transition(id, ResolvedMeaning, Some(interpretation), None, None), now, answer)
    {
      answer := Failed;
      if interpretation.state == Resolved {
        answer := Move(id, ResolvedMeaning, Some(interpretation), None, None, now);
      }
    }

    method UpdatePending(id: ResolutionId, interpretation: Frame, question: Question, now: Time)
      returns (answer: Answer)
      requires Valid() && clock <= now
      modifies this
      ensures interpretation.state != ClarificationRequired ==> unchanged(this) && answer == Failed
      ensures interpretation.state == ClarificationRequired ==>
        Performed(Transition(id, Pending, Some(interpretation), None, Some(question)), now, answer)
    {
      answer := Failed;
      if interpretation.state == ClarificationRequired {
        answer := Move(id, Pending, Some(interpretation), None, Some(question), now);
      }
    }

    /** Cancelling, expiring by hand and superseding end a question with a reason. */
    method End(id: ResolutionId, status: Status, reason: string, now: Time) returns (answer: Answer)
      requires Valid() && clock <= now && status in {Cancelled, Expired, Superseded}
      modifies this
      ensures Performed(Transition(id, status, None, Some(reason), None), now, answer)
    {
      answer := Move(id, status, None, Some(reason), None, now);
    }
  }

  lemma StoreIdsDiffer(rows: Rows, op: Op, t: Time, now: Time, lim: Limits)
    requires ValidStore(rows, t, lim) && Acceptable(op, rows, now)
    ensures DistinctIds(rows) && (op.Save? ==> forall r | r in rows :: r.id != op.record.id)
  {
  }
}
