/** Whole dialogues: every turn closes exactly when it is answerable, answers make progress, and some never settle. */
module Dialogue {
  import opened Common
  import opened Frames
  import opened PendingRecords
  import opened Clarification
  import opened DialogueClosure

  /** The turns that the validators, the builder and the store let through. */
  predicate Answerable(turn: Turn, r: Record) {
    var f, q := r.interpretation, r.question;
    match turn
    case Supply(s) => HasRoom(f, [s.name])
    case Merge(_, slots, referents) => referents == [] && HasRoom(f, Names(slots))
    case Explain(_) => OnlyAsked(f, q.referentExpression.GetOr("")) && (|f.candidates| > 1 || f.missing != [])
    case _ => true
  }

  // ---------------------------------------------------------------- facts about live records

  lemma LiveQuestion(r: Record, home: Home)
    requires Live(r, home)
    ensures QuestionFits(r.question, r.interpretation) && ValidQuestion(r.question)
    ensures Coherent(r.interpretation, home.required) && ValidFrame(r.interpretation)
    ensures r.interpretation.state == ClarificationRequired && r.status == Pending && r.reason.None?
  {
  }

  lemma SuppliedIsAdmissible(r: Record, s: Slot, home: Home)
    requires Live(r, home) && Understood(Supply(s), r)
    ensures Admissible(s, r.interpretation.slots)
  {
    var f := r.interpretation;
    if s.origin == Explicit {
      var n := r.question.requestedSlot.value;
      assert s.name == n && n in f.missing && n in AllMissing(f.candidates);
      var c :| c in f.candidates && n in c.missing;
      assert WellInformed(c, f.slots, home.required);
    }
  }

  lemma UnchangedIsAccepted(f: Frame, required: Required)
    requires Coherent(f, required)
    ensures AcceptsPatch(f, f)
  {
    hide AcceptsSlots, AcceptsReferents;
    KnownSlotsAreAccepted(f, required);
    CoherentReferents(f, required);
    forall c | c in f.candidates
      ensures Narrows(c, c, f.slots)
    {
      assert WellInformed(c, f.slots, required);
    }
  }

  lemma AnswerableTurnPatches(r: Record, turn: Turn, home: Home)
    requires Live(r, home) && Understood(turn, r) && Answerable(turn, r)
    ensures var now := Patched(r.interpretation, r.question, turn, home.dates, home.required);
      Coherent(now, home.required) && AcceptsPatch(r.interpretation, now)
  {
    hide Coherent, AcceptsPatch, Live, QuestionFits, Patched, HasRoom, OnlyAsked, Admissible;
    var f, q := r.interpretation, r.question;
    LiveQuestion(r, home);
    match turn
    case Choose(op) =>
      ChoicesAreCandidates(q, f, op);
      ChoiceCloses(f, q, op, home);
    case Supply(s) =>
      SuppliedIsAdmissible(r, s, home);
      SupplyCloses(f, q, s, home);
    case Merge(selected, slots, referents) =>
      MergeCloses(f, q, selected, slots, home);
    case Explain(material) =>
      ExplanationCloses(f, q, material, home);
    case _ =>
      UnchangedIsAccepted(f, home.required);
      NothingPatched(f, q, turn, home);
  }

  lemma NothingPatched(f: Frame, q: Question, turn: Turn, home: Home)
    requires !turn.Choose? && !turn.Supply? && !turn.Merge? && !turn.Explain?
    ensures Patched(f, q, turn, home.dates, home.required) == f
  {
  }

  lemma ChoicesAreCandidates(q: Question, f: Frame, op: OperationId)
    requires QuestionFits(q, f) && op in q.choices
    ensures op in Operations(f.candidates)
  {
  }

  lemma SameOperations(was: Frame, now: Frame)
    requires AcceptsPatch(was, now)
    ensures forall op | op in Operations(now.candidates) :: op in Operations(was.candidates)
  {
    forall op | op in Operations(now.candidates)
      ensures op in Operations(was.candidates)
    {
      var i :| 0 <= i < |now.candidates| && now.candidates[i].operation == op;
      assert now.candidates[i] in now.candidates;
      var o :| o in was.candidates && Narrows(o, now.candidates[i], now.slots);
      var j :| 0 <= j < |was.candidates| && was.candidates[j] == o;
      assert Operations(was.candidates)[j] == op;
    }
  }

  /**
    * The builder always has a question about an open frame, and the record validator accepts it: about a referent
    * before anything else, then about the candidates, all of them, and then about the first missing slot.
    */
  lemma NextQuestionFits(f: Frame, home: Home)
    requires Coherent(f, home.required) && f.state == ClarificationRequired
    requires forall op | op in Operations(f.candidates) :: op in home.catalog
    ensures var q := NextQuestion(f, home.catalog);
      q.Some? && ValidQuestion(q.value) && QuestionFits(q.value, f) && Distinct(q.value.choices)
    ensures var q := NextQuestion(f, home.catalog).value;
      && (q.kind.ReferentQuestion? <==> HasUnresolved(f.referents))
      && (q.kind.SlotQuestion? <==> !HasUnresolved(f.referents) && |f.candidates| == 1)
      && (q.kind.SlotQuestion? ==> q.requestedSlot == Some(f.missing[0]))
      && (q.kind.CapabilityQuestion? <==> !HasUnresolved(f.referents) && |f.candidates| > 1)
      && (q.kind.CapabilityQuestion? ==> q.choices == Operations(f.candidates))
      && q.valueHint.None?
  {
    if HasUnresolved(f.referents) {
      var r := FirstUnresolved(f.referents);
      assert ValidReferent(r);
    }
  }

  /** The referent that is asked about is the first open one. */
  lemma FirstReferentIsAsked(f: Frame, catalog: set<OperationId>)
    requires f.state == ClarificationRequired && exists x :: x in f.referents && x.origin == Unresolved
    ensures exists i ::
      && 0 <= i < |f.referents| && f.referents[i].origin == Unresolved
      && (forall j | 0 <= j < i :: f.referents[j].origin != Unresolved)
      && NextQuestion(f, catalog)
         == Some(Question(ReferentQuestion, [], None, Some(f.referents[i].expression), None))
  {
    var x :| x in f.referents && x.origin == Unresolved;
    var k :| 0 <= k < |f.referents| && f.referents[k] == x;
    var i := FirstIsFirst(f.referents);
  }

  lemma {:induction false} FirstIsFirst(referents: seq<Referent>) returns (i: nat)
    requires HasUnresolved(referents)
    ensures i < |referents| && referents[i].origin == Unresolved && referents[i] == FirstUnresolved(referents)
    ensures forall j | 0 <= j < i :: referents[j].origin != Unresolved
  {
    if referents[0].origin == Unresolved {
      i := 0;
    } else {
      var rest := referents[1..];
      var k :| 0 <= k < |referents| && referents[k].origin == Unresolved;
      assert rest[k - 1].origin == Unresolved;
      var n := FirstIsFirst(rest);
      i := n + 1;
    }
  }

  /** A frame whose scope is ambiguous is asked about as such, with all its candidates. */
  lemma ScopeIsAsked(f: Frame, catalog: set<OperationId>)
    requires f.state == ClarificationRequired && f.ambiguity == ProviderScopeAmbiguity
    requires |f.candidates| >= 2 && (forall x | x in f.referents :: x.origin != Unresolved)
    requires forall op | op in Operations(f.candidates) :: op in catalog
    ensures NextQuestion(f, catalog)
      == Some(Question(ProviderScopeQuestion, Operations(f.candidates), None, None, None))
  {
    assert !HasUnresolved(f.referents);
  }

  // ---------------------------------------------------------------- one turn

  /** A turn keeps the record's identity and lifetime, and leaves it open and coherent, resolved, or cancelled. */
  predicate Advanced(was: Record, now: Record, home: Home) {
    && now.id == was.id && now.conversation == was.conversation
    && now.createdAt == was.createdAt && now.expiresAt == was.expiresAt
    && AcceptsPatch(was.interpretation, now.interpretation) && Coherent(now.interpretation, home.required)
    && match now.status
       case Pending => Live(now, home)
       case ResolvedMeaning =>
         && now.interpretation.state == Resolved && now.interpretation.goal.Some?
         && now.interpretation.goal.value in home.adopted
       case Cancelled => now.interpretation == was.interpretation
       case _ => false
  }

  lemma ReplyContinues(r: Record, reply: Reply, home: Home, now: Time)
    requires Live(r, home) && ValidReply(reply) && r.updatedAt <= now
    requires reply.outcome in {Settled, StillOpen} && reply.question.None?
    requires Coherent(reply.interpretation, home.required) && AcceptsPatch(r.interpretation, reply.interpretation)
    ensures var next := Continue(r, reply, home.catalog, home.adopted, now);
      && next.Some? && Advanced(r, next.value, home) && next.value.interpretation == reply.interpretation
      && (next.value.status == ResolvedMeaning <==> reply.outcome == Settled)
      && (next.value.status == Pending <==> reply.outcome == StillOpen)
  {
    hide AcceptsPatch, QuestionFits, Distinct, WellInformed, HasUnresolved, AcceptsSlots;
    hide AllMissing, Dedup, ValidCandidate, ValidSlot, ValidReferent, Expressions, Names;
    var f := reply.interpretation;
    SameOperations(r.interpretation, f);
    AssembledStates(f.utterance, f.candidates, f.slots, f.referents);
    if reply.outcome == Settled {
      assert Operations(f.candidates)[0] == f.candidates[0].operation;
      assert f.candidates[0].operation in Operations(f.candidates);
    } else {
      NextQuestionFits(f, home);
    }
  }

  lemma RefusedPatchStops(r: Record, reply: Reply, home: Home, now: Time)
    requires Live(r, home) && !AcceptsPatch(r.interpretation, reply.interpretation)
    requires reply.outcome == StillOpen || (reply.outcome == Settled && reply.selected.GetOr("") in home.adopted)
    ensures Continue(r, reply, home.catalog, home.adopted, now).None?
  {
    hide AcceptsPatch, QuestionFits, Distinct, ValidFrame, ValidQuestion, ValidRecord;
    UnchangedIsAccepted(r.interpretation, home.required);
  }

  lemma PatchedOperation(r: Record, turn: Turn, home: Home)
    requires Live(r, home) && Understood(turn, r) && turn.Choose?
    ensures var now := Patched(r.interpretation, r.question, turn, home.dates, home.required);
      |now.candidates| == 1 && now.candidates[0].operation == turn.operation
  {
    LiveQuestion(r, home);
    ChoicesAreCandidates(r.question, r.interpretation, turn.operation);
    SelectedIsTheOne(r.interpretation.candidates, turn.operation);
  }

  lemma PatchingTurnFollows(r: Record, turn: Turn, home: Home)
    requires Live(r, home) && Understood(turn, r) && Answerable(turn, r)
    requires !turn.Withdraw? && !turn.Independent?
    ensures var reply := Follow(r, turn, home.dates, home.required);
      var now := Patched(r.interpretation, r.question, turn, home.dates, home.required);
      && reply.Some? && ValidReply(reply.value) && reply.value.interpretation == now
      && reply.value.outcome in {Settled, StillOpen} && (reply.value.question.None? || turn.AmbiguousUnit?)
      && Coherent(now, home.required) && AcceptsPatch(r.interpretation, now)
  {
    hide AcceptsPatch, Live, QuestionFits, Patched, HasRoom;
    hide OnlyAsked, Distinct, WellInformed, HasUnresolved, ValidQuestion;
    hide AllMissing, Dedup;
    var now := Patched(r.interpretation, r.question, turn, home.dates, home.required);
    LiveQuestion(r, home);
    AnswerableTurnPatches(r, turn, home);
    if turn.Choose? {
      PatchedOperation(r, turn, home);
    } else if turn.Explain? {
      ExplanationCloses(r.interpretation, r.question, turn.material, home);
    } else if !turn.Supply? && !turn.Merge? {
      NothingPatched(r.interpretation, r.question, turn, home);
    }
    AssembledStates(now.utterance, now.candidates, now.slots, now.referents);
  }

  lemma AmbiguousUnitContinues(r: Record, amount: string, home: Home, now: Time)
    requires Live(r, home) && Understood(AmbiguousUnit(amount), r) && r.updatedAt <= now
    ensures var next := Advance(r, AmbiguousUnit(amount), home, now);
      && next.Some? && Advanced(r, next.value, home) && next.value.status == Pending
      && next.value.interpretation == r.interpretation
      && next.value.question == Question(SlotQuestion, [], Some("duration_minutes"), None, Some(amount))
  {
    hide AcceptsPatch, Coherent, ValidFrame, Distinct, Names, Operations;
    NothingPatched(r.interpretation, r.question, AmbiguousUnit(amount), home);
    CoherentIsValid(r.interpretation, home.required);
    UnchangedIsAccepted(r.interpretation, home.required);
  }

  lemma QuietTurnContinues(r: Record, turn: Turn, home: Home, now: Time)
    requires Live(r, home) && (turn.Withdraw? || turn.Independent?) && r.updatedAt <= now
    ensures var next := Advance(r, turn, home, now);
      && next.Some? && Advanced(r, next.value, home) && next.value.interpretation == r.interpretation
      && (next.value.status == Cancelled <==> turn.Withdraw?) && (turn.Independent? ==> next.value == r)
  {
    hide AcceptsPatch;
    UnchangedIsAccepted(r.interpretation, home.required);
  }

  lemma UnanswerablePatchIsRefused(r: Record, turn: Turn, home: Home)
    requires Live(r, home) && Understood(turn, r) && !Answerable(turn, r)
    ensures var now := Patched(r.interpretation, r.question, turn, home.dates, home.required);
      || !ValidFrame(now)
      || !AcceptsPatch(r.interpretation, now)
      || (turn.Explain? && now.state == Resolved)
    ensures turn.Supply? ==> !ValidFrame(Patched(r.interpretation, r.question, turn, home.dates, home.required))
  {
    hide Coherent, Live, QuestionFits, HasRoom, OnlyAsked, ValidFrame, AcceptsReferents;
    var f, q := r.interpretation, r.question;
    LiveQuestion(r, home);
    match turn
    case Supply(s) => CrowdedSupplyIsRefused(f, q, s, home);
    case Merge(selected, slots, referents) =>
      if !HasRoom(f, Names(slots)) {
        CrowdedMergeIsRefused(f, q, selected, slots, referents, home);
      } else {
        CoherentReferents(f, home.required);
        SemanticReferentIsRefused(f.referents, referents);
      }
    case Explain(material) =>
      if !OnlyAsked(f, q.referentExpression.value) {
        OverwritingIsRefused(f, q.referentExpression.value, material, home.required);
      } else {
        ExplanationCloses(f, q, material, home);
      }
  }

  lemma MergedOperations(f: Frame, selected: Option<OperationId>, slots: seq<Slot>, home: Home)
    requires Coherent(f, home.required) && (selected.Some? ==> selected.value in Operations(f.candidates))
    ensures forall c | c in Informed(Kept(f, selected), slots, home.required) :: c.operation in Operations(f.candidates)
  {
    KeptIsPicked(f, selected, home.required);
    var kept := Kept(f, selected);
    forall i | 0 <= i < |kept|
      ensures Informed(kept, slots, home.required)[i].operation in Operations(f.candidates)
    {
      assert kept[i] in f.candidates;
      var j :| 0 <= j < |f.candidates| && f.candidates[j] == kept[i];
      assert Operations(f.candidates)[j] == kept[i].operation;
    }
  }

  lemma MergeNamesAnAdoptedOperation(r: Record, turn: Turn, home: Home)
    requires Live(r, home) && Understood(turn, r) && turn.Merge?
    ensures var named := NamedOperation(turn, Patched(r.interpretation, r.question, turn, home.dates, home.required));
      named.Some? ==> named.value in home.adopted
  {
    hide Coherent, QuestionFits, ValidFrame, Informed, ValidRecord, PutAll, PutReferents, Distinct, AllMissing, Dedup;
    var f := Patched(r.interpretation, r.question, turn, home.dates, home.required);
    LiveQuestion(r, home);
    MergedOperations(r.interpretation, turn.selected, f.slots, home);
  }

  lemma UnanswerableTurnStops(r: Record, turn: Turn, home: Home, now: Time)
    requires Live(r, home) && Understood(turn, r) && !Answerable(turn, r)
    ensures Advance(r, turn, home, now).None?
  {
    hide Coherent, AcceptsPatch, QuestionFits, HasRoom, OnlyAsked, ValidFrame;
    hide Continue, Live, Patched, Answerable, Understood;
    var reply := Follow(r, turn, home.dates, home.required);
    UnanswerablePatchIsRefused(r, turn, home);
    if reply.Some? {
      OnlySomeTurnsFail(r, turn);
      if turn.Merge? {
        MergeNamesAnAdoptedOperation(r, turn, home);
      }
      RefusedPatchStops(r, reply.value, home, now);
    }
  }

  lemma OnlySomeTurnsFail(r: Record, turn: Turn)
    requires !Answerable(turn, r)
    ensures turn.Supply? || turn.Merge? || turn.Explain?
  {
  }

  /** The dialogue closes: a turn is refused by no validator, builder or check exactly when it is answerable. */
  lemma TurnCloses(r: Record, turn: Turn, home: Home, now: Time)
    requires Live(r, home) && Understood(turn, r) && r.updatedAt <= now
    ensures var next := Advance(r, turn, home, now);
      && (next.Some? <==> Answerable(turn, r))
      && (next.Some? ==> Advanced(r, next.value, home))
      && (next.Some? ==>
            next.value.interpretation == Patched(r.interpretation, r.question, turn, home.dates, home.required))
  {
    hide Answerable, Live, Understood, Advanced, Coherent, AcceptsPatch, Follow, Continue, ValidReply, Patched;
    if !Answerable(turn, r) {
      UnanswerableTurnStops(r, turn, home, now);
    } else if turn.Withdraw? || turn.Independent? {
      QuietTurnContinues(r, turn, home, now);
      NothingPatched(r.interpretation, r.question, turn, home);
    } else if turn.AmbiguousUnit? {
      AmbiguousUnitContinues(r, turn.amount, home, now);
      NothingPatched(r.interpretation, r.question, turn, home);
    } else {
      PatchingTurnFollows(r, turn, home);
      ReplyContinues(r, Follow(r, turn, home.dates, home.required).value, home, now);
    }
  }

  // ---------------------------------------------------------------- progress

  /**
    * What an answerable turn stores: a withdrawal cancels, an unrelated turn changes nothing, an amount without a unit
    * is asked about again with the amount, and any other turn resolves the record or leaves the builder's next
    * question.
    */
  lemma TurnStores(r: Record, turn: Turn, home: Home, now: Time)
    requires Live(r, home) && Understood(turn, r) && Answerable(turn, r) && r.updatedAt <= now
    ensures Advance(r, turn, home, now).Some?
    ensures var next := Advance(r, turn, home, now).value;
      && (next == r || next.updatedAt == now)
      && match turn
         case Withdraw => next == r.(status := Cancelled, reason := Some("user_cancelled"), updatedAt := now)
         case Independent => next == r
         case AmbiguousUnit(amount) =>
           && next.status == Pending && next.interpretation == r.interpretation
           && next.question == Question(SlotQuestion, [], Some("duration_minutes"), None, Some(amount))
         case _ =>
           if next.interpretation.state == Resolved then
             next.status == ResolvedMeaning && next.question == r.question && next.reason.None?
           else next.status == Pending && Some(next.question) == NextQuestion(next.interpretation, home.catalog)
  {
    hide *;
    TurnCloses(r, turn, home, now);
    if turn.Withdraw? || turn.Independent? {
      QuietTurnStores(r, turn, home, now);
    } else if turn.AmbiguousUnit? {
      AmbiguousUnitStores(r, turn.amount, home, now);
    } else {
      PatchingTurnFollows(r, turn, home);
      AdvanceFollows(r, turn, home, now);
      ReplyContinues(r, Follow(r, turn, home.dates, home.required).value, home, now);
      ReplyStores(r, Follow(r, turn, home.dates, home.required).value, home, now);
    }
  }

  lemma AdvanceFollows(r: Record, turn: Turn, home: Home, now: Time)
    requires Follow(r, turn, home.dates, home.required).Some?
    ensures var reply := Follow(r, turn, home.dates, home.required).value;
      Advance(r, turn, home, now) == Continue(r, reply, home.catalog, home.adopted, now)
  {
  }

  lemma QuietTurnStores(r: Record, turn: Turn, home: Home, now: Time)
    requires Advance(r, turn, home, now).Some?
    ensures turn.Withdraw? ==>
      Advance(r, turn, home, now).value == r.(status := Cancelled, reason := Some("user_cancelled"), updatedAt := now)
    ensures turn.Independent? ==> Advance(r, turn, home, now).value == r
  {
    hide ValidFrame, ValidRecord, AcceptsPatch;
  }

  lemma AmbiguousUnitStores(r: Record, amount: string, home: Home, now: Time)
    requires Live(r, home) && Understood(AmbiguousUnit(amount), r) && r.updatedAt <= now
    ensures var next := Advance(r, AmbiguousUnit(amount), home, now);
      && next.Some? && next.value.status == Pending && next.value.interpretation == r.interpretation
      && next.value.question == Question(SlotQuestion, [], Some("duration_minutes"), None, Some(amount))
      && (next.value == r || next.value.updatedAt == now)
  {
    AmbiguousUnitContinues(r, amount, home, now);
    hide ValidFrame, ValidRecord, AcceptsPatch;
  }

  lemma ReplyStores(r: Record, reply: Reply, home: Home, now: Time)
    requires Live(r, home) && ValidReply(reply) && reply.outcome in {Settled, StillOpen} && reply.question.None?
    requires Continue(r, reply, home.catalog, home.adopted, now).Some?
    requires reply.outcome == Settled ==>
      Continue(r, reply, home.catalog, home.adopted, now).value.status == ResolvedMeaning
    ensures var next := Continue(r, reply, home.catalog, home.adopted, now).value;
      && (next == r || next.updatedAt == now)
      && if next.interpretation.state == Resolved then
           next.status == ResolvedMeaning && next.question == r.question && next.reason.None?
         else next.status == Pending && Some(next.question) == NextQuestion(next.interpretation, home.catalog)
  {
    hide ValidFrame, ValidRecord, AcceptsPatch, NextQuestion, Coherent;
  }

  /** The turn answers something that the frame leaves open. */
  predicate Settles(turn: Turn, r: Record) {
    match turn
    case Choose(_) => true
    case Explain(_) => true
    case Supply(s) => s.name in r.interpretation.missing
    case Merge(selected, slots, _) =>
      || (selected.Some? && |r.interpretation.candidates| > 1)
      || exists n | n in Names(slots) :: n in r.interpretation.missing
    case _ => false
  }

  lemma MissingIsAsked(f: Frame, n: SlotName, required: Required)
    requires Coherent(f, required) && n in f.missing
    ensures n in AllMissing(f.candidates) && Asks(f.candidates, n)
  {
    MissingIsTallied(f, required);
    hide Coherent, ValidFrame;
  }

  lemma KnownIsNotMissing(f: Frame, n: SlotName, required: Required)
    requires Coherent(f, required) && n in Names(f.slots)
    ensures !Asks(f.candidates, n)
  {
    hide ValidFrame, Assemble, Names, Distinct;
    forall c | c in f.candidates
      ensures n !in c.missing
    {
      assert WellInformed(c, f.slots, required);
    }
  }

  lemma KnownIsNotAsked(was: Frame, now: Frame, n: SlotName, required: Required)
    requires Coherent(was, required) && Coherent(now, required)
    requires n in was.missing && n in Names(now.slots)
    ensures Answered(was, now)
  {
    hide Coherent, Names;
    MissingIsAsked(was, n, required);
    KnownIsNotMissing(now, n, required);
  }

  lemma UpdatesAreKnown(was: seq<Slot>, updates: seq<Slot>, n: SlotName)
    requires n in Names(updates)
    ensures n in Names(PutAll(was, updates))
  {
    NamesAfter(was, updates);
  }

  lemma ChoiceNarrows(r: Record, op: OperationId, home: Home)
    requires Live(r, home) && Understood(Choose(op), r)
    ensures |r.interpretation.candidates| > 1
  {
    DistinctSubset(r.question.choices, Operations(r.interpretation.candidates));
  }

  lemma ExplanationAnswers(r: Record, material: string, home: Home)
    requires Live(r, home) && Understood(Explain(material), r) && Answerable(Explain(material), r)
    ensures Answered(r.interpretation,
      Patched(r.interpretation, r.question, Explain(material), home.dates, home.required))
  {
    var f, asked := r.interpretation, r.question.referentExpression.value;
    ExplainedReferents(f, asked, material, home.required);
    var now := ExplainAll(f.referents, Referent(asked, Some(material), Explicit));
    var i :| 0 <= i < |f.referents| && f.referents[i].expression == asked && f.referents[i].value.None?;
    ByExpressionFinds(f.referents, f.referents[i]);
    assert asked in OpenExpressions(f.referents);
    forall e | e in ByExpression(now)
      ensures ByExpression(now)[e].value.Some?
    {
      var x := ByExpression(now)[e];
      assert x in now && ValidReferent(x);
    }
    assert asked !in OpenExpressions(now);
  }

  /** An answer strictly lightens what is left to ask. */
  lemma SettlingTurnMakesProgress(r: Record, turn: Turn, home: Home)
    requires Live(r, home) && Understood(turn, r) && Answerable(turn, r) && Settles(turn, r)
    ensures var now := Patched(r.interpretation, r.question, turn, home.dates, home.required);
      Answered(r.interpretation, now) && Measure(now) < Measure(r.interpretation)
  {
    hide Live, Coherent, AcceptsPatch, ValidFrame, Measure, HasRoom, OnlyAsked, PutAll, DateUpdates;
    var f := r.interpretation;
    var now := Patched(f, r.question, turn, home.dates, home.required);
    AnswerableTurnPatches(r, turn, home);
    LiveQuestion(r, home);
    CoherentIsValid(now, home.required);
    match turn {
      case Choose(op) =>
        ChoiceNarrows(r, op, home);
        PatchedOperation(r, turn, home);
      case Explain(material) => ExplanationAnswers(r, material, home);
      case Supply(s) =>
        assert Names(DateUpdates(f.slots, home.dates) + [s])[|DateUpdates(f.slots, home.dates)|] == s.name;
        UpdatesAreKnown(f.slots, DateUpdates(f.slots, home.dates) + [s], s.name);
        KnownIsNotAsked(f, now, s.name, home.required);
      case Merge(selected, slots, _) =>
        if n :| n in Names(slots) && n in f.missing {
          var all := DateUpdates(f.slots, home.dates) + slots;
          assert Names(all) == Names(DateUpdates(f.slots, home.dates)) + Names(slots);
          UpdatesAreKnown(f.slots, all, n);
          KnownIsNotAsked(f, now, n, home.required);
        } else {
          SelectedIsPicked(f, selected.value, home.required);
        }
    }
    AcceptedPatchMakesProgress(f, now);
  }

  lemma CoherentIsValid(f: Frame, required: Required)
    requires Coherent(f, required)
    ensures ValidFrame(f)
  {
  }

  // ---------------------------------------------------------------- whole dialogues

  /** The record built for a discovered frame; nothing when the builder refuses it. */
  function Opened(f: Frame, id: ResolutionId, conversation: ConversationId, now: Time, ttl: Time, home: Home):
    Option<Record>
  {
    match NextQuestion(f, home.catalog)
    case None => None
    case Some(q) =>
      var r := Record(id, conversation, f, q, now, now, now + ttl, Pending, None);
      if ValidRecord(r) then Some(r) else None
  }

  /** What is discovered and still ambiguous opens a dialogue: no validator refuses it. */
  lemma DiscoveryOpensADialogue(
    f: Frame, id: ResolutionId, conversation: ConversationId, now: Time, ttl: Time, home: Home)
    requires Coherent(f, home.required) && ttl > 0
    requires forall op | op in Operations(f.candidates) :: op in home.catalog && op in home.adopted
    ensures var r := Opened(f, id, conversation, now, ttl, home);
      && (r.Some? <==> f.state == ClarificationRequired)
      && (r.Some? ==> Live(r.value, home) && r.value.interpretation == f)
  {
    hide QuestionFits, WellInformed, HasUnresolved, Distinct, ValidCandidate, ValidReferent, ValidSlot;
    if f.state == ClarificationRequired {
      NextQuestionFits(f, home);
    }
  }

  /**
    * Turns one after the other, each understood against the record it found; a refused turn leaves the record as it is.
    */
  ghost predicate IsDialogue(records: seq<Record>, turns: seq<Turn>, times: seq<Time>, home: Home) {
    && |records| == |turns| + 1 && |times| == |turns| && Live(records[0], home)
    && forall i | 0 <= i < |turns| ::
         && records[i].status == Pending && Understood(turns[i], records[i]) && records[i].updatedAt <= times[i]
         && records[i + 1] == Advance(records[i], turns[i], home, times[i]).GetOr(records[i])
  }

  /** The turn settles something and is not refused. */
  predicate Accepted(turn: Turn, r: Record) {
    Settles(turn, r) && Answerable(turn, r)
  }

  function Settlements(records: seq<Record>, turns: seq<Turn>): nat
    requires |records| == |turns| + 1
  {
    if turns == [] then 0
    else
      Settlements(records[..|turns|], turns[..|turns| - 1])
      + if Accepted(turns[|turns| - 1], records[|turns| - 1]) then 1 else 0
  }

  /** Every dialogue stays open and coherent until it ends, and its answers are bounded from the start. */
  lemma {:induction false} DialogueIsBounded(records: seq<Record>, turns: seq<Turn>, times: seq<Time>, home: Home)
    requires IsDialogue(records, turns, times, home)
    ensures var last := records[|turns|];
      && (last.status == Pending ==> Live(last, home))
      && last.status in {Pending, ResolvedMeaning, Cancelled}
      && last.id == records[0].id && last.expiresAt == records[0].expiresAt
      && KeepsKnown(records[0].interpretation, last.interpretation)
      && Settlements(records, turns) + Measure(last.interpretation) <= Measure(records[0].interpretation)
  {
    hide Live, Understood, Advance, Answerable, Settles, Coherent;
    hide AcceptsPatch, KeepsKnown, Measure, Answered, ValidFrame;
    var n := |turns|;
    if n == 0 {
      LiveQuestion(records[0], home);
      KnownIsPreorder(records[0].interpretation, records[0].interpretation, records[0].interpretation);
    } else {
      DialogueFront(records, turns, times, home);
      DialogueIsBounded(records[..n], turns[..n - 1], times[..n - 1], home);
      var was, now := records[n - 1], records[n];
      TurnCloses(was, turns[n - 1], home, times[n - 1]);
      if Answerable(turns[n - 1], was) {
        AdvancedFacts(was, now, home);
        AcceptedPatchMakesProgress(was.interpretation, now.interpretation);
        KnownIsPreorder(records[0].interpretation, was.interpretation, now.interpretation);
        if Settles(turns[n - 1], was) {
          SettlingTurnMakesProgress(was, turns[n - 1], home);
        }
      }
    }
  }

  lemma DialogueFront(records: seq<Record>, turns: seq<Turn>, times: seq<Time>, home: Home)
    requires IsDialogue(records, turns, times, home) && turns != []
    ensures IsDialogue(records[..|turns|], turns[..|turns| - 1], times[..|turns| - 1], home)
  {
    hide Live, Understood, Advance;
  }

  lemma AdvancedFacts(was: Record, now: Record, home: Home)
    requires Advanced(was, now, home) && Live(was, home)
    ensures ValidFrame(was.interpretation) && ValidFrame(now.interpretation)
    ensures AcceptsPatch(was.interpretation, now.interpretation) && Coherent(now.interpretation, home.required)
    ensures now.id == was.id && now.expiresAt == was.expiresAt && now.status in {Pending, ResolvedMeaning, Cancelled}
    ensures now.status == Pending ==> Live(now, home)
    ensures now.status == ResolvedMeaning ==> now.interpretation.state == Resolved
  {
  }

  // ---------------------------------------------------------------- a question that is never settled

  /** One complete candidate whose only open dimension is a referent. */
  predicate OnlyAReferent(f: Frame) {
    |f.candidates| == 1 && f.missing == [] && HasUnresolved(f.referents)
  }

  lemma ReferentStays(r: Record, turn: Turn, home: Home, now: Time)
    requires Live(r, home) && Understood(turn, r) && r.updatedAt <= now && OnlyAReferent(r.interpretation)
    ensures var next := Advance(r, turn, home, now);
      next.Some? ==> OnlyAReferent(next.value.interpretation) && next.value.status != ResolvedMeaning
  {
    hide Live, Understood, Advance, Coherent, AcceptsPatch, HasRoom;
    hide OnlyAsked, Put, PutAll, TeachAll, DateUpdates, ValidFrame;
    TurnCloses(r, turn, home, now);
    var next := Advance(r, turn, home, now);
    if next.Some? {
      var f := next.value.interpretation;
      AdvancedFacts(r, next.value, home);
      LiveQuestion(r, home);
      FewerStay(r.interpretation, f, home.required);
      MissingIsTallied(f, home.required);
      AssembledStates(f.utterance, f.candidates, f.slots, f.referents);
      assert f.referents == r.interpretation.referents;
      CoherentStates(f, home.required);
    }
  }

  lemma CoherentStates(f: Frame, required: Required)
    requires Coherent(f, required)
    ensures f.state == Resolved <==> |f.candidates| == 1 && f.missing == [] && !HasUnresolved(f.referents)
  {
  }

  lemma FewerStay(was: Frame, now: Frame, required: Required)
    requires ValidFrame(was) && Coherent(now, required) && Coherent(was, required) && AcceptsPatch(was, now)
    ensures |now.candidates| <= |was.candidates| && |now.missing| <= |was.missing|
  {
    hide Narrows, AcceptsSlots, AcceptsReferents, Distinct;
    forall c | c in now.candidates
      ensures Distinct(c.missing)
    {
      assert ValidCandidate(c);
    }
    NarrowingLightens(was.candidates, now.candidates, now.slots, "");
    RetoldMissesLess(was, now.candidates, now.slots);
  }

  /**
   * A referent that is all a frame lacks is never settled: the engine's answer names no operation, so its own
   * reply validator refuses it, and the store refuses the semantic answer.
   */
  lemma {:induction false} SoleReferentIsNeverResolved(
    records: seq<Record>, turns: seq<Turn>, times: seq<Time>, home: Home)
    requires IsDialogue(records, turns, times, home) && OnlyAReferent(records[0].interpretation)
    ensures var last := records[|turns|];
      OnlyAReferent(last.interpretation) && last.status != ResolvedMeaning
  {
    hide Live, Understood, Advance, OnlyAReferent;
    var n := |turns|;
    if n == 0 {
      LiveQuestion(records[0], home);
    } else {
      DialogueFront(records, turns, times, home);
      SoleReferentIsNeverResolved(records[..n], turns[..n - 1], times[..n - 1], home);
      DialogueIsBounded(records[..n], turns[..n - 1], times[..n - 1], home);
      ReferentStays(records[n - 1], turns[n - 1], home, times[n - 1]);
    }
  }
}
