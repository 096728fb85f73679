/** What a turn makes of a frame, said of the frame's own fields. */
module TurnFrames {
  import opened Common
  import opened Frames
  import opened PendingRecords
  import opened Clarification
  import opened DialogueClosure
  import opened Validators

  // ---------------------------------------------------------------- slots

  lemma {:induction false} NamedIsFound(slots: seq<Slot>, s: Slot)
    requires s in slots && Distinct(Names(slots))
    ensures SlotNamed(slots, s.name) == Some(s)
  {
    if slots[0].name == s.name {
      var i :| 0 <= i < |slots| && slots[i] == s;
      assert Names(slots)[0] == Names(slots)[i];
    } else {
      assert Names(slots[1..]) == Names(slots)[1..];
      NamedIsFound(slots[1..], s);
    }
  }

  /** The slots that a turn gives. */
  function Given(turn: Turn): seq<Slot> {
    match turn
    case Supply(slot) => [slot]
    case Merge(_, slots, _) => slots
    case _ => []
  }

  lemma PatchedSlots(f: Frame, q: Question, turn: Turn, home: Home)
    requires turn.Choose? || turn.Supply? || turn.Merge?
    ensures Patched(f, q, turn, home.dates, home.required).slots == SlotsAfter(f, Given(turn), home.dates)
  {
    assert DateUpdates(f.slots, home.dates) + [] == DateUpdates(f.slots, home.dates);
  }

  /**
    * A slot that the turn does not give stays as it was; only a date that the calendar can read is replaced by the
    * calendar's form of it.
    */
  lemma KeptSlots(f: Frame, q: Question, turn: Turn, home: Home, s: Slot)
    requires turn.Choose? || turn.Supply? || turn.Merge?
    requires s in f.slots && Distinct(Names(f.slots))
    requires turn.Supply? ==> turn.slot.name != s.name
    requires turn.Merge? ==> forall u | u in turn.slots :: u.name != s.name
    ensures var now := Patched(f, q, turn, home.dates, home.required).slots;
      if s.name == "date" && s.value.Some? && s.value.value != "" && home.dates(s.value.value).Some? then
        Slot("date", Some(home.dates(s.value.value).value), TemporalNormalized) in now
      else s in now
  {
    PatchedSlots(f, q, turn, home);
    NamedIsFound(f.slots, s);
    NamesAre(Given(turn), s.name);
    TurnSlotsAre(f, Given(turn), home.dates, s.name);
  }

  /** What the turn gives is there, and every slot is given by the turn or has a name that the frame had. */
  lemma GivenSlots(f: Frame, q: Question, turn: Turn, home: Home)
    requires (turn.Choose? || turn.Supply? || turn.Merge?) && Distinct(Names(f.slots))
    requires turn.Merge? ==> Distinct(Names(turn.slots))
    ensures var now := Patched(f, q, turn, home.dates, home.required).slots;
      && (turn.Supply? ==> turn.slot in now)
      && (turn.Merge? ==> forall u | u in turn.slots :: u in now)
      && Distinct(Names(now))
      && (forall s | s in now ::
            || (exists o :: o in f.slots && o.name == s.name)
            || (turn.Supply? && s == turn.slot)
            || (turn.Merge? && s in turn.slots))
  {
    var given := Given(turn);
    PatchedSlots(f, q, turn, home);
    var now := SlotsAfter(f, given, home.dates);
    assert Distinct(Names(given));
    NamesAfterTurn(f, given, home.dates);
    StayDistinct(Names(f.slots), Names(given));
    forall u | u in given
      ensures u in now
    {
      NamesAre(given, u.name);
      TurnSlotsAre(f, given, home.dates, u.name);
      SameNameSameSlot(given, u, SlotNamed(now, u.name).value);
    }
    forall s | s in now
      ensures s in given || exists o :: o in f.slots && o.name == s.name
    {
      NamedIsFound(now, s);
      TurnSlotsAre(f, given, home.dates, s.name);
      NamesAre(given, s.name);
      NamesAre(now, s.name);
      NamesAre(f.slots, s.name);
    }
  }

  lemma StayDistinct(known: seq<SlotName>, added: seq<SlotName>)
    requires Distinct(known) && Distinct(added)
    ensures Distinct(known + Lacking(added, known))
  {
    var l := Lacking(added, known);
    assert forall i | 0 <= i < |l| :: l[i] in l;
  }

  // ---------------------------------------------------------------- candidates

  lemma {:induction false} SelectedAre(candidates: seq<Candidate>, op: OperationId)
    requires Distinct(Operations(candidates))
    ensures forall c :: c in Selected(candidates, op) <==> c in candidates && c.operation == op
    ensures |Selected(candidates, op)| <= 1
  {
    if candidates != [] {
      assert Operations(candidates[1..]) == Operations(candidates)[1..];
      SelectedAre(candidates[1..], op);
      assert candidates == [candidates[0]] + candidates[1..];
      forall c | c in candidates[1..]
        ensures c.operation != candidates[0].operation
      {
        var i :| 0 < i < |candidates| && candidates[i] == c;
        assert Operations(candidates)[i] != Operations(candidates)[0];
      }
    }
  }

  /** A choice leaves the chosen candidate alone and unchanged. */
  lemma ChosenCandidate(f: Frame, q: Question, turn: Turn, home: Home)
    requires turn.Choose? && Distinct(Operations(f.candidates))
    ensures var now := Patched(f, q, turn, home.dates, home.required).candidates;
      && |now| <= 1 && forall c :: c in now <==> c in f.candidates && c.operation == turn.operation
  {
    SelectedAre(f.candidates, turn.operation);
  }

  /** A supplied slot keeps the candidates in their order; each now knows the slot, and misses it no longer. */
  lemma TaughtCandidates(f: Frame, q: Question, turn: Turn, home: Home, i: nat, n: SlotName)
    requires turn.Supply? && i < |f.candidates|
    ensures var now := Patched(f, q, turn, home.dates, home.required).candidates;
      && |now| == |f.candidates|
      && now[i].operation == f.candidates[i].operation && now[i].evidence == f.candidates[i].evidence
      && (n in now[i].slotNames <==> n in f.candidates[i].slotNames || n == turn.slot.name)
      && (n in now[i].missing <==> n in f.candidates[i].missing && n != turn.slot.name)
  {
  }

  /**
    * A semantic update keeps the selected candidate, or all when it selects none; each knows exactly the slots that
    * there are now, and misses exactly what it requires beyond them.
    */
  lemma UpdatedCandidates(f: Frame, q: Question, turn: Turn, home: Home, n: SlotName)
    requires turn.Merge? && Distinct(Operations(f.candidates))
    ensures var now := Patched(f, q, turn, home.dates, home.required);
      && (forall c | c in now.candidates ::
            && (exists o :: o in f.candidates && o.operation == c.operation && o.evidence == c.evidence)
            && (turn.selected.Some? ==> c.operation == turn.selected.value)
            && (n in c.slotNames <==> exists s :: s in now.slots && s.name == n)
            && (n in c.missing <==> n in home.required(c.operation) && !exists s :: s in now.slots && s.name == n))
      && (forall o | o in f.candidates && (turn.selected.Some? ==> o.operation == turn.selected.value) ::
            exists c :: c in now.candidates && c.operation == o.operation)
  {
    var now, kept := Patched(f, q, turn, home.dates, home.required), Kept(f, turn.selected);
    if turn.selected.Some? {
      SelectedAre(f.candidates, turn.selected.value);
    }
    assert now.candidates == Informed(kept, now.slots, home.required);
    hide Patched, Selected, Informed, Kept;
    InformedAre(kept, now.slots, home.required, n);
  }

  lemma InformedAre(kept: seq<Candidate>, slots: seq<Slot>, required: Required, n: SlotName)
    ensures var now := Informed(kept, slots, required);
      && (forall c | c in now ::
            && (exists o :: o in kept && o.operation == c.operation && o.evidence == c.evidence)
            && (n in c.slotNames <==> exists s :: s in slots && s.name == n)
            && (n in c.missing <==> n in required(c.operation) && !exists s :: s in slots && s.name == n))
      && (forall o | o in kept :: exists c :: c in now && c.operation == o.operation)
  {
    hide Names, Lacking, Informed;
    NamesAre(slots, n);
    var now := Informed(kept, slots, required);
    InformedLength(kept, slots, required);
    forall c | c in now
      ensures exists o :: o in kept && o.operation == c.operation && o.evidence == c.evidence
      ensures c.slotNames == Names(slots) && c.missing == Lacking(required(c.operation), Names(slots))
    {
      var i :| 0 <= i < |now| && now[i] == c;
      InformedAt(kept, slots, required, i);
    }
    forall o | o in kept
      ensures exists c :: c in now && c.operation == o.operation
    {
      var i :| 0 <= i < |kept| && kept[i] == o;
      InformedAt(kept, slots, required, i);
    }
  }

  lemma InformedLength(kept: seq<Candidate>, slots: seq<Slot>, required: Required)
    ensures |Informed(kept, slots, required)| == |kept|
  {
  }

  lemma InformedAt(kept: seq<Candidate>, slots: seq<Slot>, required: Required, i: nat)
    requires i < |kept|
    ensures var now := Informed(kept, slots, required);
      && i < |now| && now[i] in now && kept[i] in kept
      && now[i].operation == kept[i].operation && now[i].evidence == kept[i].evidence
      && now[i].slotNames == Names(slots) && now[i].missing == Lacking(required(kept[i].operation), Names(slots))
  {
  }

  // ---------------------------------------------------------------- referents

  /**
    * An explanation answers every open referent with the explicit material under the expression that was asked about.
    */
  lemma ExplainedReferents(f: Frame, q: Question, turn: Turn, home: Home, i: nat)
    requires turn.Explain? && i < |f.referents|
    ensures var now := Patched(f, q, turn, home.dates, home.required);
      && |now.referents| == |f.referents| && now.slots == f.slots && now.candidates == f.candidates
      && if f.referents[i].origin != Unresolved then now.referents[i] == f.referents[i]
         else
           && now.referents[i].value == Some(turn.material) && now.referents[i].origin == Explicit
           && now.referents[i].expression == q.referentExpression.GetOr("это")
  {
  }

  // ---------------------------------------------------------------- the state

  /**
    * The state follows from candidates and referents: with several candidates the choice between them is open, then a
    * referent without a value, then what the candidate misses; otherwise the frame is resolved to its one operation.
    */
  lemma StateFollows(f: Frame, q: Question, turn: Turn, home: Home)
    requires turn.Choose? || turn.Supply? || turn.Merge? || turn.Explain?
    ensures var now := Patched(f, q, turn, home.dates, home.required);
      var open := exists x :: x in now.referents && x.origin == Unresolved;
      && now.utterance == f.utterance
      && (forall n :: n in now.missing <==> exists c :: c in now.candidates && n in c.missing)
      && (now.state == Resolved <==> |now.candidates| <= 1 && !open && now.missing == [])
      && (now.state != Resolved ==> now.state == ClarificationRequired)
      && (now.ambiguity == CapabilityAmbiguity <==> |now.candidates| > 1)
      && (now.ambiguity == ReferentAmbiguity <==> |now.candidates| <= 1 && open)
      && (now.ambiguity == SlotAmbiguity <==> |now.candidates| <= 1 && !open && now.missing != [])
      && now.goal == (if |now.candidates| == 1 then Some(now.candidates[0].operation) else None)
  {
    var now := Patched(f, q, turn, home.dates, home.required);
    assert now == Assemble(f.utterance, now.candidates, now.slots, now.referents);
    hide Patched;
    AssembledState(f.utterance, now.candidates, now.slots, now.referents);
  }

  lemma AssembledState(utterance: string, candidates: seq<Candidate>, slots: seq<Slot>, referents: seq<Referent>)
    ensures var now := Assemble(utterance, candidates, slots, referents);
      var open := exists x :: x in now.referents && x.origin == Unresolved;
      && (forall n :: n in now.missing <==> exists c :: c in now.candidates && n in c.missing)
      && (now.state == Resolved <==> |now.candidates| <= 1 && !open && now.missing == [])
      && (now.state != Resolved ==> now.state == ClarificationRequired)
      && (now.ambiguity == CapabilityAmbiguity <==> |now.candidates| > 1)
      && (now.ambiguity == ReferentAmbiguity <==> |now.candidates| <= 1 && open)
      && (now.ambiguity == SlotAmbiguity <==> |now.candidates| <= 1 && !open && now.missing != [])
      && now.goal == (if |now.candidates| == 1 then Some(now.candidates[0].operation) else None)
  {
    hide Dedup, AllMissing;
    if x :| x in referents && x.origin == Unresolved {
      var i :| 0 <= i < |referents| && referents[i] == x;
    }
  }

  // ---------------------------------------------------------------- the reply

  /**
    * What the engine replies: a withdrawal and an unrelated turn are named as such; any other settles the question
    * exactly when the frame is resolved. A choice names its operation, and what resolves the frame names the one that
    * is left.
    */
  lemma ReplySays(r: Record, turn: Turn, home: Home)
    requires Follow(r, turn, home.dates, home.required).Some?
    ensures var reply := Follow(r, turn, home.dates, home.required).value;
      var now := reply.interpretation;
      && now == Patched(r.interpretation, r.question, turn, home.dates, home.required)
      && (reply.outcome == Abandoned <==> turn.Withdraw?) && (reply.outcome == Unrelated <==> turn.Independent?)
      && (reply.outcome == Settled <==> !turn.Withdraw? && !turn.Independent? && now.state == Resolved)
      && (turn.Choose? ==> reply.selected == Some(turn.operation))
      && (turn.Supply? || turn.Merge? ==> reply.selected == if now.state == Resolved then now.goal else None)
      && (!turn.Choose? && !turn.Supply? && !turn.Merge? ==> reply.selected == None)
      && (if turn.AmbiguousUnit? then
            && reply.question.Some? && reply.question.value.requestedSlot == Some("duration_minutes")
            && reply.question.value.valueHint == Some(turn.amount) && reply.question.value.kind == SlotQuestion
          else reply.question == None)
  {
    var now := Patched(r.interpretation, r.question, turn, home.dates, home.required);
    if turn.Supply? || turn.Merge? {
      StateFollows(r.interpretation, r.question, turn, home);
    }
  }
}
