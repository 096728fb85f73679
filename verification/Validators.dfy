/** Exactly which frames, questions, records and patches are refused, error by error. */
module Validators {
  import opened Common
  import opened Frames
  import opened PendingRecords
  import opened DialogueClosure

  // ---------------------------------------------------------------- frames

  lemma CandidateIsRefusedIff(c: Candidate)
    ensures !ValidCandidate(c) <==>
      || c.evidence == [] || |c.evidence| > 8 || |c.slotNames| > 16 || |c.missing| > 16
      || (exists i, j | 0 <= i < j < |c.slotNames| :: c.slotNames[i] == c.slotNames[j])
      || (exists i, j | 0 <= i < j < |c.missing| :: c.missing[i] == c.missing[j])
  {
  }

  lemma ValueIsRefusedIff(s: Slot, r: Referent)
    ensures !ValidSlot(s) <==> (s.origin == Unresolved) != s.value.None? || s.value == Some("")
    ensures !ValidReferent(r) <==>
      r.expression == "" || (r.origin == Unresolved) != r.value.None? || r.value == Some("")
  {
  }

  lemma RepeatsIff(f: Frame)
    ensures !Distinct(Operations(f.candidates)) <==>
      exists i, j | 0 <= i < j < |f.candidates| :: f.candidates[i].operation == f.candidates[j].operation
    ensures !Distinct(Names(f.slots)) <==>
      exists i, j | 0 <= i < j < |f.slots| :: f.slots[i].name == f.slots[j].name
    ensures !Distinct(f.missing) <==> exists i, j | 0 <= i < j < |f.missing| :: f.missing[i] == f.missing[j]
  {
    if i, j :| 0 <= i < j < |f.candidates| && f.candidates[i].operation == f.candidates[j].operation {
      assert Operations(f.candidates)[i] == Operations(f.candidates)[j];
    }
    if i, j :| 0 <= i < j < |f.slots| && f.slots[i].name == f.slots[j].name {
      assert Names(f.slots)[i] == Names(f.slots)[j];
    }
  }

  lemma OpenReferentIff(referents: seq<Referent>)
    ensures HasUnresolved(referents) <==> exists r | r in referents :: r.origin == Unresolved
  {
    if r :| r in referents && r.origin == Unresolved {
      var i :| 0 <= i < |referents| && referents[i] == r;
    }
  }

  /** A frame is refused for a bound, an invalid or repeated part, or a structure that its state does not allow. */
  lemma FrameIsRefusedIff(f: Frame)
    ensures !ValidFrame(f) <==>
      || f.utterance == ""
      || |f.candidates| > 8 || |f.slots| > 24 || |f.missing| > 24 || |f.referents| > 8
      || (exists c | c in f.candidates :: !ValidCandidate(c))
      || (exists s | s in f.slots :: (s.origin == Unresolved) != s.value.None? || s.value == Some(""))
      || (exists r | r in f.referents ::
            r.expression == "" || (r.origin == Unresolved) != r.value.None? || r.value == Some(""))
      || (exists i, j | 0 <= i < j < |f.candidates| :: f.candidates[i].operation == f.candidates[j].operation)
      || (exists i, j | 0 <= i < j < |f.slots| :: f.slots[i].name == f.slots[j].name)
      || (exists i, j | 0 <= i < j < |f.missing| :: f.missing[i] == f.missing[j])
      || match f.state
         case Resolved =>
           || |f.candidates| != 1 || f.missing != [] || f.ambiguity != Unambiguous
           || exists r | r in f.referents :: r.origin == Unresolved
         case ClarificationRequired => f.candidates == [] || f.ambiguity == Unambiguous
         case _ =>
           f.candidates != [] || f.slots != [] || f.missing != [] || f.referents != [] || f.ambiguity != Unambiguous
  {
    RepeatsIff(f);
    OpenReferentIff(f.referents);
    forall s: Slot, r: Referent
      ensures !ValidSlot(s) <==> (s.origin == Unresolved) != s.value.None? || s.value == Some("")
      ensures !ValidReferent(r) <==>
        r.expression == "" || (r.origin == Unresolved) != r.value.None? || r.value == Some("")
    {
      ValueIsRefusedIff(s, r);
    }
    hide Distinct, Operations, Names, HasUnresolved, ValidCandidate, ValidSlot, ValidReferent;
  }

  // ---------------------------------------------------------------- questions and records

  lemma QuestionIsRefusedIff(q: Question)
    ensures !ValidQuestion(q) <==>
      match q.kind
      case SlotQuestion => q.choices != [] || q.requestedSlot.None? || q.referentExpression.Some?
      case ReferentQuestion =>
        || q.choices != [] || q.requestedSlot.Some? || q.valueHint.Some?
        || q.referentExpression.GetOr("") == ""
      case _ =>
        || |q.choices| < 2 || |q.choices| > 8
        || q.requestedSlot.Some? || q.referentExpression.Some? || q.valueHint.Some?
  {
  }

  /**
    * A record is refused for an invalid frame or question, for times that do not follow one another, and when its
    * status does not go with its reason, its frame's state, or what its open question asks about.
    */
  lemma RecordIsRefusedIff(r: Record)
    ensures !ValidRecord(r) <==>
      || !ValidFrame(r.interpretation) || !ValidQuestion(r.question)
      || r.updatedAt < r.createdAt || r.expiresAt <= r.createdAt
      || (exists i, j | 0 <= i < j < |r.question.choices| :: r.question.choices[i] == r.question.choices[j])
      || match r.status
         case Pending =>
           || r.reason.Some? || r.interpretation.state != ClarificationRequired
           || (exists op | op in r.question.choices :: forall c | c in r.interpretation.candidates :: c.operation != op)
           || (r.question.requestedSlot.Some? && r.question.requestedSlot.value !in r.interpretation.missing)
           || (r.question.referentExpression.Some? &&
                 forall x | x in r.interpretation.referents ::
                   x.expression == r.question.referentExpression.value ==> x.value.Some?)
         case ResolvedMeaning => r.reason.Some? || r.interpretation.state != Resolved
         case _ => r.reason.None?
  {
    QuestionFitsIff(r.question, r.interpretation);
    hide ValidFrame, ValidQuestion, QuestionFits;
  }

  lemma OperationsAre(candidates: seq<Candidate>, op: OperationId)
    ensures op in Operations(candidates) <==> exists c | c in candidates :: c.operation == op
  {
    if op in Operations(candidates) {
      var i :| 0 <= i < |candidates| && Operations(candidates)[i] == op;
      assert candidates[i] in candidates;
    }
    if c :| c in candidates && c.operation == op {
      var i :| 0 <= i < |candidates| && candidates[i] == c;
      assert Operations(candidates)[i] == op;
    }
  }

  lemma QuestionFitsIff(q: Question, f: Frame)
    ensures !QuestionFits(q, f) <==>
      || (exists op | op in q.choices :: forall c | c in f.candidates :: c.operation != op)
      || (q.requestedSlot.Some? && q.requestedSlot.value !in f.missing)
      || (q.referentExpression.Some? &&
            forall x | x in f.referents :: x.expression == q.referentExpression.value ==> x.value.Some?)
  {
    forall op
      ensures op in Operations(f.candidates) <==> exists c | c in f.candidates :: c.operation == op
    {
      OperationsAre(f.candidates, op);
    }
    hide Operations;
    if x :| x in f.referents && x.expression == q.referentExpression.GetOr("") && x.value.None? {
      var i :| 0 <= i < |f.referents| && f.referents[i] == x;
    }
  }

  // ---------------------------------------------------------------- patches

  lemma ReferentsAreRefusedIff(was: seq<Referent>, now: seq<Referent>)
    requires Distinct(Expressions(was)) && Distinct(Expressions(now))
    ensures !AcceptsReferents(was, now) <==>
      || (exists o | o in was :: forall n | n in now :: n.expression != o.expression)
      || (exists n | n in now :: forall o | o in was :: n.expression != o.expression)
      || (exists o, n | o in was && n in now && n.expression == o.expression ::
            if o.value.Some? then n != o else n.value.Some? && n.origin != Explicit)
  {
    hide *;
    FiledByExpression(was);
    FiledByExpression(now);
    AcceptingReferents(was, now, ByExpression(was), ByExpression(now));
    ExpressionsCovered(was, now, ByExpression(was), ByExpression(now));
    ExpressionsCovered(now, was, ByExpression(now), ByExpression(was));
    AnswersKept(was, now, ByExpression(was), ByExpression(now));
  }

  lemma AcceptingReferents(
    was: seq<Referent>, now: seq<Referent>, before: map<string, Referent>, after: map<string, Referent>)
    requires before == ByExpression(was) && after == ByExpression(now)
    ensures AcceptsReferents(was, now) <==>
      && before.Keys <= after.Keys && after.Keys <= before.Keys
      && forall e | e in before && e in after ::
           if before[e].value.Some? then after[e] == before[e]
           else after[e].value.Some? ==> after[e].origin == Explicit
  {
    hide ByExpression;
  }

  lemma FiledByExpression(referents: seq<Referent>)
    requires Distinct(Expressions(referents))
    ensures Files(ByExpression(referents), referents)
  {
    forall x | x in referents
      ensures x.expression in ByExpression(referents) && ByExpression(referents)[x.expression] == x
    {
      ByExpressionFinds(referents, x);
    }
  }

  /** The dictionary of the referents. */
  predicate Files(m: map<string, Referent>, referents: seq<Referent>) {
    && (forall x | x in referents :: x.expression in m && m[x.expression] == x)
    && (forall e | e in m :: m[e] in referents && m[e].expression == e)
  }

  lemma ExpressionsCovered(
    a: seq<Referent>, b: seq<Referent>, before: map<string, Referent>, after: map<string, Referent>)
    requires Files(before, a) && Files(after, b)
    ensures before.Keys <= after.Keys <==> forall o | o in a :: exists n | n in b :: n.expression == o.expression
  {
    if before.Keys <= after.Keys {
      forall o | o in a
        ensures exists n | n in b :: n.expression == o.expression
      {
        assert o.expression in after && after[o.expression] in b;
      }
    }
  }

  lemma AnswersKept(
    a: seq<Referent>, b: seq<Referent>, before: map<string, Referent>, after: map<string, Referent>)
    requires Files(before, a) && Files(after, b)
    ensures (forall e | e in before && e in after ::
               if before[e].value.Some? then after[e] == before[e]
               else after[e].value.Some? ==> after[e].origin == Explicit)
      <==>
      (forall o, n | o in a && n in b && n.expression == o.expression ::
         if o.value.Some? then n == o else n.value.Some? ==> n.origin == Explicit)
  {
  }

  /**
    * The store refuses a patch that rewords the utterance, drops a slot, changes or adds one without the provenance for
    * it, invents, blurs or prunes a candidate, or drops, adds, changes or implicitly answers a referent.
    */
  lemma PatchIsRefusedIff(was: Frame, now: Frame)
    ensures !AcceptsPatch(was, now) <==>
      || now.utterance != was.utterance
      || !AcceptsSlots(was.slots, now.slots)
      || !AcceptsCandidates(was.candidates, now.candidates, now.slots)
      || !AcceptsReferents(was.referents, now.referents)
  {
    hide AcceptsSlots, AcceptsCandidates, AcceptsReferents;
  }

  lemma NamesAre(slots: seq<Slot>, n: SlotName)
    ensures n in Names(slots) <==> exists s | s in slots :: s.name == n
  {
    if n in Names(slots) {
      var i :| 0 <= i < |slots| && Names(slots)[i] == n;
      assert slots[i] in slots;
    }
    if s :| s in slots && s.name == n {
      var i :| 0 <= i < |slots| && slots[i] == s;
      assert Names(slots)[i] == n;
    }
  }

  lemma SlotsAreRefusedIff(was: seq<Slot>, now: seq<Slot>)
    ensures !AcceptsSlots(was, now) <==>
      || (exists o | o in was :: forall n | n in now :: n.name != o.name)
      || (exists o, n | o in was && n in now && n.name == o.name && n != o ::
            n.origin != FollowUpSemantic && n.origin != TemporalNormalized)
      || (exists n | n in now && (forall o | o in was :: o.name != n.name) ::
            n.origin != Explicit && n.origin != FollowUpSemantic && n.origin != TemporalNormalized)
  {
    forall n
      ensures n in Names(was) <==> exists s | s in was :: s.name == n
      ensures n in Names(now) <==> exists s | s in now :: s.name == n
    {
      NamesAre(was, n);
      NamesAre(now, n);
    }
    hide Names;
  }

  /** With distinct operations, a patched candidate is measured against the one candidate it comes from. */
  lemma CandidatesAreRefusedIff(was: seq<Candidate>, now: seq<Candidate>, slots: seq<Slot>)
    ensures !AcceptsCandidates(was, now, slots) <==>
      exists c | c in now ::
        forall o | o in was && o.operation == c.operation && o.evidence == c.evidence ::
          || (exists n | n in o.slotNames :: n !in c.slotNames)
          || (exists n | n in c.slotNames :: forall s | s in slots :: s.name != n)
          || (exists n | n in c.missing :: n !in o.missing)
          || (exists n | n in o.missing && n !in c.missing :: forall s | s in slots :: s.name != n)
  {
    forall o: Candidate, c: Candidate
      ensures Narrows(o, c, slots) <==>
        && o.operation == c.operation && o.evidence == c.evidence
        && !((exists n | n in o.slotNames :: n !in c.slotNames)
             || (exists n | n in c.slotNames :: forall s | s in slots :: s.name != n)
             || (exists n | n in c.missing :: n !in o.missing)
             || (exists n | n in o.missing && n !in c.missing :: forall s | s in slots :: s.name != n))
    {
      NarrowsIff(o, c, slots);
    }
    hide Narrows;
  }

  lemma NarrowsIff(o: Candidate, c: Candidate, slots: seq<Slot>)
    ensures Narrows(o, c, slots) <==>
      && o.operation == c.operation && o.evidence == c.evidence
      && !((exists n | n in o.slotNames :: n !in c.slotNames)
           || (exists n | n in c.slotNames :: forall s | s in slots :: s.name != n)
           || (exists n | n in c.missing :: n !in o.missing)
           || (exists n | n in o.missing && n !in c.missing :: forall s | s in slots :: s.name != n))
  {
    forall n
      ensures n in Names(slots) <==> exists s | s in slots :: s.name == n
    {
      NamesAre(slots, n);
    }
    hide Names;
  }
}
