/** Pending resolutions: their validators, and the store's independent check of every patch. */
module PendingRecords {
  import opened Common
  import opened Frames

  type ResolutionId = string
  type ConversationId = string
  type Time = int

  datatype Kind = CapabilityQuestion | SlotQuestion | ReferentQuestion | ProviderScopeQuestion

  datatype Question = Question(
    kind: Kind,
    choices: seq<OperationId>,
    requestedSlot: Option<SlotName>,
    referentExpression: Option<string>,
    valueHint: Option<string>)

  datatype Status = Pending | ResolvedMeaning | Cancelled | Expired | Superseded

  datatype Record = Record(
    id: ResolutionId,
    conversation: ConversationId,
    interpretation: Frame,
    question: Question,
    createdAt: Time,
    updatedAt: Time,
    expiresAt: Time,
    status: Status,
    reason: Option<string>)

  predicate Chooses(k: Kind) {
    k.CapabilityQuestion? || k.ProviderScopeQuestion?
  }

  predicate ValidQuestion(q: Question) {
    && (if Chooses(q.kind) then 2 <= |q.choices| <= 8 else q.choices == [])
    && (q.kind.SlotQuestion? <==> q.requestedSlot.Some?)
    && (q.kind.ReferentQuestion? <==> q.referentExpression.Some?)
    && (q.valueHint.Some? ==> q.kind.SlotQuestion?)
    && (q.referentExpression.Some? ==> q.referentExpression.value != "")
  }

  /** The part of the record validator that relates an open question to its frame. */
  predicate QuestionFits(q: Question, f: Frame) {
    && (forall op | op in q.choices :: op in Operations(f.candidates))
    && (q.requestedSlot.Some? ==> q.requestedSlot.value in f.missing)
    && (q.referentExpression.Some? ==>
          exists i :: 0 <= i < |f.referents|
                      && f.referents[i].expression == q.referentExpression.value && f.referents[i].value.None?)
  }

  predicate ValidRecord(r: Record) {
    && ValidFrame(r.interpretation) && ValidQuestion(r.question)
    && r.createdAt <= r.updatedAt && r.createdAt < r.expiresAt
    && Distinct(r.question.choices)
    && (match r.status
        case Pending =>
          && QuestionFits(r.question, r.interpretation)
          && r.reason.None? && r.interpretation.state == ClarificationRequired
        case ResolvedMeaning => r.reason.None? && r.interpretation.state == Resolved
        case _ => r.reason.Some?)
  }

  // ---------------------------------------------------------------- the patch check

  /** A dictionary keyed by expression: a later entry replaces an earlier one. */
  function ByExpression(referents: seq<Referent>): (m: map<string, Referent>)
    ensures forall e :: e in m <==> e in Expressions(referents)
    ensures forall e | e in m :: m[e] in referents && m[e].expression == e
  {
    if referents == [] then map[]
    else
      var last := referents[|referents| - 1];
      var front := referents[..|referents| - 1];
      assert referents == front + [last];
      assert Expressions(referents) == Expressions(front) + [last.expression];
      ByExpression(front)[last.expression := last]
  }

  const REVISION_ORIGINS := {FollowUpSemantic, TemporalNormalized}
  const ADDITION_ORIGINS := {Explicit, FollowUpSemantic, TemporalNormalized}

  predicate AcceptsSlots(was: seq<Slot>, now: seq<Slot>) {
    && (forall o | o in was :: o.name in Names(now))
    && (forall o, n | o in was && n in now :: o.name == n.name && n != o ==> n.origin in REVISION_ORIGINS)
    && (forall n | n in now :: n.name !in Names(was) ==> n.origin in ADDITION_ORIGINS)
  }

  /** `c` is the same candidate as `o`, knowing more and missing less. */
  predicate Narrows(o: Candidate, c: Candidate, slots: seq<Slot>) {
    && c.operation == o.operation && c.evidence == o.evidence
    && (forall n | n in o.slotNames :: n in c.slotNames)
    && (forall n | n in c.slotNames :: n in Names(slots))
    && (forall n | n in c.missing :: n in o.missing)
    && (forall n | n in o.missing && n !in c.missing :: n in Names(slots))
  }

  predicate AcceptsCandidates(was: seq<Candidate>, now: seq<Candidate>, slots: seq<Slot>) {
    forall c | c in now :: exists o :: o in was && Narrows(o, c, slots)
  }

  predicate AcceptsReferents(was: seq<Referent>, now: seq<Referent>) {
    var before, after := ByExpression(was), ByExpression(now);
    && after.Keys == before.Keys
    && forall e | e in before ::
         if before[e].value.Some? then after[e] == before[e]
         else after[e].value.Some? ==> after[e].origin == Explicit
  }

  predicate AcceptsPatch(was: Frame, now: Frame) {
    && now.utterance == was.utterance
    && AcceptsSlots(was.slots, now.slots)
    && AcceptsCandidates(was.candidates, now.candidates, now.slots)
    && AcceptsReferents(was.referents, now.referents)
  }

  /** A pending record moved to `status`; nothing when a check refuses the result. */
  function Moved(
    current: Record, status: Status, interpretation: Option<Frame>, reason: Option<string>, question: Option<Question>,
    now: Time): (r: Option<Record>)
    ensures r.Some? ==> ValidRecord(r.value) && r.value.status == status
  {
    var next := current.(
      status := status,
      interpretation := interpretation.GetOr(current.interpretation),
      question := question.GetOr(current.question),
      reason := reason,
      updatedAt := now);
    if interpretation.Some? && !AcceptsPatch(current.interpretation, interpretation.value) then None
    else if ValidRecord(next) then Some(next)
    else None
  }

  // ---------------------------------------------------------------- progress

  function Weight(candidates: seq<Candidate>): nat {
    if candidates == [] then 0
    else Weight(candidates[..|candidates| - 1]) + 1 + |candidates[|candidates| - 1].missing|
  }

  function OpenExpressions(referents: seq<Referent>): set<string> {
    var m := ByExpression(referents);
    set e | e in m && m[e].value.None?
  }

  /** How much is still to be asked about. */
  function Measure(f: Frame): nat {
    Weight(f.candidates) + |OpenExpressions(f.referents)|
  }

  lemma {:induction false} WeightSplits(a: seq<Candidate>, b: seq<Candidate>)
    ensures Weight(a + b) == Weight(a) + Weight(b)
  {
    if b == [] {
      assert a + b == a;
    } else {
      WeightSplits(a, b[..|b| - 1]);
      assert (a + b)[..|a + b| - 1] == a + b[..|b| - 1];
    }
  }

  lemma DistinctSubset(a: seq<SlotName>, b: seq<SlotName>)
    requires Distinct(a) && forall x | x in a :: x in b
    ensures |a| <= |b|
  {
    var s := set x | x in a;
    var t := set x | x in b;
    DistinctCardinality(a);
    AtMostLength(b);
    Smaller(s, t);
  }

  lemma Smaller<T>(s: set<T>, t: set<T>)
    requires s <= t
    ensures |s| <= |t|
  {
    assert t == s + (t - s);
  }

  lemma {:induction false} DistinctCardinality(a: seq<SlotName>)
    requires Distinct(a)
    ensures |set x | x in a| == |a|
  {
    if a != [] {
      var front, last := a[..|a| - 1], a[|a| - 1];
      assert a == front + [last];
      DistinctCardinality(front);
      assert (set x | x in a) == (set x | x in front) + {last};
    }
  }

  lemma {:induction false} AtMostLength(b: seq<SlotName>)
    ensures |set x | x in b| <= |b|
  {
    if b != [] {
      var front, last := b[..|b| - 1], b[|b| - 1];
      assert b == front + [last];
      AtMostLength(front);
      assert (set x | x in b) == (set x | x in front) + {last};
    }
  }

  /** Some candidate misses `n`. */
  predicate Asks(candidates: seq<Candidate>, n: SlotName) {
    exists c :: c in candidates && n in c.missing
  }

  lemma {:induction false} WeightAtLeast(s: seq<Candidate>, n: SlotName)
    ensures |s| <= Weight(s) && (Asks(s, n) ==> |s| < Weight(s))
  {
    if s != [] {
      assert s == s[..|s| - 1] + [s[|s| - 1]];
      WeightAtLeast(s[..|s| - 1], n);
    }
  }

  /** Candidates that each narrow a different one of `was`: each one dropped, and a missing slot answered, weigh. */
  lemma {:induction false} NarrowingLightens(was: seq<Candidate>, now: seq<Candidate>, slots: seq<Slot>, n: SlotName)
    requires Distinct(Operations(was)) && Distinct(Operations(now))
    requires forall c | c in now :: Distinct(c.missing)
    requires AcceptsCandidates(was, now, slots)
    ensures |now| <= |was| && Weight(now) + |was| <= Weight(was) + |now|
    ensures Asks(was, n) && !Asks(now, n) ==> Weight(now) + |was| < Weight(was) + |now|
  {
    hide Narrows, Distinct;
    if now == [] {
      WeightAtLeast(was, n);
    } else {
      var last, front := now[|now| - 1], now[..|now| - 1];
      assert last in now;
      var o :| o in was && Narrows(o, last, slots);
      var i :| 0 <= i < |was| && was[i] == o;
      var rest := was[..i] + was[i + 1..];
      RemovalKeepsDistinct(was, i);
      OthersNarrowOthers(was, now, slots, i);
      NarrowingLightens(rest, front, slots, n);
      WeightWithout(was, i);
      NarrowerIsLighter(o, last, slots, n);
      if Asks(was, n) && !Asks(now, n) && n !in o.missing {
        var c :| c in was && n in c.missing;
        assert c in rest;
      }
    }
  }

  lemma NarrowerIsLighter(o: Candidate, c: Candidate, slots: seq<Slot>, n: SlotName)
    requires Narrows(o, c, slots) && Distinct(c.missing)
    ensures |c.missing| <= |o.missing|
    ensures n in o.missing && n !in c.missing ==> |c.missing| < |o.missing|
  {
    DistinctSubset(c.missing, o.missing);
    if n in o.missing && n !in c.missing {
      DistinctSubset(c.missing + [n], o.missing);
    }
  }

  lemma WeightWithout(s: seq<Candidate>, i: nat)
    requires i < |s|
    ensures Weight(s) == Weight(s[..i] + s[i + 1..]) + 1 + |s[i].missing|
  {
    assert s == s[..i] + ([s[i]] + s[i + 1..]);
    WeightSplits(s[..i], [s[i]] + s[i + 1..]);
    WeightSplits([s[i]], s[i + 1..]);
    WeightSplits(s[..i], s[i + 1..]);
    assert [s[i]][..0] == [];
  }

  lemma OthersNarrowOthers(was: seq<Candidate>, now: seq<Candidate>, slots: seq<Slot>, i: nat)
    requires now != [] && i < |was| && Narrows(was[i], now[|now| - 1], slots)
    requires Distinct(Operations(now)) && AcceptsCandidates(was, now, slots)
    ensures AcceptsCandidates(was[..i] + was[i + 1..], now[..|now| - 1], slots)
    ensures Distinct(Operations(now[..|now| - 1]))
  {
    var front := now[..|now| - 1];
    assert Operations(front) == Operations(now)[..|now| - 1];
    forall c | c in front
      ensures exists r :: r in was[..i] + was[i + 1..] && Narrows(r, c, slots)
    {
      assert c in now;
      var r :| r in was && Narrows(r, c, slots);
      var j :| 0 <= j < |front| && front[j] == c;
      assert Operations(now)[j] != Operations(now)[|now| - 1];
      var n :| 0 <= n < |was| && was[n] == r;
      assert n != i;
      var rest := was[..i] + was[i + 1..];
      assert r == if n < i then rest[n] else rest[n - 1];
    }
  }

  lemma RemovalKeepsDistinct(was: seq<Candidate>, i: nat)
    requires i < |was| && Distinct(Operations(was))
    ensures Distinct(Operations(was[..i] + was[i + 1..]))
  {
    var rest := was[..i] + was[i + 1..];
    forall a, b | 0 <= a < b < |rest|
      ensures Operations(rest)[a] != Operations(rest)[b]
    {
      var a' := if a < i then a else a + 1;
      var b' := if b < i then b else b + 1;
      assert Operations(was)[a'] != Operations(was)[b'];
    }
  }

  /** Every slot name known to `a` is known to `b`. */
  predicate KeepsKnown(a: Frame, b: Frame) {
    forall n | n in Names(a.slots) :: n in Names(b.slots)
  }

  /** Something that `was` left open is settled in `now`: a choice, a missing slot, or a referent. */
  predicate Answered(was: Frame, now: Frame) {
    || |now.candidates| < |was.candidates|
    || (exists n | n in AllMissing(was.candidates) :: Asks(was.candidates, n) && !Asks(now.candidates, n))
    || !(OpenExpressions(was.referents) <= OpenExpressions(now.referents))
  }

  lemma OpenExpressionsShrink(was: seq<Referent>, now: seq<Referent>)
    requires AcceptsReferents(was, now)
    ensures OpenExpressions(now) <= OpenExpressions(was)
  {
    hide ByExpression;
  }

  lemma AnsweredReferentsClose(was: seq<Referent>, now: seq<Referent>)
    requires AcceptsReferents(was, now)
    ensures |OpenExpressions(now)| <= |OpenExpressions(was)|
    ensures !(OpenExpressions(was) <= OpenExpressions(now)) ==> |OpenExpressions(now)| < |OpenExpressions(was)|
  {
    hide OpenExpressions, AcceptsReferents;
    OpenExpressionsShrink(was, now);
    var after, before := OpenExpressions(now), OpenExpressions(was);
    Smaller(after, before);
    if e :| e in before && e !in after {
      Smaller(after + {e}, before);
    }
  }

  lemma AcceptedSlotsAreKept(was: Frame, now: Frame)
    requires AcceptsSlots(was.slots, now.slots)
    ensures KeepsKnown(was, now)
  {
    forall n | n in Names(was.slots)
      ensures n in Names(now.slots)
    {
      var i :| 0 <= i < |was.slots| && Names(was.slots)[i] == n;
      assert was.slots[i] in was.slots;
    }
  }

  /** No patch that the store accepts adds a question or forgets a slot, and every answer leaves less to ask. */
  lemma AcceptedPatchMakesProgress(was: Frame, now: Frame)
    requires ValidFrame(was) && ValidFrame(now) && AcceptsPatch(was, now)
    ensures KeepsKnown(was, now)
    ensures Measure(now) <= Measure(was)
    ensures Answered(was, now) ==> Measure(now) < Measure(was)
  {
    hide AcceptsSlots, AcceptsCandidates, AcceptsReferents, OpenExpressions, KeepsKnown;
    hide Asks, Distinct, ValidSlot, ValidReferent;
    AcceptedSlotsAreKept(was, now);
    AnsweredReferentsClose(was.referents, now.referents);
    forall c | c in now.candidates
      ensures Distinct(c.missing)
    {
      assert ValidCandidate(c);
    }
    NarrowingLightens(was.candidates, now.candidates, now.slots, "");
    if n :| n in AllMissing(was.candidates) && Asks(was.candidates, n) && !Asks(now.candidates, n) {
      NarrowingLightens(was.candidates, now.candidates, now.slots, n);
    }
  }

  ghost predicate AcceptedRun(frames: seq<Frame>) {
    && frames != []
    && (forall f | f in frames :: ValidFrame(f))
    && forall i | 0 < i < |frames| :: AcceptsPatch(frames[i - 1], frames[i])
  }

  /** The number of patches of a run that settle something. */
  function Answers(frames: seq<Frame>): nat
    requires frames != []
  {
    if |frames| == 1 then 0
    else
      Answers(frames[..|frames| - 1])
      + if Answered(frames[|frames| - 2], frames[|frames| - 1]) then 1 else 0
  }

  /** Clarification ends: however many patches the store accepts, the answers among them are bounded at the start. */
  lemma {:induction false} ClarificationTerminates(frames: seq<Frame>)
    requires AcceptedRun(frames)
    ensures Answers(frames) + Measure(frames[|frames| - 1]) <= Measure(frames[0])
    ensures KeepsKnown(frames[0], frames[|frames| - 1])
  {
    hide AcceptsPatch, ValidFrame, Measure, KeepsKnown, Answered;
    if |frames| == 1 {
      KnownIsPreorder(frames[0], frames[0], frames[0]);
    } else {
      var front := frames[..|frames| - 1];
      assert AcceptedRun(front) by {
        forall i | 0 < i < |front|
          ensures AcceptsPatch(front[i - 1], front[i])
        {
          assert AcceptsPatch(frames[i - 1], frames[i]);
        }
      }
      ClarificationTerminates(front);
      AcceptedPatchMakesProgress(frames[|frames| - 2], frames[|frames| - 1]);
      KnownIsPreorder(frames[0], frames[|frames| - 2], frames[|frames| - 1]);
    }
  }

  lemma KnownIsPreorder(a: Frame, b: Frame, c: Frame)
    ensures KeepsKnown(a, a)
    ensures KeepsKnown(a, b) && KeepsKnown(b, c) ==> KeepsKnown(a, c)
  {
  }
}
