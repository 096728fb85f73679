/** No validator, builder or provenance check refuses a dialogue turn, except in the cases named here. */
module DialogueClosure {
  import opened Common
  import opened Frames
  import opened PendingRecords
  import opened Clarification

  /** A stored question that is still open. */
  predicate Live(r: Record, home: Home) {
    && r.status == Pending && ValidRecord(r) && Coherent(r.interpretation, home.required)
    && forall op | op in Operations(r.interpretation.candidates) :: op in home.catalog && op in home.adopted
  }

  predicate Grounded(s: Slot) {
    ValidSlot(s) && s.origin in REVISION_ORIGINS
  }

  /** What the grammars and the semantic validator promise about the turn they report. */
  predicate Understood(turn: Turn, r: Record) {
    var f, q := r.interpretation, r.question;
    match turn
    case Choose(op) => Chooses(q.kind) && op in q.choices
    case Supply(s) =>
      && q.requestedSlot.Some? && ValidSlot(s)
      && (if s.name == q.requestedSlot.value then s.origin in {Explicit, TemporalNormalized}
          else q.requestedSlot.value == "duration_minutes" && s.name == "time" && s.origin == TemporalNormalized)
    case AmbiguousUnit(amount) => q.requestedSlot == Some("duration_minutes") && amount != ""
    case Explain(material) => q.referentExpression.Some? && material != ""
    case Merge(selected, slots, referents) =>
      && (selected.Some? ==> selected.value in Operations(f.candidates))
      && Distinct(Names(slots)) && (forall s | s in slots :: Grounded(s))
      && Distinct(Expressions(referents))
      && (forall x | x in referents :: ValidReferent(x) && x.origin == FollowUpSemantic
            && x.expression in Expressions(f.referents) && x.expression in OpenExpressions(f.referents))
    case _ => true
  }

  // ---------------------------------------------------------------- names

  /** Leaving out names twice leaves out both. */
  lemma {:induction false} LackingTwice(s: seq<SlotName>, a: seq<SlotName>, b: seq<SlotName>, both: seq<SlotName>)
    requires forall n :: n in both <==> n in a || n in b
    ensures Lacking(Lacking(s, a), b) == Lacking(s, both)
  {
    if s != [] {
      var front, last := s[..|s| - 1], s[|s| - 1];
      LackingTwice(front, a, b, both);
      var l := Lacking(front, a);
      assert (l + [last])[..|l + [last]| - 1] == l;
    }
  }

  lemma {:induction false} LackingNone(s: seq<SlotName>, a: seq<SlotName>)
    requires forall n | n in s :: n !in a
    ensures Lacking(s, a) == s
  {
    if s != [] {
      LackingNone(s[..|s| - 1], a);
      assert s == s[..|s| - 1] + [s[|s| - 1]];
    }
  }

  // ---------------------------------------------------------------- slot updates

  /** An update that the store accepts over `was`. */
  predicate Admissible(u: Slot, was: seq<Slot>) {
    && ValidSlot(u) && u.value.Some?
    && (u.origin in REVISION_ORIGINS || (u.origin == Explicit && u.name !in Names(was)))
  }

  lemma NamesGrow(known: seq<SlotName>, added: seq<SlotName>, n: SlotName)
    ensures var now := known + Dedup(Lacking(added, known));
      known + Dedup(Lacking(added + [n], known)) == if n in now then now else now + [n]
  {
    var l := Lacking(added, known);
    assert (added + [n])[..|added + [n]| - 1] == added;
    assert (l + [n])[..|l + [n]| - 1] == l;
    assert Lacking(added + [n], known) == if n in known then l else l + [n];
    assert Dedup(l + [n]) == if n in Dedup(l) then Dedup(l) else Dedup(l) + [n];
    hide Dedup, Lacking;
    assert known + (Dedup(l) + [n]) == known + Dedup(l) + [n];
  }

  lemma NamesOfFront(slots: seq<Slot>)
    requires slots != []
    ensures Names(slots) == Names(slots[..|slots| - 1]) + [slots[|slots| - 1].name]
  {
  }

  /** Dictionary updates keep the known names in place and append each new name once. */
  lemma {:induction false} NamesAfter(was: seq<Slot>, updates: seq<Slot>)
    ensures Names(PutAll(was, updates)) == Names(was) + Dedup(Lacking(Names(updates), Names(was)))
  {
    if updates == [] {
      assert Names(was) + [] == Names(was) && Names(updates) == [];
    } else {
      hide Dedup, Lacking, Names;
      var front, last := updates[..|updates| - 1], updates[|updates| - 1];
      NamesAfter(was, front);
      NamesGrow(Names(was), Names(front), last.name);
      NamesOfFront(updates);
    }
  }

  lemma DistinctExtension(a: seq<SlotName>, b: seq<SlotName>)
    requires Distinct(a) && Distinct(b) && forall n | n in b :: n !in a
    ensures Distinct(a + b)
  {
    forall i, j | 0 <= i < j < |a + b|
      ensures (a + b)[i] != (a + b)[j]
    {
      if i < |a| <= j {
        assert b[j - |a|] in b && a[i] in a;
      }
    }
  }

  lemma {:induction false} ValuesAfter(was: seq<Slot>, updates: seq<Slot>)
    ensures forall s | s in PutAll(was, updates) :: s in was || s in updates
  {
    if updates != [] {
      ValuesAfter(was, updates[..|updates| - 1]);
    }
  }

  lemma NameOfMember(slots: seq<Slot>, s: Slot)
    requires s in slots
    ensures s.name in Names(slots)
  {
    var i :| 0 <= i < |slots| && slots[i] == s;
    assert Names(slots)[i] == s.name;
  }

  lemma UpdatedNames(was: seq<Slot>, updates: seq<Slot>)
    requires Distinct(Names(was))
    ensures Names(was) <= Names(PutAll(was, updates)) && Distinct(Names(PutAll(was, updates)))
  {
    hide PutAll, Lacking, Dedup, Names;
    NamesAfter(was, updates);
    DistinctExtension(Names(was), Dedup(Lacking(Names(updates), Names(was))));
  }

  lemma UpdatedAreAccepted(was: seq<Slot>, now: seq<Slot>, updates: seq<Slot>)
    requires Distinct(Names(was)) && Names(was) <= Names(now) && forall s | s in now :: s in was || s in updates
    requires forall u | u in updates :: Admissible(u, was)
    ensures AcceptsSlots(was, now)
  {
    hide Distinct, Names, ValidSlot;
    forall o | o in was
      ensures o.name in Names(now) && o.name in Names(was)
    {
      NameOfMember(was, o);
    }
    forall o, n | o in was && n in now && o.name == n.name && n != o
      ensures n.origin in REVISION_ORIGINS
    {
      if n in was {
        SameNameSameSlot(was, o, n);
      }
    }
  }

  /** Admissible updates give slots that are valid, and that the store accepts. */
  lemma AdmissibleUpdatesAreAccepted(was: seq<Slot>, updates: seq<Slot>)
    requires Distinct(Names(was)) && forall s | s in was :: ValidSlot(s) && s.value.Some?
    requires forall u | u in updates :: Admissible(u, was)
    ensures var now := PutAll(was, updates);
      && Names(was) <= Names(now) && Distinct(Names(now))
      && (forall s | s in now :: ValidSlot(s) && s.value.Some?)
      && AcceptsSlots(was, now)
  {
    hide PutAll, Names, Distinct, AcceptsSlots, ValidSlot;
    UpdatedNames(was, updates);
    ValuesAfter(was, updates);
    UpdatedAreAccepted(was, PutAll(was, updates), updates);
  }

  lemma SameNameSameSlot(slots: seq<Slot>, a: Slot, b: Slot)
    requires Distinct(Names(slots)) && a in slots && b in slots && a.name == b.name
    ensures a == b
  {
    var i :| 0 <= i < |slots| && slots[i] == a;
    var j :| 0 <= j < |slots| && slots[j] == b;
    assert Names(slots)[i] == Names(slots)[j];
  }

  lemma DateUpdatesAreKnown(slots: seq<Slot>, dates: DateResolver)
    ensures forall u | u in DateUpdates(slots, dates) :: ValidSlot(u) && u.value.Some? && u.origin == TemporalNormalized
    ensures forall n | n in Names(DateUpdates(slots, dates)) :: n in Names(slots)
  {
    var s := SlotNamed(slots, "date");
    if s.Some? {
      var i :| 0 <= i < |slots| && slots[i] == s.value;
      assert Names(slots)[i] == "date";
    }
  }

  // ---------------------------------------------------------------- one patch

  /** Candidates picked from those of a frame. */
  predicate PickedFrom(chosen: seq<Candidate>, all: seq<Candidate>) {
    chosen != [] && |chosen| <= |all| && Distinct(Operations(chosen)) && forall c | c in chosen :: c in all
  }

  /** A coherent frame, narrowed to some candidates that are told of accepted slots. */
  function Retold(was: Frame, chosen: seq<Candidate>, slots: seq<Slot>, referents: seq<Referent>,
    required: Required): Frame
  {
    Assemble(was.utterance, Informed(chosen, slots, required), slots, referents)
  }

  lemma RetoldCandidate(o: Candidate, was: seq<Slot>, slots: seq<Slot>, required: Required)
    requires ValidCandidate(o) && WellInformed(o, was, required)
    requires Names(was) <= Names(slots) && Distinct(Names(slots)) && |slots| <= 16
    ensures var c := o.(slotNames := Names(slots), missing := Lacking(required(o.operation), Names(slots)));
      ValidCandidate(c) && WellInformed(c, slots, required) && Narrows(o, c, slots)
  {
    LackingTwice(required(o.operation), Names(was), Names(slots), Names(slots));
  }

  lemma RetoldCandidates(was: Frame, chosen: seq<Candidate>, slots: seq<Slot>, required: Required)
    requires Coherent(was, required) && PickedFrom(chosen, was.candidates)
    requires Names(was.slots) <= Names(slots) && Distinct(Names(slots)) && |slots| <= 16
    ensures var now := Informed(chosen, slots, required);
      && (forall c | c in now :: ValidCandidate(c) && WellInformed(c, slots, required))
      && AcceptsCandidates(was.candidates, now, slots)
      && Operations(now) == Operations(chosen)
  {
    var now := Informed(chosen, slots, required);
    forall c | c in now
      ensures ValidCandidate(c) && WellInformed(c, slots, required)
      ensures exists o :: o in was.candidates && Narrows(o, c, slots)
    {
      var i :| 0 <= i < |now| && now[i] == c;
      assert chosen[i] in was.candidates;
      RetoldCandidate(chosen[i], was.slots, slots, required);
    }
  }

  lemma RetoldMissesLess(was: Frame, now: seq<Candidate>, slots: seq<Slot>)
    requires AcceptsCandidates(was.candidates, now, slots) && was.missing == Dedup(AllMissing(was.candidates))
    ensures |Dedup(AllMissing(now))| <= |was.missing|
  {
    forall n | n in AllMissing(now)
      ensures n in AllMissing(was.candidates)
    {
      var c :| c in now && n in c.missing;
      var o :| o in was.candidates && Narrows(o, c, slots);
    }
    DistinctSubset(Dedup(AllMissing(now)), was.missing);
  }

  lemma AssembledStates(utterance: string, candidates: seq<Candidate>, slots: seq<Slot>, referents: seq<Referent>)
    requires candidates != []
    ensures var f := Assemble(utterance, candidates, slots, referents);
      && f.state in {Resolved, ClarificationRequired}
      && (f.state == Resolved <==> |candidates| == 1 && f.missing == [] && !HasUnresolved(referents))
      && (f.state == ClarificationRequired ==> f.ambiguity != Unambiguous)
      && (f.state == Resolved ==> f.ambiguity == Unambiguous)
  {
  }

  lemma PatchIsCoherent(
    was: Frame, chosen: seq<Candidate>, slots: seq<Slot>, referents: seq<Referent>, required: Required)
    requires Coherent(was, required) && PickedFrom(chosen, was.candidates)
    requires Names(was.slots) <= Names(slots) && Distinct(Names(slots)) && |slots| <= 16
    requires (forall s | s in slots :: ValidSlot(s) && s.value.Some?) && AcceptsSlots(was.slots, slots)
    requires |referents| <= 8 && (forall r | r in referents :: ValidReferent(r)) && Distinct(Expressions(referents))
    requires AcceptsReferents(was.referents, referents)
    ensures var now := Retold(was, chosen, slots, referents, required);
      Coherent(now, required) && AcceptsPatch(was, now)
  {
    hide AcceptsSlots, AcceptsCandidates, AcceptsReferents, ValidCandidate, WellInformed;
    hide HasUnresolved, ValidReferent, ValidSlot, Distinct;
    hide Dedup, AllMissing;
    var candidates := Informed(chosen, slots, required);
    RetoldCandidates(was, chosen, slots, required);
    RetoldMissesLess(was, candidates, slots);
    AssembledStates(was.utterance, candidates, slots, referents);
  }

  // ---------------------------------------------------------------- slots after a turn

  lemma {:induction false} LackingAll(a: seq<SlotName>, known: seq<SlotName>)
    requires forall n | n in a :: n in known
    ensures Lacking(a, known) == []
  {
    if a != [] {
      LackingAll(a[..|a| - 1], known);
    }
  }

  lemma {:induction false} LackingKnownPrefix(a: seq<SlotName>, b: seq<SlotName>, known: seq<SlotName>)
    requires forall n | n in a :: n in known
    ensures Lacking(a + b, known) == Lacking(b, known)
  {
    if b == [] {
      assert a + b == a;
      LackingAll(a, known);
    } else {
      LackingKnownPrefix(a, b[..|b| - 1], known);
      assert (a + b)[..|a + b| - 1] == a + b[..|b| - 1];
    }
  }

  /** The slots after the date is normalized and `updates` are put. */
  function SlotsAfter(f: Frame, updates: seq<Slot>, dates: DateResolver): seq<Slot> {
    PutAll(f.slots, DateUpdates(f.slots, dates) + updates)
  }

  lemma NamesAfterTurn(f: Frame, updates: seq<Slot>, dates: DateResolver)
    requires Distinct(Names(updates))
    ensures Names(SlotsAfter(f, updates, dates)) == Names(f.slots) + Lacking(Names(updates), Names(f.slots))
  {
    hide Lacking, Dedup, PutAll, DateUpdates;
    var d := DateUpdates(f.slots, dates);
    NamesAfter(f.slots, d + updates);
    DateUpdatesAreKnown(f.slots, dates);
    assert Names(d + updates) == Names(d) + Names(updates);
    LackingKnownPrefix(Names(d), Names(updates), Names(f.slots));
    DistinctDedup(Lacking(Names(updates), Names(f.slots)));
  }

  lemma TurnSlotsAreAccepted(f: Frame, updates: seq<Slot>, dates: DateResolver, required: Required)
    requires Coherent(f, required)
    requires forall u | u in updates :: Admissible(u, f.slots)
    ensures var now := SlotsAfter(f, updates, dates);
      && Names(f.slots) <= Names(now) && Distinct(Names(now))
      && (forall s | s in now :: ValidSlot(s) && s.value.Some?)
      && AcceptsSlots(f.slots, now)
  {
    DateUpdatesAreKnown(f.slots, dates);
    AdmissibleUpdatesAreAccepted(f.slots, DateUpdates(f.slots, dates) + updates);
  }

  lemma {:induction false} PutUnder(slots: seq<Slot>, s: Slot, n: SlotName)
    ensures SlotNamed(Put(slots, s), n) == if s.name == n then Some(s) else SlotNamed(slots, n)
  {
    if slots != [] && slots[0].name != s.name {
      PutUnder(slots[1..], s, n);
      assert ([slots[0]] + Put(slots[1..], s))[1..] == Put(slots[1..], s);
    } else if slots != [] {
      assert ([s] + slots[1..])[1..] == slots[1..];
    }
  }

  /** Slot updates change exactly the updated names. */
  lemma {:induction false} UpdatesUnder(was: seq<Slot>, updates: seq<Slot>, n: SlotName)
    ensures var now := SlotNamed(PutAll(was, updates), n);
      if n in Names(updates) then now.Some? && now.value in updates else now == SlotNamed(was, n)
  {
    if updates != [] {
      UpdatesUnder(was, updates[..|updates| - 1], n);
      PutUnder(PutAll(was, updates[..|updates| - 1]), updates[|updates| - 1], n);
      NamesOfFront(updates);
    }
  }

  lemma PutAllLast(was: seq<Slot>, updates: seq<Slot>)
    requires updates != []
    ensures PutAll(was, updates) == Put(PutAll(was, updates[..|updates| - 1]), updates[|updates| - 1])
  {
  }

  lemma {:induction false} PutAllOfSum(was: seq<Slot>, first: seq<Slot>, second: seq<Slot>)
    ensures PutAll(was, first + second) == PutAll(PutAll(was, first), second)
    decreases |second|
  {
    if second == [] {
      assert first + second == first;
    } else {
      hide Put, PutAll;
      var all := first + second;
      PutAllLast(was, all);
      PutAllLast(PutAll(was, first), second);
      assert all[..|all| - 1] == first + second[..|second| - 1] && all[|all| - 1] == second[|second| - 1];
      PutAllOfSum(was, first, second[..|second| - 1]);
    }
  }

  /** After a turn every slot has its updated value, the calendar's reading of its date, or the value it had. */
  lemma TurnSlotsAre(f: Frame, updates: seq<Slot>, dates: DateResolver, n: SlotName)
    ensures var now := SlotNamed(SlotsAfter(f, updates, dates), n);
      if n in Names(updates) then now.Some? && now.value in updates
      else if n == "date" && ReadDate(f.slots, dates).Some? then
        now == Some(Slot("date", Some(ReadDate(f.slots, dates).value), TemporalNormalized))
      else now == SlotNamed(f.slots, n)
  {
    var d := DateUpdates(f.slots, dates);
    PutAllOfSum(f.slots, d, updates);
    UpdatesUnder(PutAll(f.slots, d), updates, n);
    UpdatesUnder(f.slots, d, n);
    if d != [] {
      assert Names(d) == ["date"];
    }
  }

  lemma AtMostSixteen(f: Frame, required: Required)
    requires Coherent(f, required)
    ensures |f.slots| <= 16
  {
    assert f.candidates[0] in f.candidates;
  }

  lemma SameReferentsAreAccepted(referents: seq<Referent>)
    requires forall r | r in referents :: ValidReferent(r)
    ensures AcceptsReferents(referents, referents)
  {
  }

  lemma AllArePicked(f: Frame, required: Required)
    requires Coherent(f, required)
    ensures PickedFrom(f.candidates, f.candidates) && Informed(f.candidates, f.slots, required) == f.candidates
  {
    forall i | 0 <= i < |f.candidates|
      ensures Informed(f.candidates, f.slots, required)[i] == f.candidates[i]
    {
      assert WellInformed(f.candidates[i], f.slots, required);
    }
  }

  lemma {:induction false} SelectedIsTheOne(candidates: seq<Candidate>, op: OperationId)
    requires op in Operations(candidates)
    ensures exists c :: c in candidates && c.operation == op && Selected(candidates, op) == [c]
  {
    if candidates[0].operation != op {
      assert Operations(candidates) == [candidates[0].operation] + Operations(candidates[1..]);
      SelectedIsTheOne(candidates[1..], op);
    }
  }

  lemma SelectedIsPicked(f: Frame, op: OperationId, required: Required)
    requires Coherent(f, required) && op in Operations(f.candidates)
    ensures PickedFrom(Selected(f.candidates, op), f.candidates) && |Selected(f.candidates, op)| == 1
    ensures Informed(Selected(f.candidates, op), f.slots, required) == Selected(f.candidates, op)
  {
    SelectedIsTheOne(f.candidates, op);
    var chosen := Selected(f.candidates, op);
    assert chosen[0] in f.candidates && WellInformed(chosen[0], f.slots, required);
  }

  // ---------------------------------------------------------------- what each turn may patch

  /** Room for the names that updates would add. */
  predicate HasRoom(f: Frame, names: seq<SlotName>) {
    |f.slots| + |Lacking(names, Names(f.slots))| <= 16
  }

  lemma ChoiceCloses(f: Frame, q: Question, op: OperationId, home: Home)
    requires Coherent(f, home.required) && op in Operations(f.candidates)
    ensures var now := Patched(f, q, Choose(op), home.dates, home.required);
      Coherent(now, home.required) && AcceptsPatch(f, now)
  {
    hide Coherent, AcceptsPatch, AcceptsSlots, AcceptsReferents, ValidReferent, PickedFrom;
    var slots := SlotsAfter(f, [], home.dates);
    assert DateUpdates(f.slots, home.dates) + [] == DateUpdates(f.slots, home.dates);
    TurnSlotsAreAccepted(f, [], home.dates, home.required);
    NamesAfterTurn(f, [], home.dates);
    assert Names(slots) == Names(f.slots);
    SelectedIsPicked(f, op, home.required);
    CoherentReferents(f, home.required);
    AtMostSixteen(f, home.required);
    assert |Names(slots)| == |slots|;
    PatchIsCoherent(f, Selected(f.candidates, op), slots, f.referents, home.required);
    assert Informed(Selected(f.candidates, op), slots, home.required)
      == Informed(Selected(f.candidates, op), f.slots, home.required);
  }

  lemma CoherentReferents(f: Frame, required: Required)
    requires Coherent(f, required)
    ensures |f.referents| <= 8
    ensures (forall r | r in f.referents :: ValidReferent(r)) && Distinct(Expressions(f.referents))
    ensures AcceptsReferents(f.referents, f.referents)
  {
    SameReferentsAreAccepted(f.referents);
  }

  lemma NamesAfterSupply(f: Frame, s: Slot, dates: DateResolver)
    requires Distinct(Names(f.slots))
    ensures var known, after := Names(f.slots), Names(SlotsAfter(f, [s], dates));
      && Dedup(known + [s.name]) == after && (forall n :: n in after <==> n in known || n in [s.name])
      && |after| == |f.slots| + |Lacking([s.name], known)|
  {
    hide SlotsAfter, Distinct;
    var known := Names(f.slots);
    assert Names([s]) == [s.name] && Distinct([s.name]) by { SingleIsDistinct(s.name); }
    NamesAfterTurn(f, [s], dates);
    DistinctDedup(known);
    assert (known + [s.name])[..|known + [s.name]| - 1] == known;
    assert [s.name][..0] == [];
    assert known + [] == known;
  }

  lemma SingleIsDistinct(n: SlotName)
    ensures Distinct([n])
  {
  }

  lemma TaughtIsInformed(f: Frame, s: Slot, home: Home)
    requires Coherent(f, home.required)
    ensures TeachAll(f.candidates, s.name) == Informed(f.candidates, SlotsAfter(f, [s], home.dates), home.required)
    ensures forall c | c in TeachAll(f.candidates, s.name) ::
      |c.slotNames| == |f.slots| + |Lacking([s.name], Names(f.slots))|
  {
    NamesAfterSupply(f, s, home.dates);
    hide Dedup, Lacking, Names, SlotsAfter, Distinct, ValidFrame;
    var known, after := Names(f.slots), Names(SlotsAfter(f, [s], home.dates));
    forall i | 0 <= i < |f.candidates|
      ensures TeachAll(f.candidates, s.name)[i]
        == Informed(f.candidates, SlotsAfter(f, [s], home.dates), home.required)[i]
    {
      var c := f.candidates[i];
      assert c in f.candidates && WellInformed(c, f.slots, home.required);
      LackingTwice(home.required(c.operation), known, [s.name], after);
    }
  }

  lemma NamesLength(slots: seq<Slot>)
    ensures |Names(slots)| == |slots|
  {
  }

  lemma SupplyCloses(f: Frame, q: Question, s: Slot, home: Home)
    requires Coherent(f, home.required) && Admissible(s, f.slots) && HasRoom(f, [s.name])
    ensures var now := Patched(f, q, Supply(s), home.dates, home.required);
      Coherent(now, home.required) && AcceptsPatch(f, now)
  {
    hide Coherent, AcceptsPatch, AcceptsSlots, AcceptsReferents, ValidReferent, ValidSlot, PickedFrom, Admissible;
    hide Lacking, Dedup, Names, TeachAll, Informed, PutAll, Distinct;
    var slots := SlotsAfter(f, [s], home.dates);
    TurnSlotsAreAccepted(f, [s], home.dates, home.required);
    CoherentNames(f, home.required);
    NamesAfterSupply(f, s, home.dates);
    NamesLength(slots);
    AllArePicked(f, home.required);
    CoherentReferents(f, home.required);
    PatchIsCoherent(f, f.candidates, slots, f.referents, home.required);
    TaughtIsInformed(f, s, home);
  }

  lemma CoherentNames(f: Frame, required: Required)
    requires Coherent(f, required)
    ensures Distinct(Names(f.slots))
  {
  }

  lemma SameNumberTaught(f: Frame, n: SlotName, required: Required)
    requires Coherent(f, required)
    ensures |TeachAll(f.candidates, n)| == |f.candidates| > 0
  {
  }

  lemma CrowdedSupplyIsRefused(f: Frame, q: Question, s: Slot, home: Home)
    requires Coherent(f, home.required) && !HasRoom(f, [s.name])
    ensures !ValidFrame(Patched(f, q, Supply(s), home.dates, home.required))
  {
    hide Lacking, Dedup, Names, TeachAll, Coherent, PutAll, Distinct, AllMissing, AmbiguityOf;
    TaughtIsInformed(f, s, home);
    SameNumberTaught(f, s.name, home.required);
    var c := TeachAll(f.candidates, s.name)[0];
    assert c in TeachAll(f.candidates, s.name) && !ValidCandidate(c);
  }

  /** The candidates that a merge keeps. */
  function Kept(f: Frame, selected: Option<OperationId>): seq<Candidate> {
    if selected.Some? then Selected(f.candidates, selected.value) else f.candidates
  }

  lemma KeptIsPicked(f: Frame, selected: Option<OperationId>, required: Required)
    requires Coherent(f, required) && (selected.Some? ==> selected.value in Operations(f.candidates))
    ensures PickedFrom(Kept(f, selected), f.candidates)
  {
    if selected.Some? {
      SelectedIsPicked(f, selected.value, required);
    } else {
      AllArePicked(f, required);
    }
  }

  lemma GroundedAreAdmissible(updates: seq<Slot>, was: seq<Slot>)
    requires forall s | s in updates :: Grounded(s)
    ensures forall s | s in updates :: Admissible(s, was)
  {
  }

  lemma MergedSlotsAreAccepted(f: Frame, updates: seq<Slot>, home: Home)
    requires Coherent(f, home.required)
    requires Distinct(Names(updates)) && (forall s | s in updates :: Grounded(s)) && HasRoom(f, Names(updates))
    ensures var now := SlotsAfter(f, updates, home.dates);
      && Names(f.slots) <= Names(now) && Distinct(Names(now)) && |now| <= 16
      && (forall s | s in now :: ValidSlot(s) && s.value.Some?)
      && AcceptsSlots(f.slots, now)
  {
    hide Coherent, AcceptsSlots, Lacking, Grounded, Admissible, SlotsAfter, ValidSlot, Distinct;
    GroundedAreAdmissible(updates, f.slots);
    TurnSlotsAreAccepted(f, updates, home.dates, home.required);
    NamesAfterTurn(f, updates, home.dates);
    assert |Names(SlotsAfter(f, updates, home.dates))| == |SlotsAfter(f, updates, home.dates)|;
  }

  /** A merge without referents retells the frame. */
  lemma MergeRetells(f: Frame, q: Question, selected: Option<OperationId>, updates: seq<Slot>, home: Home)
    ensures Patched(f, q, Merge(selected, updates, []), home.dates, home.required)
            == Retold(f, Kept(f, selected), SlotsAfter(f, updates, home.dates), f.referents, home.required)
  {
    hide Assemble, Informed, PutAll, Selected, DateUpdates;
  }

  lemma MergeCloses(f: Frame, q: Question, selected: Option<OperationId>, updates: seq<Slot>, home: Home)
    requires Coherent(f, home.required) && (selected.Some? ==> selected.value in Operations(f.candidates))
    requires Distinct(Names(updates)) && (forall s | s in updates :: Grounded(s)) && HasRoom(f, Names(updates))
    ensures var now := Patched(f, q, Merge(selected, updates, []), home.dates, home.required);
      Coherent(now, home.required) && AcceptsPatch(f, now)
  {
    hide Coherent, AcceptsPatch, AcceptsSlots, AcceptsReferents, ValidReferent, PickedFrom, Grounded, HasRoom;
    hide ValidSlot, Names, Distinct, Expressions, SlotsAfter, Kept, Patched, Retold, Operations;
    MergedSlotsAreAccepted(f, updates, home);
    KeptIsPicked(f, selected, home.required);
    CoherentReferents(f, home.required);
    PatchIsCoherent(f, Kept(f, selected), SlotsAfter(f, updates, home.dates), f.referents, home.required);
    MergeRetells(f, q, selected, updates, home);
  }

  lemma CrowdedMergeIsRefused(
    f: Frame, q: Question, selected: Option<OperationId>, updates: seq<Slot>, referents: seq<Referent>, home: Home)
    requires Coherent(f, home.required) && (selected.Some? ==> selected.value in Operations(f.candidates))
    requires Distinct(Names(updates)) && !HasRoom(f, Names(updates))
    ensures !ValidFrame(Patched(f, q, Merge(selected, updates, referents), home.dates, home.required))
  {
    hide Lacking, Coherent, Names, Distinct, Selected, PutAll, PutReferents, AllMissing, Dedup;
    var slots := SlotsAfter(f, updates, home.dates);
    NamesAfterTurn(f, updates, home.dates);
    NamesLength(f.slots);
    KeptIsPicked(f, selected, home.required);
    var c := Informed(Kept(f, selected), slots, home.required)[0];
    assert c in Informed(Kept(f, selected), slots, home.required) && !ValidCandidate(c);
  }

  lemma {:induction false} ByExpressionFinds(referents: seq<Referent>, x: Referent)
    requires Distinct(Expressions(referents)) && x in referents
    ensures x.expression in ByExpression(referents) && ByExpression(referents)[x.expression] == x
  {
    var front, last := referents[..|referents| - 1], referents[|referents| - 1];
    assert Expressions(referents) == Expressions(front) + [last.expression];
    assert forall i | 0 <= i < |front| :: Expressions(referents)[i] == Expressions(front)[i];
    if x != last {
      ByExpressionFinds(front, x);
      var i :| 0 <= i < |front| && front[i] == x;
      assert Expressions(referents)[i] == x.expression && Expressions(referents)[|front|] == last.expression;
    }
  }

  lemma {:induction false} PutReferentsStayDistinct(referents: seq<Referent>, updates: seq<Referent>)
    requires Distinct(Expressions(referents))
    ensures Distinct(Expressions(PutReferents(referents, updates)))
  {
    if updates != [] {
      PutReferentsStayDistinct(referents, updates[..|updates| - 1]);
    }
  }

  /** The semantic path answers a referent without the explicit origin that the store demands. */
  lemma SemanticReferentIsRefused(was: seq<Referent>, updates: seq<Referent>)
    requires Distinct(Expressions(was)) && updates != []
    requires forall x | x in updates ::
      x.origin == FollowUpSemantic && ValidReferent(x) && x.expression in OpenExpressions(was)
    ensures !AcceptsReferents(was, PutReferents(was, updates))
  {
    var x := updates[|updates| - 1];
    PutReferentsStayDistinct(was, updates);
    ByExpressionFinds(PutReferents(was, updates), x);
    var before, after := ByExpression(was), ByExpression(PutReferents(was, updates));
    assert x.expression in before && before[x.expression].value.None? && after[x.expression] == x;
  }

  /** Every unresolved referent is the one that was asked about. */
  predicate OnlyAsked(f: Frame, asked: string) {
    forall r | r in f.referents :: r.origin == Unresolved ==> r.expression == asked
  }

  /** A patch of each referent in its place that keeps the known ones and answers the others explicitly. */
  predicate AnsweredBy(o: Referent, n: Referent) {
    && n.expression == o.expression
    && if o.value.Some? then n == o else n.value.Some? ==> n.origin == Explicit
  }

  lemma PointwiseIsAccepted(was: seq<Referent>, now: seq<Referent>)
    requires |was| == |now| && Distinct(Expressions(was)) && forall i | 0 <= i < |was| :: AnsweredBy(was[i], now[i])
    ensures Expressions(now) == Expressions(was) && AcceptsReferents(was, now)
  {
    assert Expressions(now) == Expressions(was);
    var before, after := ByExpression(was), ByExpression(now);
    forall e | e in before
      ensures e in after && AnsweredBy(before[e], after[e])
    {
      var i :| 0 <= i < |was| && Expressions(was)[i] == e;
      ByExpressionFinds(was, was[i]);
      ByExpressionFinds(now, now[i]);
    }
  }

  lemma ExplainedReferents(f: Frame, asked: string, material: string, required: Required)
    requires Coherent(f, required) && OnlyAsked(f, asked) && asked != "" && material != ""
    ensures var now := ExplainAll(f.referents, Referent(asked, Some(material), Explicit));
      && (forall r | r in now :: ValidReferent(r)) && Distinct(Expressions(now))
      && AcceptsReferents(f.referents, now) && !HasUnresolved(now)
  {
    hide AcceptsReferents, Distinct;
    var now := ExplainAll(f.referents, Referent(asked, Some(material), Explicit));
    forall i | 0 <= i < |now|
      ensures ValidReferent(now[i]) && AnsweredBy(f.referents[i], now[i]) && now[i].origin != Unresolved
    {
      assert f.referents[i] in f.referents;
    }
    PointwiseIsAccepted(f.referents, now);
  }

  lemma ExplanationAnswersEach(f: Frame, asked: string, material: string)
    requires OnlyAsked(f, asked)
    ensures forall r | r in f.referents && r.origin == Unresolved ::
      Referent(r.expression, Some(material), Explicit)
        in ExplainAll(f.referents, Referent(asked, Some(material), Explicit))
  {
    var now := ExplainAll(f.referents, Referent(asked, Some(material), Explicit));
    forall r | r in f.referents && r.origin == Unresolved
      ensures Referent(r.expression, Some(material), Explicit) in now
    {
      var i :| 0 <= i < |f.referents| && f.referents[i] == r;
      assert now[i] in now;
    }
  }

  lemma ExplanationCloses(f: Frame, q: Question, material: string, home: Home)
    requires Coherent(f, home.required) && q.referentExpression.Some? && q.referentExpression.value != ""
    requires material != ""
    requires OnlyAsked(f, q.referentExpression.value)
    ensures var now := Patched(f, q, Explain(material), home.dates, home.required);
      && Coherent(now, home.required) && AcceptsPatch(f, now)
      && (now.state == Resolved <==> |f.candidates| == 1 && f.missing == [])
      && !HasUnresolved(now.referents)
      && forall r | r in f.referents && r.origin == Unresolved ::
           Referent(r.expression, Some(material), Explicit) in now.referents
  {
    ExplanationAnswersEach(f, q.referentExpression.value, material);
    hide Coherent, AcceptsPatch, AcceptsReferents, ValidReferent, PickedFrom, OnlyAsked, HasUnresolved, Distinct;
    ExplainedReferents(f, q.referentExpression.value, material, home.required);
    var referents := ExplainAll(f.referents, Referent(q.referentExpression.value, Some(material), Explicit));
    AllArePicked(f, home.required);
    KnownSlotsAreAccepted(f, home.required);
    PatchIsCoherent(f, f.candidates, f.slots, referents, home.required);
    AssembledStates(f.utterance, f.candidates, f.slots, referents);
    MissingIsTallied(f, home.required);
  }

  lemma MissingIsTallied(f: Frame, required: Required)
    requires Coherent(f, required)
    ensures f.missing == Dedup(AllMissing(f.candidates)) && f.candidates != []
  {
  }

  lemma KnownSlotsAreAccepted(f: Frame, required: Required)
    requires Coherent(f, required)
    ensures |f.slots| <= 16 && Distinct(Names(f.slots)) && |f.referents| <= 8
    ensures (forall s | s in f.slots :: ValidSlot(s) && s.value.Some?) && AcceptsSlots(f.slots, f.slots)
  {
    AdmissibleUpdatesAreAccepted(f.slots, []);
    AtMostSixteen(f, required);
  }

  /** Answering one of several unresolved referents overwrites the others, which the store refuses. */
  lemma OverwritingIsRefused(f: Frame, asked: string, material: string, required: Required)
    requires Coherent(f, required) && !OnlyAsked(f, asked)
    ensures !AcceptsReferents(f.referents, ExplainAll(f.referents, Referent(asked, Some(material), Explicit)))
  {
    var now := ExplainAll(f.referents, Referent(asked, Some(material), Explicit));
    var k :| 0 <= k < |f.referents| && f.referents[k].origin == Unresolved && f.referents[k].expression != asked;
    var e := f.referents[k].expression;
    assert Expressions(f.referents)[k] == e;
    forall i | 0 <= i < |now|
      ensures Expressions(now)[i] != e
    {
      assert Expressions(f.referents)[i] == f.referents[i].expression;
    }
    assert e in ByExpression(f.referents) && e !in ByExpression(now);
  }
}
