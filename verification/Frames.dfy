/** Interpretation frames, their validators, and the shape that discovery gives them. */
module Frames {
  import opened Common

  type OperationId = string
  type SlotName = string

  datatype Origin = Explicit | Deterministic | Semantic | FollowUpSemantic | TemporalNormalized | Unresolved

  datatype Slot = Slot(name: SlotName, value: Option<string>, origin: Origin)

  datatype Referent = Referent(expression: string, value: Option<string>, origin: Origin)

  datatype Candidate = Candidate(
    operation: OperationId, evidence: seq<string>, slotNames: seq<SlotName>, missing: seq<SlotName>)

  datatype Ambiguity = Unambiguous | CapabilityAmbiguity | SlotAmbiguity | ReferentAmbiguity | ProviderScopeAmbiguity

  datatype ResolutionState = Resolved | ClarificationRequired | OrdinaryConversation | UnsupportedAction

  datatype Frame = Frame(
    utterance: string,
    goal: Option<OperationId>,
    candidates: seq<Candidate>,
    slots: seq<Slot>,
    missing: seq<SlotName>,
    referents: seq<Referent>,
    ambiguity: Ambiguity,
    state: ResolutionState)

  // ---------------------------------------------------------------- sequences of names

  predicate Distinct<T(==)>(s: seq<T>) {
    forall i, j | 0 <= i < j < |s| :: s[i] != s[j]
  }

  function Names(slots: seq<Slot>): seq<SlotName> {
    seq(|slots|, i requires 0 <= i < |slots| => slots[i].name)
  }

  function Operations(candidates: seq<Candidate>): seq<OperationId> {
    seq(|candidates|, i requires 0 <= i < |candidates| => candidates[i].operation)
  }

  function Expressions(referents: seq<Referent>): seq<string> {
    seq(|referents|, i requires 0 <= i < |referents| => referents[i].expression)
  }

  /** The distinct elements in order of first occurrence. */
  function Dedup(s: seq<SlotName>): (r: seq<SlotName>)
    ensures Distinct(r)
    ensures forall x :: x in r <==> x in s
  {
    if s == [] then []
    else
      var front := Dedup(s[..|s| - 1]);
      var last := s[|s| - 1];
      assert s == s[..|s| - 1] + [last];
      if last in front then front else front + [last]
  }

  /** The names of `s` that are not in `known`, in order. */
  function Lacking(s: seq<SlotName>, known: seq<SlotName>): (r: seq<SlotName>)
    ensures forall x :: x in r <==> x in s && x !in known
    ensures Distinct(s) ==> Distinct(r)
    ensures |r| <= |s| && ((exists x :: x in s && x in known) ==> |r| < |s|)
  {
    if s == [] then []
    else
      var front := Lacking(s[..|s| - 1], known);
      var last := s[|s| - 1];
      assert s == s[..|s| - 1] + [last];
      if last in known then front else front + [last]
  }

  function AllMissing(candidates: seq<Candidate>): (r: seq<SlotName>)
    ensures forall x :: x in r <==> exists c :: c in candidates && x in c.missing
  {
    if candidates == [] then []
    else
      var front := AllMissing(candidates[..|candidates| - 1]);
      var last := candidates[|candidates| - 1];
      assert candidates == candidates[..|candidates| - 1] + [last];
      front + last.missing
  }

  // ---------------------------------------------------------------- validators

  predicate ValidSlot(s: Slot) {
    if s.origin == Unresolved then s.value.None? else s.value.Some? && s.value.value != ""
  }

  predicate ValidReferent(r: Referent) {
    && r.expression != ""
    && if r.origin == Unresolved then r.value.None? else r.value.Some? && r.value.value != ""
  }

  predicate ValidCandidate(c: Candidate) {
    && 1 <= |c.evidence| <= 8
    && |c.slotNames| <= 16 && |c.missing| <= 16
    && Distinct(c.slotNames) && Distinct(c.missing)
  }

  predicate HasUnresolved(referents: seq<Referent>) {
    exists i :: 0 <= i < |referents| && referents[i].origin == Unresolved
  }

  predicate ValidFrame(f: Frame) {
    && f.utterance != ""
    && |f.candidates| <= 8 && |f.slots| <= 24 && |f.missing| <= 24 && |f.referents| <= 8
    && (forall c | c in f.candidates :: ValidCandidate(c))
    && (forall s | s in f.slots :: ValidSlot(s))
    && (forall r | r in f.referents :: ValidReferent(r))
    && Distinct(Operations(f.candidates)) && Distinct(Names(f.slots)) && Distinct(f.missing)
    && (f.state in {OrdinaryConversation, UnsupportedAction} ==>
          f.candidates == [] && f.slots == [] && f.missing == [] && f.referents == [] && f.ambiguity == Unambiguous)
    && (f.state == Resolved ==>
          |f.candidates| == 1 && f.missing == [] && f.ambiguity == Unambiguous && !HasUnresolved(f.referents))
    && (f.state == ClarificationRequired ==> f.candidates != [] && f.ambiguity != Unambiguous)
  }

  // ---------------------------------------------------------------- discovery

  function AmbiguityOf(candidates: seq<Candidate>, referents: seq<Referent>, missing: seq<SlotName>): Ambiguity {
    if |candidates| > 1 then CapabilityAmbiguity
    else if HasUnresolved(referents) then ReferentAmbiguity
    else if missing != [] then SlotAmbiguity
    else Unambiguous
  }

  /** The frame that candidates, slots and referents determine. */
  function Assemble(utterance: string, candidates: seq<Candidate>, slots: seq<Slot>, referents: seq<Referent>): Frame {
    var missing := Dedup(AllMissing(candidates));
    var ambiguity := AmbiguityOf(candidates, referents, missing);
    Frame(utterance,
          if |candidates| == 1 then Some(candidates[0].operation) else None,
          candidates, slots, missing, referents, ambiguity,
          if ambiguity == Unambiguous then Resolved else ClarificationRequired)
  }

  /** Required slots per operation, as the interpretation specifications list them. */
  type Required = OperationId -> seq<SlotName>

  predicate SoundRequirements(required: Required, operations: seq<OperationId>) {
    forall op | op in operations :: |required(op)| <= 16 && Distinct(required(op))
  }

  /** The names of the slots that hold a value. */
  function Known(slots: seq<Slot>): seq<SlotName> {
    if slots == [] then []
    else
      var last := slots[|slots| - 1];
      Known(slots[..|slots| - 1]) + if last.value.Some? then [last.name] else []
  }

  function Discovered(op: OperationId, slots: seq<Slot>, signal: string, required: Required): Candidate {
    Candidate(op, [signal], Dedup(Known(slots)), Lacking(required(op), Known(slots)))
  }

  function DiscoverAll(ops: seq<OperationId>, slots: seq<Slot>, signal: string, required: Required): seq<Candidate> {
    seq(|ops|, i requires 0 <= i < |ops| => Discovered(ops[i], slots, signal, required))
  }

  /** The frame of a turn for which these operations, slots and referents were recognized. */
  function Discover(
    utterance: string, ops: seq<OperationId>, slots: seq<Slot>, referents: seq<Referent>, signal: string,
    required: Required): Frame
  {
    if ops == [] then Frame(utterance, None, [], [], [], [], Unambiguous, OrdinaryConversation)
    else Assemble(utterance, DiscoverAll(ops, slots, signal, required), slots, referents)
  }

  /** The frame of a request to read mail: its candidate is made without the slots that the frame keeps. */
  function DiscoverMail(utterance: string, op: OperationId, slots: seq<Slot>, signal: string,
    required: Required): Frame {
    Assemble(utterance, [Discovered(op, [], signal, required)], slots, [])
  }

  // ---------------------------------------------------------------- the shape of a live frame

  /** A candidate knows the frame's slots, and misses exactly what it requires beyond them. */
  predicate WellInformed(c: Candidate, slots: seq<Slot>, required: Required) {
    c.slotNames == Names(slots) && c.missing == Lacking(required(c.operation), Names(slots))
  }

  /** What every frame in a dialogue satisfies, whether it is still open or resolved. */
  predicate Coherent(f: Frame, required: Required) {
    && ValidFrame(f)
    && f.candidates != []
    && f == Assemble(f.utterance, f.candidates, f.slots, f.referents)
    && (forall s | s in f.slots :: s.value.Some?)
    && (forall c | c in f.candidates :: WellInformed(c, f.slots, required))
    && Distinct(Expressions(f.referents))
  }

  lemma {:induction false} DistinctDedup(s: seq<SlotName>)
    requires Distinct(s)
    ensures Dedup(s) == s
  {
    if s != [] {
      DistinctDedup(s[..|s| - 1]);
      assert s == s[..|s| - 1] + [s[|s| - 1]];
    }
  }

  lemma {:induction false} KnownWhenValued(slots: seq<Slot>)
    requires forall s | s in slots :: s.value.Some?
    ensures Known(slots) == Names(slots)
  {
    if slots != [] {
      KnownWhenValued(slots[..|slots| - 1]);
      assert Names(slots) == Names(slots[..|slots| - 1]) + [slots[|slots| - 1].name];
    }
  }

  /** Discovery over distinct slots that all hold a value yields a coherent frame. */
  lemma DiscoverIsCoherent(
    utterance: string, ops: seq<OperationId>, slots: seq<Slot>, referents: seq<Referent>, signal: string,
    required: Required)
    requires utterance != "" && ops != [] && Distinct(ops) && |ops| <= 8
    requires |slots| <= 16 && Distinct(Names(slots)) && forall s | s in slots :: ValidSlot(s) && s.value.Some?
    requires |referents| <= 8 && Distinct(Expressions(referents)) && forall r | r in referents :: ValidReferent(r)
    requires SoundRequirements(required, ops)
    requires |Discover(utterance, ops, slots, referents, signal, required).missing| <= 24
    ensures Coherent(Discover(utterance, ops, slots, referents, signal, required), required)
  {
    var f := Discover(utterance, ops, slots, referents, signal, required);
    hide Dedup, Lacking, AllMissing, Known, Names, Distinct;
    hide HasUnresolved, ValidSlot, ValidReferent, Expressions, Operations;
    hide WellInformed, ValidCandidate;
    DiscoveredOperations(ops, slots, signal, required);
    forall i | 0 <= i < |ops|
      ensures ValidCandidate(f.candidates[i]) && WellInformed(f.candidates[i], slots, required)
    {
      DiscoveredIsWellInformed(ops[i], slots, signal, required);
    }
  }

  lemma DiscoveredOperations(ops: seq<OperationId>, slots: seq<Slot>, signal: string, required: Required)
    ensures Operations(DiscoverAll(ops, slots, signal, required)) == ops
  {
    hide Discovered;
    assert forall i | 0 <= i < |ops| :: Discovered(ops[i], slots, signal, required).operation == ops[i] by {
      DiscoveredNames(slots, signal, required);
    }
  }

  lemma DiscoveredNames(slots: seq<Slot>, signal: string, required: Required)
    ensures forall op :: Discovered(op, slots, signal, required).operation == op
  {
  }

  lemma DiscoveredIsWellInformed(op: OperationId, slots: seq<Slot>, signal: string, required: Required)
    requires |slots| <= 16 && Distinct(Names(slots)) && forall s | s in slots :: s.value.Some?
    requires |required(op)| <= 16 && Distinct(required(op))
    ensures var c := Discovered(op, slots, signal, required); ValidCandidate(c) && WellInformed(c, slots, required)
  {
    KnownWhenValued(slots);
    DistinctDedup(Names(slots));
    hide Dedup, Known, Distinct;
  }

  /** Reading mail requires no slot, so that its frame is valid and resolved, and never asked about. */
  lemma MailIsResolved(utterance: string, op: OperationId, slots: seq<Slot>, signal: string, required: Required)
    requires utterance != "" && required(op) == []
    requires |slots| <= 24 && Distinct(Names(slots)) && forall s | s in slots :: ValidSlot(s)
    ensures var f := DiscoverMail(utterance, op, slots, signal, required);
      ValidFrame(f) && f.state == Resolved && f.goal == Some(op) && f.slots == slots
  {
    var c := Discovered(op, [], signal, required);
    assert [c][..0] == [];
    assert AllMissing([c]) == [] && Dedup([]) == [];
  }
}
