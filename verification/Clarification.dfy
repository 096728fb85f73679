/** The follow-up engine, the question builder, and how a dialogue turn changes a stored record. */
module Clarification {
  import opened Common
  import opened Frames
  import opened PendingRecords

  type Canonical = s: string | s != "" witness "2026-01-01"

  /** The Home calendar: a date expression to its canonical form. */
  type DateResolver = string -> Option<Canonical>

  /** What the language of a turn was found to say. */
  datatype Turn =
    | Withdraw
    | Independent
    | Unclear
    | AmbiguousUnit(amount: string)
    | Choose(operation: OperationId)
    | Supply(slot: Slot)
    | Explain(material: string)
    | Merge(selected: Option<OperationId>, slots: seq<Slot>, referents: seq<Referent>)

  datatype Outcome = Settled | StillOpen | Abandoned | Unrelated

  datatype Reply = Reply(outcome: Outcome, interpretation: Frame, selected: Option<OperationId>,
    question: Option<Question>)

  predicate ValidReply(r: Reply) {
    if r.outcome == Settled then
      && r.interpretation.state == Resolved && |r.interpretation.candidates| == 1
      && r.selected == Some(r.interpretation.candidates[0].operation)
    else
      r.interpretation.state != Resolved
  }

  // ---------------------------------------------------------------- slot and referent dictionaries

  /** Dictionary assignment: a known name keeps its place. */
  function Put(slots: seq<Slot>, s: Slot): (r: seq<Slot>)
    ensures Names(r) == if s.name in Names(slots) then Names(slots) else Names(slots) + [s.name]
    ensures s in r
    ensures forall x | x in r :: x == s || x in slots
  {
    if slots == [] then [s]
    else if slots[0].name == s.name then
      assert Names([s] + slots[1..]) == Names(slots) && Names(slots)[0] == s.name;
      [s] + slots[1..]
    else
      assert Names(slots) == [slots[0].name] + Names(slots[1..]);
      var rest := Put(slots[1..], s);
      assert Names([slots[0]] + rest) == [slots[0].name] + Names(rest);
      [slots[0]] + rest
  }

  function PutAll(slots: seq<Slot>, updates: seq<Slot>): seq<Slot> {
    if updates == [] then slots else Put(PutAll(slots, updates[..|updates| - 1]), updates[|updates| - 1])
  }

  function PutReferent(referents: seq<Referent>, x: Referent): (r: seq<Referent>)
    ensures x in r
    ensures forall y | y in r :: y == x || y in referents
    ensures Expressions(r) == if x.expression in Expressions(referents) then Expressions(referents)
                              else Expressions(referents) + [x.expression]
  {
    if referents == [] then [x]
    else if referents[0].expression == x.expression then
      assert Expressions([x] + referents[1..]) == Expressions(referents) && Expressions(referents)[0] == x.expression;
      [x] + referents[1..]
    else
      assert Expressions(referents) == [referents[0].expression] + Expressions(referents[1..]);
      var rest := PutReferent(referents[1..], x);
      assert Expressions([referents[0]] + rest) == [referents[0].expression] + Expressions(rest);
      [referents[0]] + rest
  }

  function PutReferents(referents: seq<Referent>, updates: seq<Referent>): seq<Referent> {
    if updates == [] then referents
    else PutReferent(PutReferents(referents, updates[..|updates| - 1]), updates[|updates| - 1])
  }

  function SlotNamed(slots: seq<Slot>, n: SlotName): (s: Option<Slot>)
    ensures s.Some? ==> s.value in slots && s.value.name == n
    ensures s.None? ==> n !in Names(slots)
  {
    if slots == [] then None
    else if slots[0].name == n then Some(slots[0])
    else
      assert Names(slots) == [slots[0].name] + Names(slots[1..]);
      SlotNamed(slots[1..], n)
  }

  /** The calendar's reading of the date slot, when it has one. */
  function ReadDate(slots: seq<Slot>, dates: DateResolver): Option<Canonical> {
    match SlotNamed(slots, "date")
    case None => None
    case Some(s) => if s.value.Some? && s.value.value != "" then dates(s.value.value) else None
  }

  function DateUpdates(slots: seq<Slot>, dates: DateResolver): seq<Slot> {
    match ReadDate(slots, dates)
    case None => []
    case Some(d) => [Slot("date", Some(d), TemporalNormalized)]
  }

  // ---------------------------------------------------------------- the engine

  /** The candidates for `op`; operations are distinct, so there is at most one. */
  function Selected(candidates: seq<Candidate>, op: OperationId): seq<Candidate> {
    if candidates == [] then []
    else if candidates[0].operation == op then [candidates[0]]
    else Selected(candidates[1..], op)
  }

  function TeachAll(candidates: seq<Candidate>, name: SlotName): seq<Candidate> {
    seq(|candidates|, i requires 0 <= i < |candidates| =>
      candidates[i].(slotNames := Dedup(candidates[i].slotNames + [name]),
        missing := Lacking(candidates[i].missing, [name])))
  }

  /** The candidates, told of every slot. */
  function Informed(candidates: seq<Candidate>, slots: seq<Slot>, required: Required): seq<Candidate> {
    seq(|candidates|, i requires 0 <= i < |candidates| =>
      candidates[i].(slotNames := Names(slots), missing := Lacking(required(candidates[i].operation), Names(slots))))
  }

  /** Every unresolved referent, replaced by one explicit answer. */
  function ExplainAll(referents: seq<Referent>, answer: Referent): seq<Referent> {
    seq(|referents|, i requires 0 <= i < |referents| =>
      if referents[i].origin == Unresolved then answer else referents[i])
  }

  function Patched(f: Frame, q: Question, turn: Turn, dates: DateResolver, required: Required): Frame {
    match turn
    case Choose(op) =>
      Assemble(f.utterance, Selected(f.candidates, op), PutAll(f.slots, DateUpdates(f.slots, dates)), f.referents)
    case Supply(slot) =>
      Assemble(f.utterance, TeachAll(f.candidates, slot.name),
               PutAll(f.slots, DateUpdates(f.slots, dates) + [slot]), f.referents)
    case Merge(selected, updates, referents) =>
      var slots := PutAll(f.slots, DateUpdates(f.slots, dates) + updates);
      var candidates := if selected.Some? then Selected(f.candidates, selected.value) else f.candidates;
      Assemble(f.utterance, Informed(candidates, slots, required), slots, PutReferents(f.referents, referents))
    case Explain(material) =>
      Assemble(f.utterance, f.candidates, f.slots,
               ExplainAll(f.referents, Referent(q.referentExpression.GetOr("это"), Some(material), Explicit)))
    case _ => f
  }

  function Outcomes(turn: Turn, f: Frame): Outcome {
    match turn
    case Withdraw => Abandoned
    case Independent => Unrelated
    case _ => if f.state == Resolved then Settled else StillOpen
  }

  /** The operation that a reply names: a choice names it, and so does a slot that completes the frame. */
  function NamedOperation(turn: Turn, f: Frame): Option<OperationId> {
    match turn
    case Choose(op) => Some(op)
    case Supply(_) => if f.state == Resolved && f.candidates != [] then Some(f.candidates[0].operation) else None
    case Merge(_, _, _) => if f.state == Resolved && f.candidates != [] then Some(f.candidates[0].operation) else None
    case _ => None
  }

  /** The engine's reply; nothing when a validator refuses the patched frame or the reply. */
  function Follow(record: Record, turn: Turn, dates: DateResolver, required: Required): Option<Reply> {
    var f := Patched(record.interpretation, record.question, turn, dates, required);
    var hint :=
      if turn.AmbiguousUnit? then Some(Question(SlotQuestion, [], Some("duration_minutes"), None, Some(turn.amount)))
      else None;
    var reply := Reply(Outcomes(turn, f), f, NamedOperation(turn, f), hint);
    if ValidFrame(f) && ValidReply(reply) then Some(reply) else None
  }

  // ---------------------------------------------------------------- the question builder

  function FirstUnresolved(referents: seq<Referent>): (r: Referent)
    requires HasUnresolved(referents)
    ensures r in referents && r.origin == Unresolved
  {
    if referents[0].origin == Unresolved then referents[0] else FirstUnresolved(referents[1..])
  }

  /** The next question about a frame, or nothing when the builder refuses. */
  function NextQuestion(f: Frame, catalog: set<OperationId>): Option<Question> {
    if f.state != ClarificationRequired then None
    else if HasUnresolved(f.referents) then
      Some(Question(ReferentQuestion, [], None, Some(FirstUnresolved(f.referents).expression), None))
    else
      match f.ambiguity
      case SlotAmbiguity =>
        if f.missing == [] then None else Some(Question(SlotQuestion, [], Some(f.missing[0]), None, None))
      case CapabilityAmbiguity => Choice(f, CapabilityQuestion, catalog)
      case ProviderScopeAmbiguity => Choice(f, ProviderScopeQuestion, catalog)
      case _ => None
  }

  function Choice(f: Frame, kind: Kind, catalog: set<OperationId>): Option<Question> {
    if |f.candidates| < 2 || exists op | op in Operations(f.candidates) :: op !in catalog then None
    else Some(Question(kind, Operations(f.candidates), None, None, None))
  }

  // ---------------------------------------------------------------- the coordinator

  /** What a reply makes of the stored record: nothing, an error, or one change of its status, meaning and question. */
  datatype Decision =
    | Keep
    | Refuse
    | Write(status: Status, interpretation: Option<Frame>, reason: Option<string>, question: Option<Question>)

  function Decide(record: Record, reply: Reply, catalog: set<OperationId>, adopted: set<OperationId>): Decision {
    match reply.outcome
    case Unrelated => Keep
    case Settled =>
      if reply.selected.GetOr("") !in adopted then Keep
      else Write(ResolvedMeaning, Some(reply.interpretation), None, None)
    case Abandoned => Write(Cancelled, None, Some("user_cancelled"), None)
    case StillOpen =>
      var question :=
        if reply.question.Some? then
          if reply.question.value.requestedSlot.GetOr("") in reply.interpretation.missing then reply.question else None
        else NextQuestion(reply.interpretation, catalog);
      if question.None? then Refuse
      else if reply.interpretation != record.interpretation || question.value != record.question then
        Write(Pending, Some(reply.interpretation), None, question)
      else Keep
  }

  /** What the stored record becomes after a reply; nothing when the builder or the store refuses. */
  function Continue(record: Record, reply: Reply, catalog: set<OperationId>, adopted: set<OperationId>, now: Time):
    Option<Record>
  {
    match Decide(record, reply, catalog, adopted)
    case Keep => Some(record)
    case Refuse => None
    case Write(status, interpretation, reason, question) =>
      Moved(record, status, interpretation, reason, question, now)
  }

  /** The fixed surroundings of a dialogue. */
  datatype Home = Home(dates: DateResolver, required: Required, catalog: set<OperationId>, adopted: set<OperationId>)

  function Advance(record: Record, turn: Turn, home: Home, now: Time): Option<Record> {
    var reply := Follow(record, turn, home.dates, home.required);
    if reply.None? then None else Continue(record, reply.value, home.catalog, home.adopted, now)
  }
}
