/** Records and a document at which a dialogue or a save does fail. */
module DialogueWitness {
  import opened Common
  import opened Frames
  import opened PendingRecords
  import opened Clarification
  import opened DialogueClosure
  import opened Dialogue
  import opened PendingDocument
  import opened PendingMirror

  const READ_MAIL: OperationId := "yandex_mail.read"
  const THIS := Referent("это", None, Unresolved)
  const THAT := Referent("то письмо", None, Unresolved)

  /** One operation that requires no slot, in the catalog and adopted. */
  function Surroundings(): Home {
    Home(s => None, op => [], {READ_MAIL}, {READ_MAIL})
  }

  function Wanting(referents: seq<Referent>): Frame {
    Assemble("Прочитай это", [Candidate(READ_MAIL, ["local_semantic_proposal_validated"], [], [])], [], referents)
  }

  function Asking(referents: seq<Referent>): Record {
    Record("r", "c", Wanting(referents), Question(ReferentQuestion, [], None, Some("это"), None), 0, 0, 1, Pending,
      None)
  }

  lemma WantingFrame(referents: seq<Referent>)
    requires referents == [THIS] || referents == [THIS, THAT]
    ensures var f := Wanting(referents);
      && Coherent(f, op => []) && f.state == ClarificationRequired && f.missing == [] && OnlyAReferent(f)
  {
    var f := Wanting(referents);
    var c := Candidate(READ_MAIL, ["local_semantic_proposal_validated"], [], []);
    assert f.candidates == [c] && Names(f.slots) == [];
    assert AllMissing([c]) == [] by {
      assert [c][..0] == [];
    }
    assert referents[0].origin == Unresolved;
    assert |"то письмо"| == 9 && |"это"| == 3;
    assert Expressions(referents)[0] == "это";
  }

  /** A live question whose frame lacks only a referent: no dialogue from here resolves it. */
  lemma SoleReferentIsLive()
    ensures Live(Asking([THIS]), Surroundings()) && OnlyAReferent(Asking([THIS]).interpretation)
    ensures Understood(Explain("текст"), Asking([THIS])) && !Answerable(Explain("текст"), Asking([THIS]))
  {
    WantingFrame([THIS]);
    IsLive([THIS]);
  }

  lemma IsLive(referents: seq<Referent>)
    requires referents == [THIS] || referents == [THIS, THAT]
    ensures Live(Asking(referents), Surroundings())
  {
    var r := Asking(referents);
    WantingFrame(referents);
    assert Operations(r.interpretation.candidates) == [READ_MAIL];
    hide Coherent, Distinct;
    assert r.interpretation.referents[0] == THIS;
    CoherentIsValid(r.interpretation, op => []);
    assert Distinct<OperationId>([]) by {
      NoneAreDistinct();
    }
    SameRequirements(r.interpretation);
  }

  lemma NoneAreDistinct()
    ensures Distinct<OperationId>([])
  {
  }

  lemma SameRequirements(f: Frame)
    requires Coherent(f, op => [])
    ensures Coherent(f, Surroundings().required)
  {
  }

  lemma ExplainingIsUnderstood(referents: seq<Referent>)
    ensures Understood(Explain("текст"), Asking(referents))
  {
  }

  lemma AnotherIsOpen()
    ensures !Answerable(Explain("текст"), Asking([THIS, THAT]))
  {
    var f := Wanting([THIS, THAT]);
    assert f.referents[1] == THAT && THAT in f.referents;
    assert |"то письмо"| == 9 && |"это"| == 3;
    assert !OnlyAsked(f, "это");
  }

  /** A live question about one of two referents: explaining it is understood, and refused. */
  lemma TwoReferentsAreRefused(now: Time)
    ensures Live(Asking([THIS, THAT]), Surroundings())
    ensures Understood(Explain("текст"), Asking([THIS, THAT]))
    ensures Advance(Asking([THIS, THAT]), Explain("текст"), Surroundings(), now).None?
  {
    hide Live, Understood, Answerable, Advance, Asking;
    IsLive([THIS, THAT]);
    ExplainingIsUnderstood([THIS, THAT]);
    AnotherIsOpen();
    UnanswerableTurnStops(Asking([THIS, THAT]), Explain("текст"), Surroundings(), now);
  }

  // ---------------------------------------------------------------- a full document

  const FULL := Limits(1000, 1000)

  function IdOf(i: nat): ResolutionId {
    seq(i, k requires 0 <= k < i => 'x')
  }

  function Closed(i: nat): Record {
    Asking([THIS]).(id := IdOf(i), status := Cancelled, reason := Some("user_cancelled"))
  }

  /** A thousand cancelled questions. */
  function FullDocument(): Rows {
    seq(1000, i requires 0 <= i < 1000 => Closed(i))
  }

  lemma FullDocumentIsValid()
    ensures ValidStore(FullDocument(), 0, FULL) && |FullDocument()| == DOCUMENT_CAP && Mirrors(FullDocument(), 0, map[])
  {
    IsLive([THIS]);
    var rows := FullDocument();
    forall i | 0 <= i < 1000
      ensures |rows[i].id| == i && ValidRecord(rows[i]) && rows[i].status == Cancelled && rows[i].createdAt == 0
    {
    }
  }

  /** At the largest limits a save that an eager map would store can fail on the size of the document alone. */
  lemma FullDocumentRefusesASave()
    ensures var r := Asking([THIS]).(id := IdOf(1000));
      && Acceptable(Save(r, false), FullDocument(), 0)
      && EagerStep(map[], Save(r, false), 0, FULL).1 == Stored
      && Step(FullDocument(), Save(r, false), 0, FULL).1 == Failed
  {
    var r, rows := Asking([THIS]).(id := IdOf(1000)), FullDocument();
    IsLive([THIS]);
    FullDocumentIsValid();
    forall x | x in rows
      ensures x.id != r.id
    {
      var i :| 0 <= i < 1000 && rows[i] == x;
      assert |x.id| == i && |r.id| == 1000;
    }
    assert Unexpired(map[], 0) == map[];
    assert |map["c" := r]| == 1;
    SaveStoredIff(rows, Save(r, false), 0, 0, FULL, map[]);
    hide Expire, Settle, Compact;
  }
}
