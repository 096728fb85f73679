/** Runs of confirmations that end otherwise than a user would expect. */
module ConfirmationWitness {
  import opened Common
  import opened Proposals
  import opened ConfirmedMutation

  const NOTE := Memory("m", "tea", "active", true, None, None, 0)
  const FORGETTING := Proposal("p", "here", Hide("m"), 1, Pending)
  const RESTORING := Proposal("q", "there", Restore("m"), 2, Pending)
  const BEGINNING := State(World(map["m" := NOTE], []), [FORGETTING, RESTORING], [])

  const LOST := State(
    World(map["m" := NOTE.(visible := false, updatedAt := 1)], [Event(Hidden, "p", "m")]), [FORGETTING, RESTORING], [])
  const RESTORED := State(
    World(map["m" := NOTE.(updatedAt := 2)], [Event(Hidden, "p", "m"), Event(Restored, "q", "m")]),
    [FORGETTING, RESTORING.(status := Confirmed)], ["q"])

  function AnyDocument(): Schema {
    (d: Document, c: Change) => true
  }

  lemma StatusIsLost()
    ensures ConfirmStep(BEGINNING, "p", FAULTLESS.(write := LostAfter, savesAgain := false), 1, AnyDocument()).0 == LOST
  {
    assert Find(BEGINNING.proposals, "p") == Some(0);
    assert !Audited(BEGINNING.world, FORGETTING);
    ApplyingSatisfies(BEGINNING.world, FORGETTING, 1, AnyDocument());
    var next := Apply(BEGINNING.world, FORGETTING, 1, AnyDocument()).value;
    assert next.document == LOST.world.document && next.audit == LOST.world.audit;
  }

  lemma AnotherRestores()
    ensures ConfirmStep(LOST, "q", FAULTLESS, 2, AnyDocument()).0 == RESTORED
  {
    assert Find(LOST.proposals[1..], "q") == Some(0);
    assert Find(LOST.proposals, "q") == Some(1);
    assert !LOST.world.document["m"].visible;
    ApplyingSatisfies(LOST.world, RESTORING, 2, AnyDocument());
    var next := Apply(LOST.world, RESTORING, 2, AnyDocument()).value;
    assert next.document == RESTORED.world.document && next.audit == RESTORED.world.audit;
  }

  /**
   * Forgetting is not applied at most once in every run: its status is lost, another proposal restores the record,
   * and confirming again hides it a second time.
   */
  lemma InterferenceAppliesAgain()
    ensures Fresh(BEGINNING)
    ensures var lost := After(BEGINNING, Confirm("p", FAULTLESS.(write := LostAfter, savesAgain := false), 1),
      AnyDocument());
      var restored := After(lost, Confirm("q", FAULTLESS, 2), AnyDocument());
      var again := After(restored, Confirm("p", FAULTLESS, 3), AnyDocument());
      Applications(lost.world.audit, "p") == 1 && Applications(again.world.audit, "p") == 2
  {
    StatusIsLost();
    AnotherRestores();
    assert RESTORED.world.audit[..1] == LOST.world.audit && LOST.world.audit[..0] == [];
    assert Applications(LOST.world.audit, "p") == 1 == Applications(RESTORED.world.audit, "p");
    assert Find(RESTORED.proposals, "p") == Some(0);
    assert RESTORED.world.document["m"].visible;
    AppliedIff(RESTORED, "p", FAULTLESS, 3, AnyDocument());
  }

  // ---------------------------------------------------------------- a reply that is not true

  /**
    * The lost forgetting is found applied and confirmed, its announcement fails, and the reply says it stays pending.
    */
  lemma ConfirmedButSaidPending()
    ensures LOST.world.document["m"].visible == false && LOST.proposals[0].status == Pending
    ensures var (s, reply) := ConfirmStep(LOST, "p", FAULTLESS.(announces := false), 2, AnyDocument());
      reply == StillPending(false) && s.proposals[0].status == Confirmed && Postcondition(s.world, FORGETTING)
  {
    assert Find(LOST.proposals, "p") == Some(0);
    assert LOST.world.audit[0] in LOST.world.audit;
    assert Postcondition(LOST.world, FORGETTING);
  }

  // ---------------------------------------------------------------- an addition that stays pending

  const ADDING := Proposal("p", "here", Create(NOTE), 1, Pending)
  const EMPTY := State(World(map[], []), [ADDING], [])
  const ADDED := State(World(map["m" := NOTE], [Event(Created, "p", "m")]), [ADDING], [])
  const CHANGED := ADDED.(world := World(map["m" := NOTE.(body := "coffee")], [Event(Created, "p", "m")]))

  lemma AdditionIsLost()
    ensures ConfirmStep(EMPTY, "p", FAULTLESS.(write := LostAfter, savesAgain := false), 1, AnyDocument()).0 == ADDED
  {
    assert Find(EMPTY.proposals, "p") == Some(0);
    assert !Audited(EMPTY.world, ADDING);
    ApplyingSatisfies(EMPTY.world, ADDING, 1, AnyDocument());
    var next := Apply(EMPTY.world, ADDING, 1, AnyDocument()).value;
    assert next.document == ADDED.world.document && next.audit == ADDED.world.audit;
  }

  lemma ChangeIsForeign()
    ensures Foreign(ADDED, CHANGED.world)
  {
  }

  /**
    * An addition takes effect, its status is lost, and somebody edits the record: from then on a faultless attempt
    * changes nothing, and once the edit is undone the next one completes.
    */
  lemma EditedAdditionStaysPending()
    ensures Fresh(EMPTY)
    ensures var lost := Confirm("p", FAULTLESS.(write := LostAfter, savesAgain := false), 1);
      var edited := Elsewhere(CHANGED.world);
      && Enabled(EMPTY, lost) && After(EMPTY, lost, AnyDocument()) == ADDED
      && Enabled(ADDED, edited) && After(ADDED, edited, AnyDocument()) == CHANGED
    ensures ConfirmStep(CHANGED, "p", FAULTLESS, 2, AnyDocument()) == (CHANGED, StillPending(false))
    ensures ConfirmStep(ADDED, "p", FAULTLESS, 2, AnyDocument()).1 == Success
  {
    AdditionIsLost();
    ChangeIsForeign();
    assert Find(CHANGED.proposals, "p") == Some(0);
    assert NOTE.body == "tea" && |"tea"| == 3 && |"coffee"| == 6;
    assert ADDED.world.audit[0] in ADDED.world.audit;
    assert Postcondition(ADDED.world, ADDING);
    AddedCannotBeAppliedAgain(CHANGED.world, ADDING, 2, AnyDocument());
  }
}
