/** The proposal store: what is in memory is always what a reload would read. */
module ProposalStore {
  import opened Common
  import opened Sorting
  import opened Proposals

  datatype Outcome = Done | Duplicate | Conflict | SaveFailed

  class MemoryProposalStore {
    var proposals: seq<Proposal>

    /** What a reload would read. */
    var file: seq<Proposal>

    predicate Valid()
      reads this
    {
      proposals == file && DistinctProposals(proposals)
    }

    /** Opening reads the file, competing proposals of an older version included. */
    constructor (file: seq<Proposal>)
      requires DistinctProposals(file)
      ensures Valid() && proposals == file
    {
      this.file := file;
      proposals := file;
    }

    /** Replaces the file in one step, or fails and leaves it. */
    method Write(snapshot: seq<Proposal>, works: bool) returns (ok: bool)
      modifies this`file
      ensures ok == works
      ensures file == if works then snapshot else old(file)
    {
      if works {
        file := snapshot;
      }
      ok := works;
    }

    method Add(p: Proposal, works: bool) returns (outcome: Outcome)
      requires Valid()
      modifies this
      ensures Valid()
      ensures outcome == Duplicate <==> exists q :: q in old(proposals) && q.id == p.id
      ensures outcome == Conflict <==>
        outcome != Duplicate && exists q :: q in old(proposals) && Waits(q, p.conversation)
      ensures outcome == Done <==>
        works && forall q | q in old(proposals) :: q.id != p.id && !Waits(q, p.conversation)
      ensures proposals == if outcome == Done then old(proposals) + [p] else old(proposals)
      ensures old(OneWaitsEach(proposals)) ==> OneWaitsEach(proposals)
    {
      var pending := PendingFor(proposals, p.conversation);
      if Find(proposals, p.id).Some? {
        assert proposals[Find(proposals, p.id).value] in proposals;
        outcome := Duplicate;
      } else if pending != [] {
        assert pending[0] in pending;
        outcome := Conflict;
      } else {
        var updated := proposals + [p];
        var saved := Write(updated, works);
        outcome := if saved then Done else SaveFailed;
        if saved {
          assert forall q | q in old(proposals) :: q in pending <==> Waits(q, p.conversation);
          proposals := updated;
        }
      }
    }

    method Get(id: ProposalId) returns (p: Option<Proposal>)
      requires Valid()
      ensures p.Some? ==> p.value in proposals && p.value.id == id
      ensures p.None? ==> forall q | q in proposals :: q.id != id
    {
      var i := Find(proposals, id);
      p := if i.Some? then Some(proposals[i.value]) else None;
    }

    method SetStatus(id: ProposalId, status: Status, works: bool) returns (ok: bool)
      requires Valid() && exists q :: q in proposals && q.id == id
      modifies this
      ensures Valid() && ok == works
      ensures proposals == if works then WithStatus(old(proposals), id, status) else old(proposals)
    {
      var updated := WithStatus(proposals, id, status);
      ok := Write(updated, works);
      if ok {
        proposals := updated;
      }
    }

    /**
     * The one proposal a plain confirmation means: the newest waiting one. Older competitors are cancelled, never
     * confirmed; when that cannot be saved nothing changes.
     */
    method CurrentForConversation(conversation: string, works: bool) returns (ok: bool, current: Option<Proposal>)
      requires Valid()
      modifies this
      ensures Valid()
      ensures ok <==> works || |PendingFor(old(proposals), conversation)| <= 1
      ensures !ok ==> proposals == old(proposals)
      ensures ok && current.None? ==>
        proposals == old(proposals) && forall q | q in proposals :: !Waits(q, conversation)
      ensures ok && current.Some? ==>
        && Newest(current.value, old(proposals), conversation)
        && proposals == Collapsed(old(proposals), conversation, current.value.id)
    {
      hide Sort, NotLater, DistinctProposals, Newest, Waits, Collapsed, PendingFor;
      var sorted := Sort(PendingFor(proposals, conversation), NotLater);
      SortedPendingAre(proposals, conversation);
      if |sorted| == 0 {
        return true, None;
      }
      SortedPending(proposals, conversation);
      var last := sorted[|sorted| - 1];
      current := Some(last);
      if |sorted| == 1 {
        OnlyOneCollapses(proposals, conversation, last);
        return true, current;
      }
      var updated := CancelEach(proposals, sorted[..|sorted| - 1]);
      CancellingTheOthers(proposals, conversation, sorted[..|sorted| - 1], last);
      CollapsedStaysDistinct(proposals, conversation, last.id);
      ok := Write(updated, works);
      if ok {
        proposals := updated;
      }
    }
  }

  method CancelEach(ps: seq<Proposal>, gone: seq<Proposal>) returns (updated: seq<Proposal>)
    ensures updated == CancelledFirst(ps, gone)
  {
    updated := ps;
    for k := 0 to |gone|
      invariant updated == CancelledFirst(ps, gone[..k])
    {
      CancelledNext(ps, gone[..k], gone[k]);
      assert gone[..k + 1] == gone[..k] + [gone[k]];
      updated := WithStatus(updated, gone[k].id, Cancelled);
    }
    assert gone[..|gone|] == gone;
  }

  /** The proposals, with those of `gone` cancelled. */
  function CancelledFirst(ps: seq<Proposal>, gone: seq<Proposal>): seq<Proposal> {
    seq(|ps|, i requires 0 <= i < |ps| =>
      if exists g | g in gone :: g.id == ps[i].id then ps[i].(status := Cancelled) else ps[i])
  }

  lemma CancelledNext(ps: seq<Proposal>, gone: seq<Proposal>, next: Proposal)
    ensures CancelledFirst(ps, gone + [next]) == WithStatus(CancelledFirst(ps, gone), next.id, Cancelled)
    ensures CancelledFirst(ps, []) == ps
  {
    forall i | 0 <= i < |ps|
      ensures CancelledFirst(ps, gone + [next])[i] == WithStatus(CancelledFirst(ps, gone), next.id, Cancelled)[i]
    {
      assert next in gone + [next];
      assert forall g | g in gone + [next] :: g in gone || g == next;
    }
  }

  lemma CancellingTheOthers(ps: seq<Proposal>, conversation: string, others: seq<Proposal>, current: Proposal)
    requires DistinctProposals(ps)
    requires forall p :: p in others <==> p in ps && Waits(p, conversation) && p.id != current.id
    ensures CancelledFirst(ps, others) == Collapsed(ps, conversation, current.id)
  {
    forall i | 0 <= i < |ps|
      ensures CancelledFirst(ps, others)[i] == Collapsed(ps, conversation, current.id)[i]
    {
      assert ps[i] in ps;
      if g :| g in others && g.id == ps[i].id {
        SameProposal(ps, g, ps[i]);
      }
    }
  }

  lemma CollapsedStaysDistinct(ps: seq<Proposal>, conversation: string, current: ProposalId)
    requires DistinctProposals(ps)
    ensures DistinctProposals(Collapsed(ps, conversation, current))
  {
  }

  lemma OnlyOneCollapses(ps: seq<Proposal>, conversation: string, current: Proposal)
    requires forall p | p in ps && Waits(p, conversation) :: p.id == current.id
    ensures Collapsed(ps, conversation, current.id) == ps
  {
    assert forall i | 0 <= i < |ps| :: ps[i] in ps;
  }

  /** Collapsing leaves one waiting proposal in the conversation, cancels only, and confirms nothing. */
  lemma CollapsingOnlyCancels(ps: seq<Proposal>, conversation: string, current: Proposal)
    requires DistinctProposals(ps) && Newest(current, ps, conversation)
    ensures var now := Collapsed(ps, conversation, current.id);
      && DistinctProposals(now) && current in now
      && (forall p | p in now && Waits(p, conversation) :: p == current)
      && (forall i | 0 <= i < |ps| ::
            now[i] == ps[i] || (ps[i].status == Pending && now[i] == ps[i].(status := Cancelled)))
      && (OneWaitsEach(ps) ==> now == ps)
  {
    var now := Collapsed(ps, conversation, current.id);
    var k :| 0 <= k < |ps| && ps[k] == current;
    assert now[k] == current;
  }
}
