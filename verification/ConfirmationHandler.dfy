/** The handler of "confirm" and "cancel": it works on the proposal store and the memory repository. */
module ConfirmationHandler {
  import opened Common
  import opened Proposals
  import opened ConfirmedMutation
  import opened ProposalStore

  class MemoryIntentHandler {
    const store: MemoryProposalStore
    const schema: Schema
    var repository: World

    /** The proposals whose success was announced, in order. */
    var successes: seq<ProposalId>

    predicate Valid()
      reads this, store
    {
      store.Valid()
    }

    function Now(): State
      reads this, store
    {
      State(repository, store.proposals, successes)
    }

    constructor (store: MemoryProposalStore, repository: World, schema: Schema)
      requires store.Valid()
      ensures Valid() && this.store == store && this.schema == schema
      ensures Now() == State(repository, store.proposals, [])
    {
      this.store, this.schema, this.repository := store, schema, repository;
      successes := [];
    }

    /** The proposal meant: the named one of this conversation, or the conversation's current one. */
    method Resolve(id: Option<ProposalId>, conversation: string, works: bool) returns (ok: bool, p: Option<Proposal>)
      requires Valid()
      modifies store
      ensures Valid()
      ensures ok <==> id.Some? || works || |PendingFor(old(store.proposals), conversation)| <= 1
      ensures p.Some? ==> p.value in store.proposals && p.value.conversation == conversation
      ensures id.Some? ==> ok && store.proposals == old(store.proposals)
      ensures id.Some? && p.Some? ==> p.value.id == id.value
      ensures id.Some? && p.None?
        ==> forall q | q in store.proposals :: q.id != id.value || q.conversation != conversation
      ensures id.None? && ok && p.None? ==>
        store.proposals == old(store.proposals) && forall q | q in store.proposals :: !Waits(q, conversation)
      ensures id.None? && p.Some? ==>
        && Newest(p.value, old(store.proposals), conversation)
        && store.proposals == Collapsed(old(store.proposals), conversation, p.value.id)
      ensures !ok ==> p.None? && store.proposals == old(store.proposals)
    {
      if id.Some? {
        ok := true;
        p := store.Get(id.value);
        if p.Some? && p.value.conversation != conversation {
          NotOfThisConversation(store.proposals, p.value);
          p := None;
        }
      } else {
        ghost var was := store.proposals;
        ok, p := store.CurrentForConversation(conversation, works);
        if !ok {
          p := None;
        } else if p.Some? {
          CollapsingOnlyCancels(was, conversation, p.value);
        }
      }
    }

    /** Marks the proposal confirmed and begins to announce it; a failed save announces nothing. */
    method Complete(id: ProposalId, works: bool) returns (ok: bool)
      requires Valid() && Find(store.proposals, id).Some?
      modifies this`successes, store
      ensures Valid() && ok == works
      ensures Now() == if works then Completed(old(Now()), repository, id) else old(Now())
    {
      assert store.proposals[Find(store.proposals, id).value] in store.proposals;
      ok := store.SetStatus(id, Confirmed, works);
      if ok {
        successes := successes + [id];
      }
    }

    /** The write itself: it may be refused, be lost before it takes effect, or take effect and report failure. */
    method Write(p: Proposal, fault: WriteFault, now: Time) returns (ok: bool)
      modifies this`repository
      ensures (repository, ok) == WriteOutcome(old(repository), p, fault, now, schema)
    {
      var next := Apply(repository, p, now, schema);
      if next.None? || fault == LostBefore {
        return false;
      }
      repository := next.value;
      return fault == Clean;
    }

    /** After a failed attempt: complete what turns out to be applied, and leave the rest pending. */
    method Recover(p: Proposal, f: Faults) returns (reply: Reply)
      requires Valid() && Find(store.proposals, p.id).Some?
      modifies this`successes, store
      ensures Valid()
      ensures (Now(), reply) ==
        if !f.rechecks || !Postcondition(repository, p) then (old(Now()), StillPending(false))
        else if f.savesAgain then
          (Completed(old(Now()), repository, p.id), if f.announces then Success else Raised)
        else (old(Now()), StillPending(true))
    {
      if !f.rechecks || !Postcondition(repository, p) {
        return StillPending(false);
      }
      var saved := Complete(p.id, f.savesAgain);
      reply := if !saved then StillPending(true) else if f.announces then Success else Raised;
    }

    /** One attempt on a proposal that is in the store. */
    method ConfirmProposal(p: Proposal, f: Faults, now: Time) returns (reply: Reply)
      requires Valid() && Find(store.proposals, p.id).Some?
      requires p == store.proposals[Find(store.proposals, p.id).value]
      modifies this`repository, this`successes, store
      ensures Valid()
      ensures (Now(), reply) == ConfirmStep(old(Now()), p.id, f, now, schema)
    {
      hide Postcondition, Apply;
      if p.status == Confirmed {
        return AlreadySaved;
      }
      if p.status == Cancelled {
        return AlreadyCancelled;
      }
      if !f.checks {
        return StillPending(false);
      }
      if Postcondition(repository, p) {
        var saved := Complete(p.id, f.saves);
        return if saved && f.announces then Success else StillPending(false); // the same handler catches both
      }
      var written := Write(p, f.write, now);
      if written && f.verifies && Postcondition(repository, p) {
        var saved := Complete(p.id, f.saves);
        if saved {
          return if f.announces then Success else Raised;
        }
      }
      reply := Recover(p, f);
    }

    /** Competing proposals that cannot be collapsed raise before anything else happens. */
    method Confirm(id: Option<ProposalId>, conversation: string, resolves: bool, f: Faults, now: Time)
      returns (target: Option<Proposal>, reply: Reply)
      requires Valid()
      modifies this`repository, this`successes, store
      ensures Valid()
      ensures target.None? ==> Now() == old(Now())
      ensures target.None? ==>
        reply == if Collapses(old(store.proposals), id, conversation) && !resolves then Raised else Unknown
      ensures target.None? && reply == Unknown ==> forall q | q in store.proposals ::
        if id.Some? then q.id != id.value || q.conversation != conversation else !Waits(q, conversation)
      ensures Collapses(old(store.proposals), id, conversation) && !resolves ==> target.None?
      ensures target.Some? && id.Some? ==>
        target.value.id == id.value && (Now(), reply) == ConfirmStep(old(Now()), id.value, f, now, schema)
      ensures target.Some? && id.None? ==>
        && Newest(target.value, old(store.proposals), conversation)
        && var collapsed := Collapsed(old(store.proposals), conversation, target.value.id);
           (Now(), reply) == ConfirmStep(old(Now()).(proposals := collapsed), target.value.id, f, now, schema)
    {
      hide Postcondition, Apply, ConfirmStep, Newest, Collapsed, Waits;
      var ok;
      ok, target := Resolve(id, conversation, resolves);
      reply := if ok then Unknown else Raised;
      if target.Some? {
        FoundInPlace(store.proposals, target.value);
        reply := ConfirmProposal(target.value, f, now);
      }
    }

    /** Raises when a save fails: of the collapse, or of the cancelling itself. */
    method Cancel(id: Option<ProposalId>, conversation: string, resolves: bool, works: bool)
      returns (target: Option<Proposal>, raised: bool)
      requires Valid()
      modifies store
      ensures Valid()
      ensures target.None? ==> Now() == old(Now())
      ensures target.None? ==> (raised <==> Collapses(old(store.proposals), id, conversation) && !resolves)
      ensures target.Some? ==> (raised <==> target.value.status == Pending && !works)
      ensures target.None? && !raised ==> forall q | q in store.proposals ::
        if id.Some? then q.id != id.value || q.conversation != conversation else !Waits(q, conversation)
      ensures target.Some? && id.Some? ==>
        target.value.id == id.value && Now() == CancelStep(old(Now()), id.value, works)
      ensures target.Some? && id.None? ==>
        && Newest(target.value, old(store.proposals), conversation)
        && var collapsed := Collapsed(old(store.proposals), conversation, target.value.id);
           Now() == CancelStep(old(Now()).(proposals := collapsed), target.value.id, works)
    {
      hide Newest, Collapsed, Waits;
      var ok;
      ok, target := Resolve(id, conversation, resolves);
      raised := !ok;
      if target.Some? {
        FoundInPlace(store.proposals, target.value);
        if target.value.status == Pending {
          var saved := store.SetStatus(target.value.id, Cancelled, works);
          raised := !saved;
        }
      }
    }
  }

  /** A plain confirmation or cancellation finds competing proposals, and has to collapse them. */
  predicate Collapses(ps: seq<Proposal>, id: Option<ProposalId>, conversation: string) {
    id.None? && |PendingFor(ps, conversation)| > 1
  }

  lemma FoundInPlace(ps: seq<Proposal>, p: Proposal)
    requires DistinctProposals(ps) && p in ps
    ensures Find(ps, p.id).Some? && ps[Find(ps, p.id).value] == p
  {
    var i :| 0 <= i < |ps| && ps[i] == p;
    FindsItself(ps, i);
  }

  lemma NotOfThisConversation(ps: seq<Proposal>, p: Proposal)
    requires DistinctProposals(ps) && p in ps
    ensures forall q | q in ps && q.id == p.id :: q == p
  {
    forall q | q in ps && q.id == p.id
      ensures q == p
    {
      SameProposal(ps, p, q);
    }
  }
}
