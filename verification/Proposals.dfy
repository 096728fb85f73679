/** Memory proposals waiting for a user's confirmation, and the file that holds them. */
module Proposals {
  import opened Common
  import opened Sorting

  type ProposalId = string
  type RecordId = string
  type Time = int

  datatype Memory = Memory(id: RecordId, body: string, status: string, visible: bool, supersedes: Option<RecordId>,
    supersededBy: Option<RecordId>, updatedAt: Time)

  /** What a proposal would do. Archiving and forgetting are both hiding. */
  datatype Change =
    | Create(record: Memory)
    | Edit(target: RecordId, record: Memory)
    | Hide(target: RecordId)
    | Restore(target: RecordId)
    | Supersede(target: RecordId, record: Memory)

  datatype Status = Pending | Confirmed | Cancelled

  datatype Proposal = Proposal(id: ProposalId, conversation: string, change: Change, createdAt: Time, status: Status)

  predicate DistinctProposals(ps: seq<Proposal>) {
    forall i, j | 0 <= i < j < |ps| :: ps[i].id != ps[j].id
  }

  function Find(ps: seq<Proposal>, id: ProposalId): (i: Option<nat>)
    ensures i.Some? ==> i.value < |ps| && ps[i.value].id == id
    ensures i.None? ==> forall p | p in ps :: p.id != id
  {
    if ps == [] then None
    else if ps[0].id == id then Some(0)
    else match Find(ps[1..], id)
      case None => None
      case Some(i) => Some(i + 1)
  }

  predicate Waits(p: Proposal, conversation: string) {
    p.conversation == conversation && p.status == Pending
  }

  function PendingFor(ps: seq<Proposal>, conversation: string): (r: seq<Proposal>)
    ensures forall p :: p in r <==> p in ps && Waits(p, conversation)
    ensures DistinctProposals(ps) ==> DistinctProposals(r)
  {
    if ps == [] then []
    else
      var front, last := PendingFor(ps[..|ps| - 1], conversation), ps[|ps| - 1];
      assert ps == ps[..|ps| - 1] + [last];
      assert DistinctProposals(ps) ==> forall q | q in ps[..|ps| - 1] :: q.id != last.id;
      if Waits(last, conversation) then front + [last] else front
  }

  /** At most one proposal waits in each conversation. */
  predicate OneWaitsEach(ps: seq<Proposal>) {
    forall i, j | 0 <= i < j < |ps| :: ps[i].status == Pending && ps[j].status == Pending ==>
      ps[i].conversation != ps[j].conversation
  }

  /** Older first, and by id among equals. */
  predicate NotLater(a: Proposal, b: Proposal) {
    a.createdAt < b.createdAt || (a.createdAt == b.createdAt && TextLe(a.id, b.id))
  }

  lemma NotLaterOrders()
    ensures Ordering(NotLater)
  {
    forall a: Proposal, b: Proposal
      ensures NotLater(a, b) || NotLater(b, a)
    {
      TextTotal(a.id, b.id);
    }
    forall a: Proposal, b: Proposal, c: Proposal | NotLater(a, b) && NotLater(b, c)
      ensures NotLater(a, c)
    {
      if a.createdAt == b.createdAt == c.createdAt {
        TextTransitive(a.id, b.id, c.id);
      }
    }
  }

  /** The waiting proposal that no other waiting one of the conversation is later than. */
  ghost predicate Newest(p: Proposal, ps: seq<Proposal>, conversation: string) {
    && p in ps && Waits(p, conversation)
    && forall q | q in ps && Waits(q, conversation) ::
         q.createdAt < p.createdAt || (q.createdAt == p.createdAt && TextLe(q.id, p.id))
  }

  function WithStatus(ps: seq<Proposal>, id: ProposalId, status: Status): seq<Proposal> {
    seq(|ps|, i requires 0 <= i < |ps| => if ps[i].id == id then ps[i].(status := status) else ps[i])
  }

  /** Every waiting proposal of the conversation cancelled, but one. */
  function Collapsed(ps: seq<Proposal>, conversation: string, current: ProposalId): seq<Proposal> {
    seq(|ps|, i requires 0 <= i < |ps| =>
      if Waits(ps[i], conversation) && ps[i].id != current then ps[i].(status := Cancelled) else ps[i])
  }

  lemma SortedPendingAre(ps: seq<Proposal>, conversation: string)
    ensures var s := Sort(PendingFor(ps, conversation), NotLater);
      && Sorted(s, NotLater) && multiset(s) == multiset(PendingFor(ps, conversation))
      && |s| == |PendingFor(ps, conversation)|
      && forall p :: p in s <==> p in ps && Waits(p, conversation)
  {
    hide NotLater, Sort, Waits, DistinctProposals;
    var pending := PendingFor(ps, conversation);
    var s := Sort(pending, NotLater);
    NotLaterOrders();
    SortSorts(pending, NotLater);
    forall p
      ensures p in s <==> p in ps && Waits(p, conversation)
    {
      assert p in s <==> p in multiset(s);
      assert p in pending <==> p in multiset(pending);
    }
  }

  lemma SortedPending(ps: seq<Proposal>, conversation: string)
    requires DistinctProposals(ps) && PendingFor(ps, conversation) != []
    ensures var s := Sort(PendingFor(ps, conversation), NotLater);
      && s != [] && Newest(s[|s| - 1], ps, conversation)
      && forall p :: p in s[..|s| - 1] <==> p in ps && Waits(p, conversation) && p.id != s[|s| - 1].id
  {
    hide Sort, Waits, DistinctProposals;
    var s := Sort(PendingFor(ps, conversation), NotLater);
    SortedPendingAre(ps, conversation);
    var front, last := s[..|s| - 1], s[|s| - 1];
    assert s == front + [last];
    assert last in s;
    forall p | p in s
      ensures NotLater(p, last)
    {
      var i :| 0 <= i < |s| && s[i] == p;
      if i == |s| - 1 {
        TextTotal(p.id, p.id);
      }
    }
    forall p
      ensures p in front <==> p in ps && Waits(p, conversation) && p.id != last.id
    {
      LastIsApart(PendingFor(ps, conversation), s, p);
      assert p in s <==> p in front || p == last;
    }
  }

  lemma SameProposal(ps: seq<Proposal>, a: Proposal, b: Proposal)
    requires DistinctProposals(ps) && a in ps && b in ps && a.id == b.id
    ensures a == b
  {
    var i :| 0 <= i < |ps| && ps[i] == a;
    var j :| 0 <= j < |ps| && ps[j] == b;
  }

  /** In a rearrangement of distinct proposals the last one does not occur before. */
  lemma LastIsApart(pending: seq<Proposal>, s: seq<Proposal>, p: Proposal)
    requires DistinctProposals(pending) && multiset(pending) == multiset(s) && s != []
    ensures p in s[..|s| - 1] ==> p.id != s[|s| - 1].id
  {
    var front, last := s[..|s| - 1], s[|s| - 1];
    assert s == front + [last];
    assert multiset(s)[last] == multiset(front)[last] + 1;
    assert last in multiset(s) && last in pending;
    OnceEach(pending, last);
    assert p in front ==> p in multiset(s);
    if p in front && p.id == last.id {
      SameProposal(pending, p, last);
    }
  }

  lemma {:induction false} OnceEach(ps: seq<Proposal>, p: Proposal)
    requires DistinctProposals(ps)
    ensures multiset(ps)[p] <= 1
  {
    if ps != [] {
      var front, last := ps[..|ps| - 1], ps[|ps| - 1];
      assert ps == front + [last];
      OnceEach(front, p);
      assert forall i | 0 <= i < |front| :: front[i] == ps[i] && ps[i].id != last.id;
    }
  }
}
