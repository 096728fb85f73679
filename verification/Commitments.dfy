/** The list of open commitments: buckets, order, and pages. */
module Commitments {
  import opened Common
  import opened Sorting

  type Time = int

  const FRESH_SECONDS: Time := 86_400

  datatype Commitment = Commitment(id: string, visible: bool, closed: bool, due: Option<Time>, created: Time)

  datatype Status = Closed | Overdue | Open | Upcoming

  datatype Bucket = FreshOverdue | UpcomingBucket | Unscheduled | StaleOverdue

  datatype Row = Row(commitment: Commitment, status: Status, bucket: Bucket)

  /** The list reads the clock once; each status reads it again, later. */
  datatype Clock = Clock(observed: Time, later: Time)

  function DomainStatus(c: Commitment, later: Time): Status {
    if c.closed then Closed
    else if c.due.Some? && c.due.value < later then Overdue
    else Open
  }

  function ShownStatus(c: Commitment, k: Clock): Status {
    var s := DomainStatus(c, k.later);
    if s == Open && c.due.Some? && c.due.value > k.observed then Upcoming else s
  }

  function BucketFor(s: Status, due: Option<Time>, observed: Time): Bucket {
    if s == Overdue && due.Some? then
      if observed - due.value <= FRESH_SECONDS then FreshOverdue else StaleOverdue
    else if s == Upcoming then UpcomingBucket
    else Unscheduled
  }

  function RowOf(c: Commitment, k: Clock): Row {
    var s := ShownStatus(c, k);
    Row(c, s, BucketFor(s, c.due, k.observed))
  }

  predicate Listed(c: Commitment) {
    c.visible && !c.closed
  }

  function Rows(cs: seq<Commitment>, k: Clock): (r: seq<Row>)
    ensures forall x :: x in r <==> exists c :: c in cs && Listed(c) && x == RowOf(c, k)
  {
    if cs == [] then []
    else
      var front, last := Rows(cs[..|cs| - 1], k), cs[|cs| - 1];
      assert cs == cs[..|cs| - 1] + [last];
      if Listed(last) then front + [RowOf(last, k)] else front
  }

  // ---------------------------------------------------------------- buckets

  /** Each listed commitment is in exactly the bucket that its due time names. */
  lemma BucketsByDueTime(c: Commitment, k: Clock)
    requires Listed(c) && k.observed <= k.later
    ensures var b := RowOf(c, k).bucket;
      && (b == FreshOverdue <==> c.due.Some? && k.observed - FRESH_SECONDS <= c.due.value < k.later)
      && (b == StaleOverdue <==> c.due.Some? && c.due.value < k.observed - FRESH_SECONDS)
      && (b == UpcomingBucket <==> c.due.Some? && c.due.value >= k.later && c.due.value > k.observed)
      && (b == Unscheduled <==> c.due.None? || k.observed == k.later == c.due.value)
    ensures RowOf(c, k).commitment == c
    ensures var s := RowOf(c, k).status;
      && (s == Overdue <==> c.due.Some? && c.due.value < k.later)
      && (s == Upcoming <==> c.due.Some? && c.due.value >= k.later && c.due.value > k.observed)
      && s != Closed
  {
  }

  // ---------------------------------------------------------------- order

  function BucketRank(b: Bucket): nat {
    match b
    case FreshOverdue => 0
    case UpcomingBucket => 1
    case Unscheduled => 2
    case StaleOverdue => 3
  }

  /** The second part of the sort key; the smaller stands first. */
  function TimeKey(r: Row): Time {
    match r.bucket
    case UpcomingBucket => r.commitment.due.GetOr(0)
    case Unscheduled => -r.commitment.created
    case _ => -r.commitment.due.GetOr(0)
  }

  predicate StandsBefore(a: Row, b: Row) {
    || BucketRank(a.bucket) < BucketRank(b.bucket)
    || (a.bucket == b.bucket
        && (TimeKey(a) < TimeKey(b) || (TimeKey(a) == TimeKey(b) && TextLe(a.commitment.id, b.commitment.id))))
  }

  lemma StandingOrders()
    ensures Ordering(StandsBefore)
  {
    forall a: Row, b: Row
      ensures StandsBefore(a, b) || StandsBefore(b, a)
    {
      TextTotal(a.commitment.id, b.commitment.id);
    }
    forall a: Row, b: Row, c: Row | StandsBefore(a, b) && StandsBefore(b, c)
      ensures StandsBefore(a, c)
    {
      if TextLe(a.commitment.id, b.commitment.id) && TextLe(b.commitment.id, c.commitment.id) {
        TextTransitive(a.commitment.id, b.commitment.id, c.commitment.id);
      }
    }
  }

  function Listing(cs: seq<Commitment>, k: Clock): seq<Row> {
    Sort(Rows(cs, k), StandsBefore)
  }

  lemma ListingIsOrdered(cs: seq<Commitment>, k: Clock)
    ensures Sorted(Listing(cs, k), StandsBefore) && multiset(Listing(cs, k)) == multiset(Rows(cs, k))
    ensures |Listing(cs, k)| == |Rows(cs, k)|
  {
    StandingOrders();
    SortSorts(Rows(cs, k), StandsBefore);
  }

  /** Each open commitment in view is listed as often as it is there, with what its due time says; no other is. */
  lemma ListsWhatIsOpen(cs: seq<Commitment>, k: Clock, c: Commitment)
    ensures multiset(Listing(cs, k))[RowOf(c, k)] == if c.visible && !c.closed then multiset(cs)[c] else 0
    ensures forall r | r in Listing(cs, k) ::
      r.commitment in cs && r.commitment.visible && !r.commitment.closed && r == RowOf(r.commitment, k)
  {
    ListingIsOrdered(cs, k);
    RowsAsOften(cs, k, c);
    forall r | r in Listing(cs, k)
      ensures r in Rows(cs, k)
    {
      assert r in multiset(Listing(cs, k));
    }
  }

  lemma {:induction false} RowsAsOften(cs: seq<Commitment>, k: Clock, c: Commitment)
    ensures multiset(Rows(cs, k))[RowOf(c, k)] == if c.visible && !c.closed then multiset(cs)[c] else 0
  {
    if cs != [] {
      var front, last := cs[..|cs| - 1], cs[|cs| - 1];
      RowsAsOften(front, k, c);
      assert cs == front + [last];
      assert multiset(cs) == multiset(front) + multiset{last};
      assert RowOf(c, k) == RowOf(last, k) <==> c == last;
    }
  }

  /** What the order means: buckets one after another; soonest first when upcoming, latest first otherwise. */
  lemma OrderWithinBuckets(cs: seq<Commitment>, k: Clock, i: nat, j: nat)
    requires i < j < |Listing(cs, k)| && k.observed <= k.later
    ensures var a, b := Listing(cs, k)[i], Listing(cs, k)[j];
      && (b.bucket == FreshOverdue ==> a.bucket == FreshOverdue)
      && (b.bucket == UpcomingBucket ==> a.bucket in {FreshOverdue, UpcomingBucket})
      && (b.bucket == Unscheduled ==> a.bucket != StaleOverdue)
      && (a.bucket == b.bucket == UpcomingBucket ==>
            a.commitment.due.Some? && b.commitment.due.Some? && a.commitment.due.value <= b.commitment.due.value)
      && (a.bucket == b.bucket && a.bucket in {FreshOverdue, StaleOverdue} ==>
            a.commitment.due.Some? && b.commitment.due.Some? && a.commitment.due.value >= b.commitment.due.value)
      && (a.bucket == b.bucket == Unscheduled ==> a.commitment.created >= b.commitment.created)
      && (a.bucket == b.bucket && (a.commitment.due, a.commitment.created) == (b.commitment.due, b.commitment.created)
          ==> TextLe(a.commitment.id, b.commitment.id))
  {
    hide Sort, TextLe;
    ListingIsOrdered(cs, k);
    var all := Listing(cs, k);
    assert StandsBefore(all[i], all[j]);
    IsARow(cs, k, all[i]);
    IsARow(cs, k, all[j]);
  }

  lemma IsARow(cs: seq<Commitment>, k: Clock, r: Row)
    requires r in Listing(cs, k) && k.observed <= k.later
    ensures r.commitment in cs && Listed(r.commitment) && r == RowOf(r.commitment, k)
    ensures r.bucket == Unscheduled || r.commitment.due.Some?
  {
    ListingIsOrdered(cs, k);
    assert r in multiset(Listing(cs, k));
    assert r in Rows(cs, k);
    BucketsByDueTime(r.commitment, k);
  }

  // ---------------------------------------------------------------- counts

  function CountIn(rows: seq<Row>, b: Bucket): nat {
    if rows == [] then 0 else CountIn(rows[..|rows| - 1], b) + if rows[|rows| - 1].bucket == b then 1 else 0
  }

  /** The four counts add up to the number of rows. */
  lemma {:induction false} CountsAddUp(rows: seq<Row>)
    ensures CountIn(rows, FreshOverdue) + CountIn(rows, UpcomingBucket) + CountIn(rows, Unscheduled)
            + CountIn(rows, StaleOverdue) == |rows|
  {
    if rows != [] {
      CountsAddUp(rows[..|rows| - 1]);
    }
  }

  // ---------------------------------------------------------------- pages

  datatype Page = Page(items: seq<Row>, total: nat, counts: map<Bucket, nat>, next: Option<nat>)

  function Slice(all: seq<Row>, offset: nat, limit: Option<nat>): seq<Row> {
    if offset >= |all| then []
    else if limit.None? || offset + limit.value >= |all| then all[offset..]
    else all[offset..offset + limit.value]
  }

  method List(cs: seq<Commitment>, k: Clock, limit: Option<nat>, offset: nat) returns (page: Page)
    requires limit.Some? ==> limit.value >= 1
    ensures var all := Listing(cs, k);
      && page.items == Slice(all, offset, limit)
      && page.total == |all|
      && (forall b :: b in page.counts && page.counts[b] == CountIn(all, b))
      && page.next == (if offset + |page.items| < |all| then Some(offset + |page.items|) else None)
      && |page.items| == (if offset >= |all| then 0 else Min(limit.GetOr(|all|), |all| - offset))
      && (forall i | 0 <= i < |page.items| :: page.items[i] == all[offset + i])
  {
    hide Sort, StandsBefore;
    var rows: seq<Row> := [];
    for i := 0 to |cs|
      invariant rows == Rows(cs[..i], k)
    {
      assert cs[..i + 1][..i] == cs[..i];
      if Listed(cs[i]) {
        rows := rows + [RowOf(cs[i], k)];
      }
    }
    assert cs[..|cs|] == cs;
    var all := Sort(rows, StandsBefore);
    var counts := CountBuckets(all);
    CountsAddUp(all);
    var items := Slice(all, offset, limit);
    var next := offset + |items|;
    page := Page(items,
                 counts[FreshOverdue] + counts[UpcomingBucket] + counts[Unscheduled] + counts[StaleOverdue],
                 counts, if next < |all| then Some(next) else None);
  }

  method CountBuckets(all: seq<Row>) returns (counts: map<Bucket, nat>)
    ensures forall b :: b in counts && counts[b] == CountIn(all, b)
  {
    counts := map[FreshOverdue := 0, UpcomingBucket := 0, Unscheduled := 0, StaleOverdue := 0];
    forall b: Bucket
      ensures b in counts && counts[b] == CountIn(all[..0], b)
    {
      match b
      case FreshOverdue =>
      case UpcomingBucket =>
      case Unscheduled =>
      case StaleOverdue =>
    }
    for i := 0 to |all|
      invariant forall b :: b in counts && counts[b] == CountIn(all[..i], b)
    {
      assert all[..i + 1][..i] == all[..i];
      counts := counts[all[i].bucket := counts[all[i].bucket] + 1];
    }
    assert all[..|all|] == all;
  }

  /** All the pages from `offset` on, each followed by the one its next offset names. */
  function Followed(all: seq<Row>, offset: nat, limit: nat): seq<Row>
    requires limit >= 1
    decreases |all| - offset
  {
    var items := Slice(all, offset, Some(limit));
    if offset + |items| < |all| then items + Followed(all, offset + |items|, limit) else items
  }

  /** Following the next offset ends, and gives every row exactly once and in order. */
  lemma {:induction false} PagesCoverTheList(all: seq<Row>, offset: nat, limit: nat)
    requires limit >= 1 && offset <= |all|
    ensures Followed(all, offset, limit) == all[offset..]
    decreases |all| - offset
  {
    var items := Slice(all, offset, Some(limit));
    if offset + |items| < |all| {
      PagesCoverTheList(all, offset + |items|, limit);
      assert all[offset..] == items + all[offset + |items|..];
    }
  }

  lemma PagesFromTheStart(all: seq<Row>, limit: nat)
    requires limit >= 1
    ensures Followed(all, 0, limit) == all
  {
    PagesCoverTheList(all, 0, limit);
    assert all[0..] == all;
  }
}
