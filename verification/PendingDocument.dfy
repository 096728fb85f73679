/** The pending-resolution document: expiry, compaction, and what they keep. */
module PendingDocument {
  import opened Common
  import opened Frames
  import opened PendingRecords
  import opened Sorting

  type Rows = seq<Record>

  datatype Limits = Limits(max: nat, retention: nat)

  predicate ValidLimits(lim: Limits) {
    1 <= lim.max <= 1000 && lim.retention <= lim.max
  }

  const DOCUMENT_CAP := 1000

  predicate Open(r: Record) {
    r.status == Pending
  }

  predicate Due(r: Record, now: Time) {
    Open(r) && r.expiresAt <= now
  }

  predicate Current(r: Record, now: Time) {
    Open(r) && now < r.expiresAt
  }

  predicate DistinctIds(rows: Rows) {
    forall i, j | 0 <= i < j < |rows| :: rows[i].id != rows[j].id
  }

  predicate OneOpenEach(rows: Rows) {
    forall i, j | 0 <= i < j < |rows| ::
      Open(rows[i]) && Open(rows[j]) ==> rows[i].conversation != rows[j].conversation
  }

  /** What the document model demands, at a clock that has not run backwards. */
  predicate ValidDocument(rows: Rows, now: Time) {
    && DistinctIds(rows) && OneOpenEach(rows)
    && forall r | r in rows :: ValidRecord(r) && r.createdAt <= now
  }

  // ---------------------------------------------------------------- expiry

  function ExpireRow(r: Record, now: Time): Record {
    if Due(r, now) then r.(status := Expired, updatedAt := now, reason := Some("ttl_expired")) else r
  }

  function Expire(rows: Rows, now: Time): Rows {
    seq(|rows|, i requires 0 <= i < |rows| => ExpireRow(rows[i], now))
  }

  // ---------------------------------------------------------------- compaction

  function Pendings(rows: Rows): (p: Rows)
    ensures |p| <= |rows|
  {
    if rows == [] then []
    else
      var last := rows[|rows| - 1];
      Pendings(rows[..|rows| - 1]) + if Open(last) then [last] else []
  }

  function Terminals(rows: Rows): (p: Rows)
    ensures |p| <= |rows|
  {
    if rows == [] then []
    else
      var last := rows[|rows| - 1];
      Terminals(rows[..|rows| - 1]) + if Open(last) then [] else [last]
  }

  /** Older first, and by id among equals. */
  predicate NotNewer(a: Record, b: Record) {
    a.updatedAt < b.updatedAt || (a.updatedAt == b.updatedAt && TextLe(a.id, b.id))
  }

  function SortedTerminals(rows: Rows): Rows {
    Sort(Terminals(rows), NotNewer)
  }

  function Room(rows: Rows, lim: Limits): nat
    requires |Pendings(rows)| <= lim.max
  {
    if lim.retention < lim.max - |Pendings(rows)| then lim.retention else lim.max - |Pendings(rows)|
  }

  function Newest(sorted: Rows, n: nat): Rows {
    if |sorted| <= n then sorted else sorted[|sorted| - n..]
  }

  /** The newest terminals there is room for, then every pending record; nothing when those alone are too many. */
  function Compact(rows: Rows, lim: Limits): Option<Rows> {
    if |Pendings(rows)| > lim.max then None
    else Some(Newest(SortedTerminals(rows), Room(rows, lim)) + Pendings(rows))
  }

  // ---------------------------------------------------------------- facts about the parts

  lemma NotNewerOrders()
    ensures Ordering(NotNewer)
  {
    forall a: Record, b: Record
      ensures NotNewer(a, b) || NotNewer(b, a)
    {
      TextTotal(a.id, b.id);
    }
    forall a: Record, b: Record, c: Record | NotNewer(a, b) && NotNewer(b, c)
      ensures NotNewer(a, c)
    {
      if a.updatedAt == b.updatedAt == c.updatedAt {
        TextTransitive(a.id, b.id, c.id);
      }
    }
  }

  lemma {:induction false} PartsCover(rows: Rows)
    ensures multiset(Pendings(rows)) + multiset(Terminals(rows)) == multiset(rows)
    ensures forall r | r in Pendings(rows) :: Open(r) && r in rows
    ensures forall r | r in Terminals(rows) :: !Open(r) && r in rows
    ensures forall r | r in rows :: if Open(r) then r in Pendings(rows) else r in Terminals(rows)
    ensures |Pendings(rows)| + |Terminals(rows)| == |rows|
  {
    hide Open;
    if rows != [] {
      PartsCover(rows[..|rows| - 1]);
      assert rows == rows[..|rows| - 1] + [rows[|rows| - 1]];
    }
  }

  lemma {:induction false} PendingsOfSum(a: Rows, b: Rows)
    ensures Pendings(a + b) == Pendings(a) + Pendings(b)
  {
    hide Open;
    if b == [] {
      assert a + b == a;
    } else {
      PendingsOfSum(a, b[..|b| - 1]);
      assert (a + b)[..|a + b| - 1] == a + b[..|b| - 1] && (a + b)[|a + b| - 1] == b[|b| - 1];
    }
  }

  lemma {:induction false} TerminalsOfSum(a: Rows, b: Rows)
    ensures Terminals(a + b) == Terminals(a) + Terminals(b)
  {
    hide Open;
    if b == [] {
      assert a + b == a;
    } else {
      TerminalsOfSum(a, b[..|b| - 1]);
      assert (a + b)[..|a + b| - 1] == a + b[..|b| - 1] && (a + b)[|a + b| - 1] == b[|b| - 1];
    }
  }

  lemma {:induction false} AllOpen(rows: Rows)
    requires forall r | r in rows :: Open(r)
    ensures Pendings(rows) == rows && Terminals(rows) == []
  {
    if rows != [] {
      AllOpen(rows[..|rows| - 1]);
      assert rows == rows[..|rows| - 1] + [rows[|rows| - 1]];
    }
  }

  lemma {:induction false} NoneOpen(rows: Rows)
    requires forall r | r in rows :: !Open(r)
    ensures Terminals(rows) == rows && Pendings(rows) == []
  {
    if rows != [] {
      NoneOpen(rows[..|rows| - 1]);
      assert rows == rows[..|rows| - 1] + [rows[|rows| - 1]];
    }
  }

  lemma SameElements(a: Rows, b: Rows, r: Record)
    requires multiset(a) == multiset(b)
    ensures r in a <==> r in b
  {
    assert r in a <==> r in multiset(a);
    assert r in b <==> r in multiset(b);
  }

  lemma SortedTerminalsAre(rows: Rows)
    ensures var s := SortedTerminals(rows);
      && Sorted(s, NotNewer) && multiset(s) == multiset(Terminals(rows)) && |s| == |Terminals(rows)|
      && forall r :: r in s <==> r in rows && !Open(r)
  {
    NotNewerOrders();
    SortSorts(Terminals(rows), NotNewer);
    PartsCover(rows);
    forall r
      ensures r in SortedTerminals(rows) <==> r in rows && !Open(r)
    {
      SameElements(SortedTerminals(rows), Terminals(rows), r);
    }
  }

  // ---------------------------------------------------------------- compaction: the promises

  function Retained(rows: Rows, lim: Limits): Rows
    requires |Pendings(rows)| <= lim.max
  {
    Newest(SortedTerminals(rows), Room(rows, lim))
  }

  lemma NewestIsATail(sorted: Rows, n: nat)
    requires Sorted(sorted, NotNewer)
    ensures Sorted(Newest(sorted, n), NotNewer) && |Newest(sorted, n)| == Min(|sorted|, n)
    ensures forall r | r in Newest(sorted, n) :: r in sorted
  {
    hide NotNewer;
  }

  lemma RetainedAre(rows: Rows, lim: Limits)
    requires |Pendings(rows)| <= lim.max
    ensures var keep := Retained(rows, lim);
      && Sorted(keep, NotNewer) && (forall r | r in keep :: !Open(r) && r in rows)
      && |keep| == Min(|Terminals(rows)|, Min(lim.retention, lim.max - |Pendings(rows)|))
  {
    hide Terminals, Pendings, Open, NotNewer, SortedTerminals, Sorted, Newest;
    SortedTerminalsAre(rows);
    NewestIsATail(SortedTerminals(rows), Room(rows, lim));
  }

  lemma CompactParts(rows: Rows, lim: Limits)
    requires |Pendings(rows)| <= lim.max
    ensures var kept := Compact(rows, lim).value;
      Terminals(kept) == Retained(rows, lim) && Pendings(kept) == Pendings(rows)
  {
    hide Sort, SortedTerminals, Newest;
    var keep, open := Retained(rows, lim), Pendings(rows);
    RetainedAre(rows, lim);
    PartsCover(rows);
    hide Open, Pendings, Terminals, Min;
    NoneOpen(keep);
    AllOpen(open);
    PendingsOfSum(keep, open);
    TerminalsOfSum(keep, open);
  }

  lemma RetainedAreNewest(rows: Rows, lim: Limits)
    requires |Pendings(rows)| <= lim.max
    ensures var keep, all := Retained(rows, lim), multiset(Terminals(rows));
      multiset(keep) <= all && forall x, y | x in keep && y in all - multiset(keep) :: NotNewer(y, x)
  {
    hide Terminals, Pendings, Open, Sort, TextLe, NotNewer, Room;
    SortedTerminalsAre(rows);
    var sorted, keep := SortedTerminals(rows), Retained(rows, lim);
    var dropped := sorted[..|sorted| - |keep|];
    assert sorted == dropped + keep;
    assert multiset(sorted) == multiset(dropped) + multiset(keep);
    forall x, y | x in keep && y in multiset(dropped)
      ensures NotNewer(y, x)
    {
      var i :| 0 <= i < |keep| && keep[i] == x;
      var j :| 0 <= j < |dropped| && dropped[j] == y;
      assert sorted[|dropped| + i] == x && sorted[j] == y;
    }
  }

  /**
   * Compaction keeps every pending record and exactly the newest terminals: it drops the oldest, as few as the
   * limits force, and gives up only when the pending records alone are too many.
   */
  lemma CompactionKeepsTheNewest(rows: Rows, lim: Limits)
    requires ValidLimits(lim)
    ensures Compact(rows, lim).Some? <==> |Pendings(rows)| <= lim.max
    ensures Compact(rows, lim).Some? ==>
      var kept, all := Compact(rows, lim).value, multiset(Terminals(rows));
      && |kept| <= lim.max && Pendings(kept) == Pendings(rows)
      && |Terminals(kept)| == Min(|Terminals(rows)|, Min(lim.retention, lim.max - |Pendings(rows)|))
      && multiset(Terminals(kept)) <= all
      && (forall x, y | x in Terminals(kept) && y in all - multiset(Terminals(kept)) ::
            y.updatedAt < x.updatedAt || (y.updatedAt == x.updatedAt && TextLe(y.id, x.id)))
  {
    hide Terminals, Pendings, Open, Sort, SortedTerminals, Newest, TextLe, Room;
    if |Pendings(rows)| <= lim.max {
      CompactParts(rows, lim);
      RetainedAre(rows, lim);
      RetainedAreNewest(rows, lim);
    }
  }

  /** Compacting again changes nothing. */
  lemma CompactionIsIdempotent(rows: Rows, lim: Limits)
    requires Compact(rows, lim).Some?
    ensures Compact(Compact(rows, lim).value, lim) == Compact(rows, lim)
  {
    hide Terminals, Pendings, Open, Sort, TextLe, NotNewer;
    CompactParts(rows, lim);
    RetainedAre(rows, lim);
    SortedStays(Retained(rows, lim), NotNewer);
  }

  /** A record is kept or dropped whole: what is left was there, and every open record is left. */
  lemma CompactionOnlyDrops(rows: Rows, lim: Limits, r: Record)
    requires Compact(rows, lim).Some?
    ensures r in Compact(rows, lim).value ==> r in rows
    ensures Open(r) ==> (r in Compact(rows, lim).value <==> r in rows)
  {
    hide Sort, SortedTerminals, Newest, Room;
    RetainedAre(rows, lim);
    PartsCover(rows);
  }
}
