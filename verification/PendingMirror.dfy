/** The lazily expiring, compacting document refines an eager map from conversation to live question. */
module PendingMirror {
  import opened Common
  import opened Frames
  import opened PendingRecords
  import opened PendingDocument

  datatype Op =
    | Save(record: Record, supersede: bool)
    | Active(conversation: ConversationId)
    | Get(id: ResolutionId)
    | Transition(id: ResolutionId, status: Status, interpretation: Option<Frame>, reason: Option<string>,
      question: Option<Question>)
    | ExpireDue

  datatype Answer = Stored | Found(record: Option<Record>) | Changed(now: Record) | Count(expired: nat) | Failed

  // ---------------------------------------------------------------- the document

  function IndexById(rows: Rows, id: ResolutionId): (i: Option<nat>)
    ensures i.Some? ==> i.value < |rows| && rows[i.value].id == id
    ensures i.None? ==> forall r | r in rows :: r.id != id
  {
    if rows == [] then None
    else if rows[0].id == id then Some(0)
    else match IndexById(rows[1..], id)
      case None => None
      case Some(i) => Some(i + 1)
  }

  function IndexOfActive(rows: Rows, c: ConversationId): (i: Option<nat>)
    ensures i.Some? ==> i.value < |rows| && rows[i.value].conversation == c && Open(rows[i.value])
    ensures i.None? ==> forall r | r in rows :: r.conversation == c ==> !Open(r)
  {
    if rows == [] then None
    else if rows[0].conversation == c && Open(rows[0]) then Some(0)
    else match IndexOfActive(rows[1..], c)
      case None => None
      case Some(i) => Some(i + 1)
  }

  /** The expired document is written back only when something expired. */
  function Settle(rows: Rows, now: Time, lim: Limits): Rows {
    if Expire(rows, now) == rows then rows else Compact(Expire(rows, now), lim).GetOr(rows)
  }

  function SupersededRow(r: Record, now: Time): Record {
    r.(status := Superseded, updatedAt := now, reason := Some("superseded_by_new_resolution"))
  }

  /** The document a save would write, before compaction. */
  function Appended(rows: Rows, r: Record, now: Time): Rows {
    match IndexOfActive(rows, r.conversation)
    case None => rows + [r]
    case Some(i) => rows[i := SupersededRow(rows[i], now)] + [r]
  }

  function Saved(rows: Rows, r: Record, supersede: bool, now: Time, lim: Limits): (Rows, Answer) {
    var d := Expire(rows, now);
    if r.expiresAt <= now || IndexById(d, r.id).Some? then (Settle(rows, now, lim), Failed)
    else if IndexOfActive(d, r.conversation).Some? && !supersede then (Settle(rows, now, lim), Failed)
    else if |d| + 1 > DOCUMENT_CAP then (rows, Failed)
    else
      match Compact(Appended(d, r, now), lim)
      case None => (rows, Failed)
      case Some(kept) => (kept, Stored)
  }

  function Transitioned(rows: Rows, op: Op, now: Time, lim: Limits): (Rows, Answer)
    requires op.Transition?
  {
    var d := Expire(rows, now);
    match IndexById(d, op.id)
    case None => (Settle(rows, now, lim), Failed)
    case Some(i) =>
      if !Open(d[i]) then (Settle(rows, now, lim), Failed)
      else
        match Moved(d[i], op.status, op.interpretation, op.reason, op.question, now)
        case None => (rows, Failed)
        case Some(u) =>
          match Compact(d[i := u], lim)
          case None => (rows, Failed)
          case Some(kept) => (kept, Changed(u))
  }

  /** The number of records that the clock expires. */
  function DueCount(rows: Rows, now: Time): nat {
    if rows == [] then 0 else DueCount(rows[..|rows| - 1], now) + if Due(rows[|rows| - 1], now) then 1 else 0
  }

  function Step(rows: Rows, op: Op, now: Time, lim: Limits): (Rows, Answer) {
    match op
    case Save(r, supersede) => Saved(rows, r, supersede, now, lim)
    case Active(c) =>
      var d := Expire(rows, now);
      (Settle(rows, now, lim), Found(match IndexOfActive(d, c) case None => None case Some(i) => Some(d[i])))
    case Get(id) =>
      var d := Expire(rows, now);
      (Settle(rows, now, lim), Found(match IndexById(d, id) case None => None case Some(i) => Some(d[i])))
    case Transition(_, _, _, _, _) => Transitioned(rows, op, now, lim)
    case ExpireDue => (Settle(rows, now, lim), Count(DueCount(rows, now)))
  }

  // ---------------------------------------------------------------- the eager map

  type Eager = map<ConversationId, Record>

  function Unexpired(m: Eager, now: Time): Eager {
    map c | c in m && now < m[c].expiresAt :: m[c]
  }

  ghost function Holder(m: Eager, id: ResolutionId): (c: Option<ConversationId>)
    ensures c.Some? ==> c.value in m && m[c.value].id == id
    ensures c.None? ==> forall k | k in m :: m[k].id != id
  {
    if k :| k in m && m[k].id == id then Some(k) else None
  }

  /** One live question per conversation, gone the moment it expires; no terminal records, no order. */
  ghost function EagerStep(m: Eager, op: Op, now: Time, lim: Limits): (Eager, Answer) {
    var l := Unexpired(m, now);
    match op
    case Save(r, supersede) =>
      if r.expiresAt <= now || (r.conversation in l && !supersede) || |l[r.conversation := r]| > lim.max then
        (l, Failed)
      else (l[r.conversation := r], Stored)
    case Active(c) => (l, Found(if c in l then Some(l[c]) else None))
    case Transition(id, status, interpretation, reason, question) =>
      (match Holder(l, id)
       case None => (l, Failed)
       case Some(c) =>
         match Moved(l[c], status, interpretation, reason, question, now)
         case None => (l, Failed)
         case Some(u) => if Open(u) then (l[c := u], Changed(u)) else (l - {c}, Changed(u)))
    case _ => (l, Failed)
  }

  // ---------------------------------------------------------------- the simulation

  /** `m` holds exactly the questions of `rows` that are live at `now`. */
  ghost predicate Mirrors(rows: Rows, now: Time, m: Eager) {
    && (forall r | r in rows && Current(r, now) :: r.conversation in m && m[r.conversation] == r)
    && (forall c | c in m :: m[c] in rows && Current(m[c], now) && m[c].conversation == c)
  }

  predicate ValidStore(rows: Rows, now: Time, lim: Limits) {
    ValidLimits(lim) && ValidDocument(rows, now) && |rows| <= lim.max
  }

  // ---------------------------------------------------------------- identity

  lemma {:induction false} DistinctMeansOnce(rows: Rows)
    requires DistinctIds(rows)
    ensures forall r | r in rows :: multiset(rows)[r] == 1
  {
    if rows != [] {
      var front, last := rows[..|rows| - 1], rows[|rows| - 1];
      assert rows == front + [last];
      DistinctMeansOnce(front);
      assert forall i | 0 <= i < |front| :: front[i] == rows[i] && rows[i].id != last.id;
    }
  }

  lemma TwiceCountsTwo(rows: Rows, i: nat, j: nat)
    requires i < j < |rows|
    ensures rows[i] == rows[j] ==> multiset(rows)[rows[j]] >= 2
  {
    assert rows == rows[..j] + [rows[j]] + rows[j + 1..];
    assert rows[i] in rows[..j];
  }

  lemma OnceMeansDistinct(all: Rows, rows: Rows)
    requires DistinctIds(all) && multiset(rows) <= multiset(all)
    ensures DistinctIds(rows)
  {
    DistinctMeansOnce(all);
    forall i, j | 0 <= i < j < |rows|
      ensures rows[i].id != rows[j].id
    {
      TwiceCountsTwo(rows, i, j);
      assert rows[i] in multiset(rows) && rows[j] in multiset(rows);
      assert rows[i] in all && rows[j] in all;
      assert rows[i] != rows[j];
      OtherRecordOtherId(all, rows[i], rows[j]);
    }
  }

  lemma OtherRecordOtherId(rows: Rows, a: Record, b: Record)
    requires DistinctIds(rows) && a in rows && b in rows && a != b
    ensures a.id != b.id
  {
    var i :| 0 <= i < |rows| && rows[i] == a;
    var j :| 0 <= j < |rows| && rows[j] == b;
  }

  /**
    * A lookup finds nothing exactly for an unknown id; a record that is found waits only before its expiry, and one
    * that was due is found as expired, otherwise as it was.
    */
  lemma GetFinds(rows: Rows, id: ResolutionId, t: Time, now: Time, lim: Limits)
    requires ValidStore(rows, t, lim)
    ensures var answer := Step(rows, Get(id), now, lim).1;
      && answer.Found?
      && (answer.record.None? <==> forall r | r in rows :: r.id != id)
      && forall r | r in rows && r.id == id ::
           var found := answer.record.value;
           && (found.status == Pending <==> r.status == Pending && now < r.expiresAt)
           && (if r.status == Pending && r.expiresAt <= now then
                 found == r.(status := Expired, updatedAt := now, reason := Some("ttl_expired"))
               else found == r)
  {
    var d, i := Expire(rows, now), IndexById(Expire(rows, now), id);
    if i.Some? {
      forall r | r in rows && r.id == id
        ensures r == rows[i.value]
      {
        assert d[i.value].id == rows[i.value].id;
        if r != rows[i.value] {
          OtherRecordOtherId(rows, r, rows[i.value]);
        }
      }
      assert rows[i.value] in rows;
    } else {
      forall r | r in rows
        ensures r.id != id
      {
        var k :| 0 <= k < |rows| && rows[k] == r;
        assert d[k] in d && d[k].id == r.id;
      }
    }
  }

  // ---------------------------------------------------------------- each part keeps the mirror

  lemma LaterMirror(rows: Rows, t: Time, now: Time, m: Eager)
    requires Mirrors(rows, t, m) && t <= now
    ensures Mirrors(rows, now, Unexpired(m, now))
  {
  }

  lemma ExpiryKeepsDocument(rows: Rows, t: Time, now: Time)
    requires ValidDocument(rows, t) && t <= now
    ensures ValidDocument(Expire(rows, now), now)
    ensures forall r | r in Expire(rows, now) :: Open(r) ==> Current(r, now) && r in rows
  {
    var d := Expire(rows, now);
    forall i | 0 <= i < |d|
      ensures ValidRecord(d[i]) && d[i].createdAt <= now && d[i].id == rows[i].id
      ensures d[i].conversation == rows[i].conversation
      ensures Open(d[i]) ==> d[i] == rows[i] && Current(d[i], now)
    {
      assert rows[i] in rows && ValidRecord(rows[i]);
    }
  }

  lemma ExpiryKeepsMirror(rows: Rows, now: Time, m: Eager)
    requires Mirrors(rows, now, m)
    ensures Mirrors(Expire(rows, now), now, m)
  {
    var d := Expire(rows, now);
    forall c | c in m
      ensures m[c] in d
    {
      var i :| 0 <= i < |rows| && rows[i] == m[c];
      assert d[i] == m[c];
    }
    forall r | r in d && Current(r, now)
      ensures r in rows
    {
      var i :| 0 <= i < |d| && d[i] == r;
      assert rows[i] == r;
    }
  }

  lemma CompactionKeepsDocument(rows: Rows, now: Time, lim: Limits)
    requires ValidLimits(lim) && ValidDocument(rows, now) && Compact(rows, lim).Some?
    ensures ValidStore(Compact(rows, lim).value, now, lim)
  {
    hide ValidRecord, NotNewer, Retained, SortedTerminals;
    var kept := Compact(rows, lim).value;
    CompactionKeepsTheNewest(rows, lim);
    CompactBag(rows, lim);
    OnceMeansDistinct(rows, kept);
    forall r | r in kept
      ensures r in rows
    {
      CompactionOnlyDrops(rows, lim, r);
    }
    forall i, j | 0 <= i < j < |kept| && Open(kept[i]) && Open(kept[j])
      ensures kept[i].conversation != kept[j].conversation
    {
      assert kept[i] in kept && kept[j] in kept && kept[i] != kept[j];
      OtherRecordOtherConversation(rows, kept[i], kept[j]);
    }
  }

  lemma OtherRecordOtherConversation(rows: Rows, a: Record, b: Record)
    requires OneOpenEach(rows) && a in rows && b in rows && Open(a) && Open(b) && a != b
    ensures a.conversation != b.conversation
  {
    var i :| 0 <= i < |rows| && rows[i] == a;
    var j :| 0 <= j < |rows| && rows[j] == b;
  }

  lemma CompactBag(rows: Rows, lim: Limits)
    requires ValidLimits(lim) && Compact(rows, lim).Some?
    ensures multiset(Compact(rows, lim).value) <= multiset(rows)
  {
    hide SortedTerminals, Newest, Room, NotNewer;
    RetainedAreNewest(rows, lim);
    PartsCover(rows);
  }

  lemma CompactionKeepsMirror(rows: Rows, now: Time, lim: Limits, m: Eager)
    requires Compact(rows, lim).Some? && Mirrors(rows, now, m)
    ensures Mirrors(Compact(rows, lim).value, now, m)
  {
    hide Compact;
    forall r
      ensures r in Compact(rows, lim).value ==> r in rows
      ensures Open(r) ==> (r in Compact(rows, lim).value <==> r in rows)
    {
      CompactionOnlyDrops(rows, lim, r);
    }
  }

  predicate AllCurrent(rows: Rows, now: Time) {
    forall r | r in rows :: Open(r) ==> Current(r, now)
  }

  lemma SettlingKeepsMirror(rows: Rows, t: Time, now: Time, lim: Limits, m: Eager)
    requires ValidStore(rows, t, lim) && Mirrors(rows, t, m) && t <= now
    ensures ValidStore(Settle(rows, now, lim), now, lim)
    ensures Mirrors(Settle(rows, now, lim), now, Unexpired(m, now))
  {
    hide Mirrors, ValidDocument, Unexpired, Expire, Retained;
    var d := Expire(rows, now);
    LoadedKeepsMirror(rows, t, now, lim, m);
    if d != rows {
      CompactionKeepsDocument(d, now, lim);
      CompactionKeepsMirror(d, now, lim, Unexpired(m, now));
    }
  }

  /** What a call finds after expiry mirrors the eager map without its expired questions. */
  lemma LoadedKeepsMirror(rows: Rows, t: Time, now: Time, lim: Limits, m: Eager)
    requires ValidStore(rows, t, lim) && Mirrors(rows, t, m) && t <= now
    ensures var d := Expire(rows, now);
      && ValidDocument(d, now) && AllCurrent(d, now) && Mirrors(d, now, Unexpired(m, now))
      && |d| <= lim.max && Compact(d, lim).Some?
  {
    hide Mirrors, ValidDocument, Unexpired;
    ExpiryKeepsDocument(rows, t, now);
    LaterMirror(rows, t, now, m);
    ExpiryKeepsMirror(rows, now, Unexpired(m, now));
  }

  function Conversations(rows: Rows): seq<string> {
    seq(|rows|, i requires 0 <= i < |rows| => rows[i].conversation)
  }

  lemma PendingConversationsDiffer(rows: Rows)
    requires DistinctIds(rows) && OneOpenEach(rows)
    ensures Distinct(Conversations(Pendings(rows)))
  {
    var p := Pendings(rows);
    PartsCover(rows);
    hide Pendings;
    OnceMeansDistinct(rows, p);
    forall i, j | 0 <= i < j < |p|
      ensures p[i].conversation != p[j].conversation
    {
      assert p[i] in p && p[j] in p && p[i] != p[j];
      OtherRecordOtherConversation(rows, p[i], p[j]);
    }
  }

  lemma NamesAreKeys(p: Rows, m: Eager)
    requires forall r | r in p :: r.conversation in m
    requires forall c | c in m :: m[c] in p && m[c].conversation == c
    ensures (set x | x in Conversations(p)) == m.Keys
  {
    var names := Conversations(p);
    forall c | c in m
      ensures c in names
    {
      var i :| 0 <= i < |p| && p[i] == m[c];
      assert names[i] == c;
    }
    forall c | c in names
      ensures c in m
    {
      var i :| 0 <= i < |names| && names[i] == c;
      assert p[i] in p;
    }
  }

  /** One map entry per pending record. */
  lemma MirrorSize(rows: Rows, now: Time, m: Eager)
    requires ValidDocument(rows, now) && AllCurrent(rows, now) && Mirrors(rows, now, m)
    ensures |m| == |Pendings(rows)|
  {
    PartsCover(rows);
    hide Pendings, ValidRecord;
    var names := Conversations(Pendings(rows));
    PendingConversationsDiffer(rows);
    DistinctCardinality(names);
    NamesAreKeys(Pendings(rows), m);
    assert |m.Keys| == |m|;
  }

  lemma SupersededIsValid(r: Record, now: Time)
    requires ValidRecord(r) && Open(r) && r.createdAt <= now
    ensures ValidRecord(SupersededRow(r, now))
  {
  }

  lemma ReplacedKeepsDocument(d: Rows, i: nat, u: Record, now: Time)
    requires ValidDocument(d, now) && i < |d| && Open(d[i])
    requires ValidRecord(u) && u.id == d[i].id && u.conversation == d[i].conversation && u.createdAt == d[i].createdAt
    ensures ValidDocument(d[i := u], now)
  {
    hide ValidRecord;
    assert d[i] in d;
    forall r | r in d[i := u]
      ensures r == u || r in d
    {
    }
  }

  lemma ReplacedKeepsMirror(d: Rows, i: nat, u: Record, now: Time, l: Eager)
    requires ValidDocument(d, now) && AllCurrent(d, now) && Mirrors(d, now, l) && i < |d| && Open(d[i])
    requires u.id == d[i].id && u.conversation == d[i].conversation && u.expiresAt == d[i].expiresAt
    ensures var after := if Open(u) then l[u.conversation := u] else l - {u.conversation};
      Mirrors(d[i := u], now, after) && AllCurrent(d[i := u], now)
  {
    hide ValidRecord;
    var now' := d[i := u];
    var after := if Open(u) then l[u.conversation := u] else l - {u.conversation};
    assert d[i] in d && l[u.conversation] == d[i];
    forall r | r in now'
      ensures r == u || (r in d && r.id != u.id && (Open(r) ==> r.conversation != u.conversation))
    {
      var j :| 0 <= j < |now'| && now'[j] == r;
    }
    assert now'[i] == u;
    forall c | c in after
      ensures after[c] in now' && Current(after[c], now) && after[c].conversation == c
    {
      if c != u.conversation {
        var j :| 0 <= j < |d| && d[j] == l[c];
        assert now'[j] == l[c];
      }
    }
  }

  lemma AddedKeepsDocument(d: Rows, r: Record, now: Time)
    requires ValidDocument(d, now) && ValidRecord(r) && r.createdAt <= now
    requires forall x | x in d :: x.id != r.id && (Open(x) ==> x.conversation != r.conversation)
    ensures ValidDocument(d + [r], now)
  {
    hide ValidRecord;
    forall i | 0 <= i < |d|
      ensures d[i].id != r.id && (Open(d[i]) ==> d[i].conversation != r.conversation)
    {
      assert d[i] in d;
    }
  }

  lemma AddedKeepsMirror(d: Rows, r: Record, now: Time, l: Eager)
    requires Mirrors(d, now, l) && AllCurrent(d, now) && Current(r, now)
    requires forall x | x in d :: Open(x) ==> x.conversation != r.conversation
    ensures Mirrors(d + [r], now, l[r.conversation := r]) && AllCurrent(d + [r], now)
  {
  }

  lemma AppendedKeepsMirror(d: Rows, r: Record, now: Time, l: Eager)
    requires ValidDocument(d, now) && AllCurrent(d, now) && Mirrors(d, now, l)
    requires ValidRecord(r) && r.createdAt <= now && Current(r, now) && forall x | x in d :: x.id != r.id
    ensures var a := Appended(d, r, now);
      ValidDocument(a, now) && AllCurrent(a, now) && Mirrors(a, now, l[r.conversation := r])
      && (r.conversation in l <==> IndexOfActive(d, r.conversation).Some?)
  {
    hide ValidRecord, ValidDocument;
    match IndexOfActive(d, r.conversation) {
      case None =>
        AddedKeepsDocument(d, r, now);
        AddedKeepsMirror(d, r, now, l);
      case Some(i) =>
        var u := SupersededRow(d[i], now);
        DocumentRow(d, now, i);
        SupersededIsValid(d[i], now);
        ReplacedKeepsDocument(d, i, u, now);
        ReplacedKeepsMirror(d, i, u, now, l);
        NoOtherOpen(d, i, u, now);
        AddedKeepsDocument(d[i := u], r, now);
        AddedKeepsMirror(d[i := u], r, now, l - {u.conversation});
        assert (l - {u.conversation})[r.conversation := r] == l[r.conversation := r];
    }
  }

  lemma DocumentRow(d: Rows, now: Time, i: nat)
    requires ValidDocument(d, now) && i < |d|
    ensures ValidRecord(d[i]) && d[i].createdAt <= now && d[i] in d
  {
  }

  lemma NoOtherOpen(d: Rows, i: nat, u: Record, now: Time)
    requires ValidDocument(d, now) && i < |d| && Open(d[i]) && !Open(u) && u.id == d[i].id
    ensures forall x | x in d[i := u] :: Open(x) ==> x.conversation != d[i].conversation
    ensures forall x | x in d[i := u] :: x == u || x in d
  {
    hide ValidRecord;
    forall x | x in d[i := u]
      ensures (Open(x) ==> x.conversation != d[i].conversation) && (x == u || x in d)
    {
      var j :| 0 <= j < |d| && d[i := u][j] == x;
    }
  }

  // ---------------------------------------------------------------- one operation

  /** What a caller hands to an operation: a fresh, valid, pending record that is not from the future. */
  predicate Acceptable(op: Op, rows: Rows, now: Time) {
    op.Save? ==>
      && ValidRecord(op.record) && Open(op.record) && op.record.createdAt <= now
      && forall r | r in rows :: r.id != op.record.id
  }

  /** Operations whose answer an eager map can give. */
  predicate Observable(op: Op) {
    op.Save? || op.Active? || op.Transition?
  }

  /** After the step both agree: on the answer, and on what is live. */
  ghost predicate Agrees(rows: Rows, op: Op, now: Time, lim: Limits, m: Eager) {
    var (rows', a), (m', b) := Step(rows, op, now, lim), EagerStep(m, op, now, lim);
    ValidStore(rows', now, lim) && Mirrors(rows', now, m') && (Observable(op) ==> a == b)
  }

  lemma SameIdsAfterExpiry(rows: Rows, now: Time, id: ResolutionId)
    requires forall r | r in rows :: r.id != id
    ensures forall r | r in Expire(rows, now) :: r.id != id
  {
    forall i | 0 <= i < |rows|
      ensures Expire(rows, now)[i].id != id
    {
      assert rows[i] in rows;
    }
  }

  lemma UntouchedKeepsMirror(rows: Rows, t: Time, now: Time, lim: Limits, m: Eager)
    requires ValidStore(rows, t, lim) && Mirrors(rows, t, m) && t <= now
    ensures ValidStore(rows, now, lim) && Mirrors(rows, now, Unexpired(m, now))
  {
    LaterMirror(rows, t, now, m);
  }

  lemma AppendedStep(d: Rows, r: Record, now: Time, lim: Limits, l: Eager)
    requires ValidLimits(lim) && ValidDocument(d, now) && AllCurrent(d, now) && Mirrors(d, now, l)
    requires ValidRecord(r) && r.createdAt <= now && Current(r, now) && forall x | x in d :: x.id != r.id
    ensures var kept, l' := Compact(Appended(d, r, now), lim), l[r.conversation := r];
      if |l'| > lim.max then kept.None?
        else kept.Some? && ValidStore(kept.value, now, lim) && Mirrors(kept.value, now, l')
    ensures r.conversation in l <==> IndexOfActive(d, r.conversation).Some?
  {
    hide Mirrors, ValidDocument, ValidRecord, Appended, AllCurrent, Pendings, Retained;
    var a, l' := Appended(d, r, now), l[r.conversation := r];
    AppendedKeepsMirror(d, r, now, l);
    MirrorSize(a, now, l');
    if Compact(a, lim).Some? {
      CompactionKeepsDocument(a, now, lim);
      CompactionKeepsMirror(a, now, lim, l');
    }
  }

  lemma SaveAgrees(rows: Rows, op: Op, t: Time, now: Time, lim: Limits, m: Eager)
    requires ValidStore(rows, t, lim) && Mirrors(rows, t, m) && t <= now
    requires |rows| < DOCUMENT_CAP && op.Save? && Acceptable(op, rows, now)
    ensures Agrees(rows, op, now, lim, m)
  {
    hide Mirrors, ValidDocument, Unexpired, Expire, Settle, ValidRecord, Compact, Appended, AllCurrent;
    var r, d, l := op.record, Expire(rows, now), Unexpired(m, now);
    SettlingKeepsMirror(rows, t, now, lim, m);
    LoadedKeepsMirror(rows, t, now, lim, m);
    UntouchedKeepsMirror(rows, t, now, lim, m);
    SameIdsAfterExpiry(rows, now, r.id);
    SameSizeAfterExpiry(rows, now);
    if now < r.expiresAt {
      AppendedStep(d, r, now, lim, l);
    }
  }

  lemma MovedKeepsIdentity(r: Record, op: Op, now: Time)
    requires op.Transition? && ValidRecord(r)
    ensures var u := Moved(r, op.status, op.interpretation, op.reason, op.question, now);
      u.Some? ==>
        && ValidRecord(u.value) && u.value.id == r.id && u.value.conversation == r.conversation
        && u.value.createdAt == r.createdAt && u.value.expiresAt == r.expiresAt
  {
    hide ValidRecord, AcceptsPatch;
  }

  lemma HolderIsTheRow(d: Rows, now: Time, l: Eager, id: ResolutionId)
    requires ValidDocument(d, now) && AllCurrent(d, now) && Mirrors(d, now, l)
    ensures match IndexById(d, id)
      case None => Holder(l, id).None?
      case Some(i) =>
        if Open(d[i]) then Holder(l, id) == Some(d[i].conversation) && l[d[i].conversation] == d[i]
        else Holder(l, id).None?
  {
    hide ValidRecord;
    var i, h := IndexById(d, id), Holder(l, id);
    if h.Some? {
      assert l[h.value] in d;
      var j :| 0 <= j < |d| && d[j] == l[h.value];
    }
    if i.Some? && Open(d[i.value]) {
      assert d[i.value] in d;
    }
  }

  lemma TransitionAgrees(rows: Rows, op: Op, t: Time, now: Time, lim: Limits, m: Eager)
    requires ValidStore(rows, t, lim) && Mirrors(rows, t, m) && t <= now && op.Transition?
    ensures Agrees(rows, op, now, lim, m)
  {
    hide Mirrors, ValidDocument, Unexpired, Expire, Settle, ValidRecord, Compact, AllCurrent, Moved, Pendings;
    var d, l := Expire(rows, now), Unexpired(m, now);
    SettlingKeepsMirror(rows, t, now, lim, m);
    LoadedKeepsMirror(rows, t, now, lim, m);
    UntouchedKeepsMirror(rows, t, now, lim, m);
    HolderIsTheRow(d, now, l, op.id);
    var i := IndexById(d, op.id);
    if i.Some? && Open(d[i.value]) {
      DocumentRow(d, now, i.value);
      MovedKeepsIdentity(d[i.value], op, now);
      var u := Moved(d[i.value], op.status, op.interpretation, op.reason, op.question, now);
      if u.Some? {
        var next := d[i.value := u.value];
        ReplacedKeepsDocument(d, i.value, u.value, now);
        ReplacedKeepsMirror(d, i.value, u.value, now, l);
        PendingsFit(next, lim);
        CompactionKeepsDocument(next, now, lim);
        var c := u.value.conversation;
        CompactionKeepsMirror(next, now, lim, if Open(u.value) then l[c := u.value] else l - {c});
      }
    }
  }

  lemma PendingsFit(rows: Rows, lim: Limits)
    requires |rows| <= lim.max
    ensures Compact(rows, lim).Some?
  {
  }

  lemma ActiveIsTheEntry(d: Rows, now: Time, l: Eager, c: ConversationId)
    requires AllCurrent(d, now) && Mirrors(d, now, l)
    ensures match IndexOfActive(d, c)
      case None => c !in l
      case Some(i) => c in l && l[c] == d[i]
  {
    var i := IndexOfActive(d, c);
    if i.Some? {
      assert d[i.value] in d;
    }
  }

  /** One operation keeps the agreement between the document and the eager map, whatever the clock did since. */
  lemma StepAgrees(rows: Rows, op: Op, t: Time, now: Time, lim: Limits, m: Eager)
    requires ValidStore(rows, t, lim) && Mirrors(rows, t, m) && t <= now
    requires lim.max < DOCUMENT_CAP && Acceptable(op, rows, now)
    ensures Agrees(rows, op, now, lim, m)
  {
    hide Mirrors, ValidDocument, Unexpired, Expire, Settle, ValidRecord;
    hide Compact, AllCurrent, Saved, Transitioned, Agrees;
    match op
    case Save(_, _) => SaveAgrees(rows, op, t, now, lim, m);
    case Transition(_, _, _, _, _) => TransitionAgrees(rows, op, t, now, lim, m);
    case _ =>
      ReadAgrees(rows, op, t, now, lim, m);
  }

  lemma ReadAgrees(rows: Rows, op: Op, t: Time, now: Time, lim: Limits, m: Eager)
    requires ValidStore(rows, t, lim) && Mirrors(rows, t, m) && t <= now
    requires !op.Save? && !op.Transition?
    ensures Agrees(rows, op, now, lim, m)
  {
    hide Mirrors, ValidDocument, Unexpired, Expire, Settle, ValidRecord, Compact, AllCurrent, Saved, Transitioned;
    SettlingKeepsMirror(rows, t, now, lim, m);
    LoadedKeepsMirror(rows, t, now, lim, m);
    if op.Active? {
      ActiveIsTheEntry(Expire(rows, now), now, Unexpired(m, now), op.conversation);
    }
  }

  /** The positions whose record the clock ends. */
  function Ended(rows: Rows, now: Time): set<nat> {
    set i | 0 <= i < |rows| && Due(rows[i], now)
  }

  lemma EndedOfFront(rows: Rows, now: Time)
    requires rows != []
    ensures var n := |rows| - 1;
      && n !in Ended(rows[..n], now)
      && Ended(rows, now) == if Due(rows[n], now) then Ended(rows[..n], now) + {n} else Ended(rows[..n], now)
  {
    hide Due;
    var front, n := rows[..|rows| - 1], |rows| - 1;
    forall i
      ensures i in Ended(rows, now) <==> i in Ended(front, now) || (i == n && Due(rows[n], now))
    {
      if 0 <= i < n {
        assert rows[i] == front[i];
      }
    }
  }

  /** The sweep counts exactly the records that its expiry ends. */
  lemma {:induction false} SweepCountsTheEnded(rows: Rows, now: Time)
    ensures DueCount(rows, now) == |Ended(rows, now)|
    ensures forall i | 0 <= i < |rows| ::
      i in Ended(rows, now) <==> rows[i].status == Pending && Expire(rows, now)[i].status == Expired
  {
    if rows != [] {
      SweepCountsTheEnded(rows[..|rows| - 1], now);
      EndedOfFront(rows, now);
    }
  }

  /** A save is stored exactly when the eager map would store it and the document is not full. */
  lemma SaveStoredIff(rows: Rows, op: Op, t: Time, now: Time, lim: Limits, m: Eager)
    requires ValidStore(rows, t, lim) && Mirrors(rows, t, m) && t <= now && op.Save? && Acceptable(op, rows, now)
    ensures Step(rows, op, now, lim).1 == Stored <==> EagerStep(m, op, now, lim).1 == Stored && |rows| < DOCUMENT_CAP
  {
    hide Mirrors, ValidDocument, Unexpired, Settle, ValidRecord, Compact, Acceptable, Expire;
    if |rows| < DOCUMENT_CAP {
      SaveAgrees(rows, op, t, now, lim, m);
    } else {
      LoadedKeepsMirror(rows, t, now, lim, m);
      SameSizeAfterExpiry(rows, now);
    }
  }

  lemma SameSizeAfterExpiry(rows: Rows, now: Time)
    ensures |Expire(rows, now)| == |rows|
  {
  }

  // ---------------------------------------------------------------- terminal records

  /** Whatever `now` holds under the id of a terminal record of `was` is that record. */
  predicate TerminalsKept(was: Rows, now: Rows) {
    forall r, x | r in was && x in now :: !Open(r) && x.id == r.id ==> x == r
  }

  lemma ExpiryKeepsTerminals(rows: Rows, now: Time)
    requires DistinctIds(rows)
    ensures TerminalsKept(rows, Expire(rows, now)) && DistinctIds(Expire(rows, now))
  {
    var d := Expire(rows, now);
    forall r, x | r in rows && x in d && !Open(r) && x.id == r.id
      ensures x == r
    {
      var i :| 0 <= i < |d| && d[i] == x;
      var j :| 0 <= j < |rows| && rows[j] == r;
      assert rows[i].id == rows[j].id;
    }
  }

  lemma CompactionKeepsTerminals(rows: Rows, d: Rows, lim: Limits)
    requires TerminalsKept(rows, d)
    ensures TerminalsKept(rows, Compact(d, lim).GetOr(rows)) || Compact(d, lim).None?
  {
    hide Compact;
    if Compact(d, lim).Some? {
      forall x
        ensures x in Compact(d, lim).value ==> x in d
      {
        CompactionOnlyDrops(d, lim, x);
      }
    }
  }

  lemma ReplacedKeepsTerminals(rows: Rows, d: Rows, i: nat, u: Record)
    requires TerminalsKept(rows, d) && i < |d| && Open(d[i]) && u.id == d[i].id
    ensures TerminalsKept(rows, d[i := u])
  {
    forall r, x | r in rows && x in d[i := u] && !Open(r) && x.id == r.id
      ensures x == r
    {
      assert d[i] in d;
      var j :| 0 <= j < |d| && d[i := u][j] == x;
    }
  }

  lemma SettlingKeepsTerminals(rows: Rows, now: Time, lim: Limits)
    requires DistinctIds(rows)
    ensures TerminalsKept(rows, Settle(rows, now, lim)) && TerminalsKept(rows, rows)
  {
    hide Compact, Expire;
    ExpiryKeepsTerminals(rows, now);
    CompactionKeepsTerminals(rows, Expire(rows, now), lim);
    forall r, x | r in rows && x in rows && x.id == r.id
      ensures x == r
    {
      var i :| 0 <= i < |rows| && rows[i] == r;
      var j :| 0 <= j < |rows| && rows[j] == x;
    }
  }

  /** No operation changes a terminal record; it can only be dropped. */
  lemma TerminalsNeverChange(rows: Rows, op: Op, now: Time, lim: Limits)
    requires DistinctIds(rows) && (op.Save? ==> forall r | r in rows :: r.id != op.record.id)
    ensures TerminalsKept(rows, Step(rows, op, now, lim).0)
  {
    hide Compact, Expire, Settle, DistinctIds, TerminalsKept, ValidRecord, Moved;
    var d := Expire(rows, now);
    SettlingKeepsTerminals(rows, now, lim);
    ExpiryKeepsTerminals(rows, now);
    if op.Transition? {
      var i := IndexById(d, op.id);
      if i.Some? && Open(d[i.value]) {
        var u := Moved(d[i.value], op.status, op.interpretation, op.reason, op.question, now);
        if u.Some? {
          MovedKeepsId(d[i.value], op, now);
          ReplacedKeepsTerminals(rows, d, i.value, u.value);
          CompactionKeepsTerminals(rows, d[i.value := u.value], lim);
        }
      }
    } else if op.Save? {
      var i := IndexOfActive(d, op.record.conversation);
      var e := if i.Some? then d[i.value := SupersededRow(d[i.value], now)] else d;
      if i.Some? {
        ReplacedKeepsTerminals(rows, d, i.value, SupersededRow(d[i.value], now));
      }
      AddedKeepsTerminals(rows, e, op.record);
      CompactionKeepsTerminals(rows, e + [op.record], lim);
    }
  }

  lemma MovedKeepsId(r: Record, op: Op, now: Time)
    requires op.Transition?
    ensures var u := Moved(r, op.status, op.interpretation, op.reason, op.question, now); u.Some? ==> u.value.id == r.id
  {
    hide ValidRecord, AcceptsPatch;
  }

  lemma AddedKeepsTerminals(rows: Rows, d: Rows, r: Record)
    requires TerminalsKept(rows, d) && forall x | x in rows :: x.id != r.id
    ensures TerminalsKept(rows, d + [r])
  {
  }

  /** A read persists what it expired: nothing that is due stays open behind it. */
  lemma ReadsLeaveNothingDue(rows: Rows, read: Op, t: Time, now: Time, lim: Limits)
    requires ValidStore(rows, t, lim) && t <= now && (read.Active? || read.Get? || read.ExpireDue?)
    ensures AllCurrent(Step(rows, read, now, lim).0, now)
  {
    hide ValidDocument, Expire, Compact, Pendings;
    var d := Expire(rows, now);
    ExpiryKeepsDocument(rows, t, now);
    SameSizeAfterExpiry(rows, now);
    PendingsFit(d, lim);
    forall r
      ensures r in Compact(d, lim).value ==> r in d
    {
      CompactionOnlyDrops(d, lim, r);
    }
  }

  // ---------------------------------------------------------------- what becomes of a record

  /** Everything that one operation may make of a record. */
  predicate Fate(r: Record, x: Record, op: Op, now: Time) {
    || x == r
    || (Due(r, now) && x == r.(status := Expired, updatedAt := now, reason := Some("ttl_expired")))
    || (op.Save? && Current(r, now) && r.conversation == op.record.conversation
        && x == r.(status := Superseded, updatedAt := now, reason := Some("superseded_by_new_resolution")))
    || (op.Transition? && Current(r, now) && r.id == op.id
        && Moved(r, op.status, op.interpretation, op.reason, op.question, now) == Some(x))
  }

  /** Where each record of `to` comes from. */
  predicate Descends(from: Rows, to: Rows, op: Op, now: Time) {
    forall x | x in to :: (op.Save? && x == op.record) || exists r :: r in from && Fate(r, x, op, now)
  }

  lemma ExpiryDescends(rows: Rows, op: Op, now: Time)
    ensures Descends(rows, Expire(rows, now), op, now) && Descends(rows, rows, op, now)
  {
    forall x | x in Expire(rows, now)
      ensures exists r :: r in rows && Fate(r, x, op, now)
    {
      var i :| 0 <= i < |rows| && Expire(rows, now)[i] == x;
      assert rows[i] in rows && Fate(rows[i], x, op, now);
    }
  }

  lemma CompactionDescends(rows: Rows, d: Rows, op: Op, now: Time, lim: Limits)
    requires Descends(rows, d, op, now)
    ensures Compact(d, lim).Some? ==> Descends(rows, Compact(d, lim).value, op, now)
  {
    hide Compact, Fate;
    if Compact(d, lim).Some? {
      forall x
        ensures x in Compact(d, lim).value ==> x in d
      {
        CompactionOnlyDrops(d, lim, x);
      }
    }
  }

  lemma SettlingDescends(rows: Rows, op: Op, now: Time, lim: Limits)
    ensures Descends(rows, Settle(rows, now, lim), op, now)
  {
    hide Compact, Expire, Descends;
    ExpiryDescends(rows, op, now);
    CompactionDescends(rows, Expire(rows, now), op, now, lim);
  }

  lemma UpdateMembers(d: Rows, i: nat, u: Record, after: Rows)
    requires i < |d| && after == d[i := u]
    ensures forall x | x in after :: x == u || x in d
  {
    forall x | x in after
      ensures x == u || x in d
    {
      var j :| 0 <= j < |after| && after[j] == x;
      assert j != i ==> d[j] == x;
    }
  }

  lemma ReplacedDescends(rows: Rows, d: Rows, i: nat, r: Record, u: Record, op: Op, now: Time)
    requires Descends(rows, d, op, now) && i < |d| && r in rows && Fate(r, u, op, now)
    ensures Descends(rows, d[i := u], op, now)
  {
    hide Fate;
    UpdateMembers(d, i, u, d[i := u]);
  }

  lemma AddedDescends(rows: Rows, d: Rows, op: Op, now: Time)
    requires Descends(rows, d, op, now) && op.Save?
    ensures Descends(rows, d + [op.record], op, now)
  {
    hide Fate;
  }

  lemma OpenIsUnchanged(rows: Rows, i: nat, now: Time)
    requires i < |rows| && Open(Expire(rows, now)[i])
    ensures Expire(rows, now)[i] == rows[i] && Current(rows[i], now)
  {
  }

  /** No operation invents or alters a record otherwise: each one kept is as it was, expired, superseded, or moved. */
  lemma EachRecordsFate(rows: Rows, op: Op, now: Time, lim: Limits)
    ensures Descends(rows, Step(rows, op, now, lim).0, op, now)
  {
    hide Compact, Expire, Settle, Descends, Moved;
    var d := Expire(rows, now);
    SettlingDescends(rows, op, now, lim);
    ExpiryDescends(rows, op, now);
    SameSizeAfterExpiry(rows, now);
    if op.Transition? {
      var i := IndexById(d, op.id);
      if i.Some? && Open(d[i.value]) {
        OpenIsUnchanged(rows, i.value, now);
        var u := Moved(d[i.value], op.status, op.interpretation, op.reason, op.question, now);
        if u.Some? {
          ReplacedDescends(rows, d, i.value, rows[i.value], u.value, op, now);
          CompactionDescends(rows, d[i.value := u.value], op, now, lim);
        }
      }
    } else if op.Save? {
      var i := IndexOfActive(d, op.record.conversation);
      var e := if i.Some? then d[i.value := SupersededRow(d[i.value], now)] else d;
      if i.Some? {
        OpenIsUnchanged(rows, i.value, now);
        ReplacedDescends(rows, d, i.value, rows[i.value], SupersededRow(d[i.value], now), op, now);
      }
      AddedDescends(rows, e, op, now);
      CompactionDescends(rows, e + [op.record], op, now, lim);
    }
  }

  // ---------------------------------------------------------------- runs

  function Run(rows: Rows, ops: seq<Op>, times: seq<Time>, lim: Limits): (Rows, seq<Answer>)
    requires |times| == |ops|
  {
    if ops == [] then (rows, [])
    else
      var (before, answers) := Run(rows, ops[..|ops| - 1], times[..|ops| - 1], lim);
      var (after, a) := Step(before, ops[|ops| - 1], times[|ops| - 1], lim);
      (after, answers + [a])
  }

  ghost function EagerRun(m: Eager, ops: seq<Op>, times: seq<Time>, lim: Limits): (Eager, seq<Answer>)
    requires |times| == |ops|
  {
    if ops == [] then (m, [])
    else
      var (before, answers) := EagerRun(m, ops[..|ops| - 1], times[..|ops| - 1], lim);
      var (after, a) := EagerStep(before, ops[|ops| - 1], times[|ops| - 1], lim);
      (after, answers + [a])
  }

  /** Calls in the order of a clock that never runs backwards, each save with a record the document does not hold. */
  predicate ProperCalls(rows: Rows, ops: seq<Op>, times: seq<Time>, t: Time, lim: Limits)
    requires |times| == |ops|
  {
    ops != [] ==>
      var n := |ops| - 1;
      && ProperCalls(rows, ops[..n], times[..n], t, lim)
      && (if n == 0 then t else times[n - 1]) <= times[n]
      && Acceptable(ops[n], Run(rows, ops[..n], times[..n], lim).0, times[n])
  }

  /** Over any run the document answers saves, moves and reads of the active question as the eager map does. */
  lemma {:induction false} RunAgrees(rows: Rows, ops: seq<Op>, times: seq<Time>, t: Time, lim: Limits, m: Eager)
    requires |times| == |ops| && lim.max < DOCUMENT_CAP
    requires ValidStore(rows, t, lim) && Mirrors(rows, t, m) && ProperCalls(rows, ops, times, t, lim)
    ensures var last := if ops == [] then t else times[|ops| - 1];
      var (rows', a), (m', b) := Run(rows, ops, times, lim), EagerRun(m, ops, times, lim);
      && ValidStore(rows', last, lim) && Mirrors(rows', last, m')
      && |a| == |ops| == |b| && forall i | 0 <= i < |ops| && Observable(ops[i]) :: a[i] == b[i]
  {
    hide Mirrors, ValidStore, Step, EagerStep, Acceptable;
    if ops != [] {
      var n := |ops| - 1;
      RunAgrees(rows, ops[..n], times[..n], t, lim, m);
      StepAgrees(Run(rows, ops[..n], times[..n], lim).0, ops[n], if n == 0 then t else times[n - 1], times[n], lim,
                 EagerRun(m, ops[..n], times[..n], lim).0);
      assert forall i | 0 <= i < n :: ops[..n][i] == ops[i];
    }
  }

  // ---------------------------------------------------------------- reads can be left out

  predicate Reads(op: Op) {
    op.Active? || op.Get? || op.ExpireDue?
  }

  function LastTime(times: seq<Time>, t: Time): Time {
    if times == [] then t else times[|times| - 1]
  }

  /** Calls under a clock that does not run backwards, each save with a valid record under an id never used before. */
  predicate FreshCalls(rows: Rows, ops: seq<Op>, times: seq<Time>, t: Time)
    requires |times| == |ops|
  {
    ops != [] ==>
      var n := |ops| - 1;
      && FreshCalls(rows, ops[..n], times[..n], t) && LastTime(times[..n], t) <= times[n]
      && (ops[n].Save? ==>
            && ValidRecord(ops[n].record) && Open(ops[n].record) && ops[n].record.createdAt <= times[n]
            && (forall r | r in rows :: r.id != ops[n].record.id)
            && forall o | o in ops[..n] && o.Save? :: o.record.id != ops[n].record.id)
  }

  lemma {:induction false} IdsAreKnown(rows: Rows, ops: seq<Op>, times: seq<Time>, lim: Limits, id: ResolutionId)
    requires |times| == |ops|
    requires (forall r | r in rows :: r.id != id) && forall o | o in ops && o.Save? :: o.record.id != id
    ensures forall x | x in Run(rows, ops, times, lim).0 :: x.id != id
  {
    if ops != [] {
      var n := |ops| - 1;
      IdsAreKnown(rows, ops[..n], times[..n], lim, id);
      var before := Run(rows, ops[..n], times[..n], lim).0;
      EachRecordsFate(before, ops[n], times[n], lim);
      hide Step, Run, Moved;
      FatesKeepIds(before, Step(before, ops[n], times[n], lim).0, ops[n], times[n], id);
    }
  }

  lemma FatesKeepIds(from: Rows, to: Rows, op: Op, now: Time, id: ResolutionId)
    requires Descends(from, to, op, now) && (forall r | r in from :: r.id != id) && (op.Save? ==> op.record.id != id)
    ensures forall x | x in to :: x.id != id
  {
    forall x | x in to
      ensures x.id != id
    {
      if !(op.Save? && x == op.record) {
        var r :| r in from && Fate(r, x, op, now);
        if op.Transition? {
          MovedKeepsId(r, op, now);
        }
      }
    }
  }

  lemma {:induction false} FreshCallsAreProper(rows: Rows, ops: seq<Op>, times: seq<Time>, t: Time, lim: Limits)
    requires |times| == |ops| && FreshCalls(rows, ops, times, t)
    ensures ProperCalls(rows, ops, times, t, lim)
  {
    hide Run, ValidRecord;
    if ops != [] {
      var n := |ops| - 1;
      FreshCallsAreProper(rows, ops[..n], times[..n], t, lim);
      if ops[n].Save? {
        IdsAreKnown(rows, ops[..n], times[..n], lim, ops[n].record.id);
      }
    }
  }

  function Kept<T>(s: seq<T>, keep: seq<bool>): (r: seq<T>)
    requires |s| == |keep|
    ensures forall x :: x in r ==> x in s
  {
    if s == [] then []
    else
      var n := |s| - 1;
      assert s == s[..n] + [s[n]];
      Kept(s[..n], keep[..n]) + if keep[n] then [s[n]] else []
  }

  lemma {:induction false} KeptLength<T, U>(s: seq<T>, u: seq<U>, keep: seq<bool>)
    requires |s| == |u| == |keep|
    ensures |Kept(s, keep)| == |Kept(u, keep)|
  {
    if s != [] {
      var n := |s| - 1;
      KeptLength(s[..n], u[..n], keep[..n]);
    }
  }

  lemma {:induction false} KeptIsFresh(rows: Rows, ops: seq<Op>, times: seq<Time>, t: Time, keep: seq<bool>)
    requires |times| == |ops| == |keep| && FreshCalls(rows, ops, times, t)
    ensures |Kept(times, keep)| == |Kept(ops, keep)| && FreshCalls(rows, Kept(ops, keep), Kept(times, keep), t)
    ensures LastTime(Kept(times, keep), t) <= LastTime(times, t)
  {
    hide ValidRecord;
    KeptLength(ops, times, keep);
    if ops != [] {
      var n := |ops| - 1;
      KeptIsFresh(rows, ops[..n], times[..n], t, keep[..n]);
      var kept, at := Kept(ops[..n], keep[..n]), Kept(times[..n], keep[..n]);
      if keep[n] {
        var more, later := kept + [ops[n]], at + [times[n]];
        assert more[..|more| - 1] == kept && later[..|more| - 1] == at && more[|more| - 1] == ops[n];
        assert forall o | o in kept :: o in ops[..n];
        assert FreshCalls(rows, more, later, t);
        assert Kept(ops, keep) == more && Kept(times, keep) == later;
      } else {
        assert Kept(ops, keep) == kept && Kept(times, keep) == at;
      }
    }
  }

  /** The eager map sees of itself only what is live. */
  lemma EagerStepByLive(m: Eager, m': Eager, op: Op, now: Time, lim: Limits)
    requires Unexpired(m, now) == Unexpired(m', now)
    ensures EagerStep(m, op, now, lim) == EagerStep(m', op, now, lim)
  {
  }

  lemma UnexpiredLater(m: Eager, m': Eager, t: Time, now: Time)
    requires t <= now && Unexpired(m, t) == Unexpired(m', t)
    ensures Unexpired(m, now) == Unexpired(m', now)
    ensures Unexpired(Unexpired(m, now), now) == Unexpired(m, now)
  {
    assert Unexpired(Unexpired(m, t), now) == Unexpired(m, now);
    assert Unexpired(Unexpired(m', t), now) == Unexpired(m', now);
  }

  lemma {:induction false} EagerWithoutReads(
    m: Eager, ops: seq<Op>, times: seq<Time>, keep: seq<bool>, rows: Rows, t: Time, lim: Limits)
    requires |times| == |ops| == |keep| && FreshCalls(rows, ops, times, t)
    requires forall i | 0 <= i < |ops| && !keep[i] :: Reads(ops[i])
    ensures |Kept(times, keep)| == |Kept(ops, keep)|
    ensures var (full, a) := EagerRun(m, ops, times, lim);
      var (thin, b) := EagerRun(m, Kept(ops, keep), Kept(times, keep), lim);
      && Unexpired(full, LastTime(times, t)) == Unexpired(thin, LastTime(times, t))
      && |a| == |ops| && b == Kept(a, keep)
  {
    hide Unexpired, EagerStep;
    KeptLength(ops, times, keep);
    if ops != [] {
      var n := |ops| - 1;
      EagerWithoutReads(m, ops[..n], times[..n], keep[..n], rows, t, lim);
      KeptLength(ops[..n], times[..n], keep[..n]);
      var (full, a) := EagerRun(m, ops[..n], times[..n], lim);
      var kept, at := Kept(ops[..n], keep[..n]), Kept(times[..n], keep[..n]);
      var (thin, b) := EagerRun(m, kept, at, lim);
      var now := times[n];
      UnexpiredLater(full, thin, LastTime(times[..n], t), now);
      var (after, x) := EagerStep(full, ops[n], now, lim);
      assert (a + [x])[..n] == a;
      if keep[n] {
        EagerStepByLive(full, thin, ops[n], now, lim);
        assert (kept + [ops[n]])[..|kept + [ops[n]]| - 1] == kept && (at + [now])[..|at + [now]| - 1] == at;
      } else {
        ReadOnlyExpires(full, ops[n], now, lim);
        assert Kept(ops, keep) == kept && Kept(times, keep) == at;
      }
    }
  }

  lemma ReadOnlyExpires(m: Eager, read: Op, now: Time, lim: Limits)
    requires Reads(read)
    ensures EagerStep(m, read, now, lim).0 == Unexpired(m, now)
  {
  }

  lemma {:induction false} KeptAnswersAgree(ops: seq<Op>, a: seq<Answer>, b: seq<Answer>, keep: seq<bool>)
    requires |ops| == |a| == |b| == |keep| && forall i | 0 <= i < |ops| && Observable(ops[i]) :: a[i] == b[i]
    ensures |Kept(ops, keep)| == |Kept(a, keep)| == |Kept(b, keep)|
    ensures forall i | 0 <= i < |Kept(ops, keep)| && Observable(Kept(ops, keep)[i]) ::
      Kept(a, keep)[i] == Kept(b, keep)[i]
  {
    hide Observable;
    if ops != [] {
      var n := |ops| - 1;
      KeptAnswersAgree(ops[..n], a[..n], b[..n], keep[..n]);
    }
  }

  /**
    * Leave out any reads, lookups and sweeps of a run: every save, move and active lookup that is left gives the answer
    * it gave among them.
    */
  lemma ReadsCanBeLeftOut(
    rows: Rows, ops: seq<Op>, times: seq<Time>, keep: seq<bool>, t: Time, lim: Limits, m: Eager)
    requires |times| == |ops| == |keep| && lim.max < DOCUMENT_CAP
    requires ValidStore(rows, t, lim) && Mirrors(rows, t, m) && FreshCalls(rows, ops, times, t)
    requires forall i | 0 <= i < |ops| && !keep[i] :: Reads(ops[i])
    ensures |Kept(times, keep)| == |Kept(ops, keep)|
    ensures var a, b := Run(rows, ops, times, lim).1, Run(rows, Kept(ops, keep), Kept(times, keep), lim).1;
      && |a| == |ops| && |b| == |Kept(a, keep)| == |Kept(ops, keep)|
      && forall i | 0 <= i < |b| && Observable(Kept(ops, keep)[i]) :: b[i] == Kept(a, keep)[i]
  {
    hide Mirrors, ValidStore, Run, EagerRun, FreshCalls, ProperCalls, Observable, Kept;
    KeptIsFresh(rows, ops, times, t, keep);
    FreshCallsAreProper(rows, ops, times, t, lim);
    FreshCallsAreProper(rows, Kept(ops, keep), Kept(times, keep), t, lim);
    RunAgrees(rows, ops, times, t, lim, m);
    RunAgrees(rows, Kept(ops, keep), Kept(times, keep), t, lim, m);
    EagerWithoutReads(m, ops, times, keep, rows, t, lim);
    KeptAnswersAgree(ops, Run(rows, ops, times, lim).1, EagerRun(m, ops, times, lim).1, keep);
  }
}
