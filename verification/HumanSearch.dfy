/** Ranked search over the Home's information, and the bounded recall that feeds a conversation. */
module HumanSearch {
  import opened Common
  import opened Sorting

  type Time = int

  datatype Kind = HistoryKind | MemoryKind | TaskKind | ThreadKind

  datatype Availability = Available | Archived | Forgotten

  datatype Mode = CurrentMode | Retrospective | ForgottenReview

  datatype Scope = Everything | HistoryScope | TaskScope

  datatype Item = Item(
    id: string,
    kind: Kind,
    state: string,
    availability: Availability,
    eligible: bool,
    projects: seq<string>,
    timestamp: Option<Time>,
    text: string,
    tokens: set<string>)

  /** Topic tokens and texts are as the text normalizer gives them. */
  datatype Request = Request(
    text: string, tokens: set<string>, project: Option<string>, scope: Scope, mode: Mode,
    times: Option<(Time, Time)>, limit: nat)

  const DAY: Time := 86_400

  predicate MatchesScope(i: Item, s: Scope) {
    match s
    case TaskScope => i.kind.TaskKind?
    case HistoryScope => !i.kind.TaskKind?
    case Everything => true
  }

  predicate MatchesMode(i: Item, m: Mode) {
    match m
    case CurrentMode => i.availability.Available? && i.eligible
    case ForgottenReview => i.availability.Forgotten?
    case Retrospective => !i.availability.Forgotten?
  }

  predicate MatchesTimes(i: Item, t: Option<(Time, Time)>) {
    t.Some? ==> i.timestamp.Some? && t.value.0 <= i.timestamp.value <= t.value.1
  }

  predicate Eligible(i: Item, q: Request) {
    && MatchesScope(i, q.scope)
    && (q.project.Some? && i.projects != [] ==> q.project.value in i.projects)
    && MatchesMode(i, q.mode) && MatchesTimes(i, q.times)
  }

  // ---------------------------------------------------------------- relevance

  predicate StartsWith(a: string, b: string) {
    b <= a
  }

  predicate Similar(q: string, c: string) {
    q == c || (|q| >= 3 && |c| >= 3 && (StartsWith(q, c) || StartsWith(c, q)))
  }

  predicate MatchesSome(q: string, tokens: set<string>) {
    exists c :: c in tokens && Similar(q, c)
  }

  function Matched(query: set<string>, tokens: set<string>): set<string> {
    set q | q in query && MatchesSome(q, tokens)
  }

  predicate Occurs(part: string, whole: string) {
    part <= whole || (whole != "" && Occurs(part, whole[1..]))
  }

  function Recency(i: Item, now: Time): (r: real)
    ensures 0.0 <= r <= 1.0
  {
    if i.timestamp.None? then 0.0
    else
      var age := now - i.timestamp.value;
      if age <= 7 * DAY then 1.0 else if age <= 30 * DAY then 0.5 else 0.0
  }

  /** The token count that a record's coverage is measured against. */
  function Counted(tokens: set<string>): (n: nat)
    ensures 1 <= n <= 8
  {
    if |tokens| == 0 then 1 else if |tokens| < 8 then |tokens| else 8
  }

  function Coverage(matched: nat, of: nat): real
    requires of > 0
  {
    matched as real / of as real
  }

  function Phrase(q: Request, i: Item): real {
    if q.text != "" && Occurs(q.text, i.text) then 1.0 else 0.0
  }

  function Relevance(q: Request, i: Item, now: Time): real {
    if q.tokens == {} then 0.5
    else
      var matched := |Matched(q.tokens, i.tokens)|;
      if matched == 0 then 0.0
      else
        var score :=
          Coverage(matched, |q.tokens|) * 0.68 + Coverage(matched, Counted(i.tokens)) * 0.17
          + Phrase(q, i) * 0.10 + Recency(i, now) * 0.05;
        if score < 1.0 then score else 1.0
  }

  lemma CoverageBounds(matched: nat, of: nat)
    requires of > 0
    ensures Coverage(matched, of) >= 0.0
    ensures matched >= 1 && of <= 3 ==> Coverage(matched, of) * 3.0 >= 1.0
    ensures matched >= 1 && of <= 8 ==> Coverage(matched, of) * 8.0 >= 1.0
  {
    var m, n := matched as real, of as real;
    assert Coverage(matched, of) * n == m;
    if matched >= 1 && of <= 3 {
      assert Coverage(matched, of) * 3.0 >= Coverage(matched, of) * n;
    }
    if matched >= 1 && of <= 8 {
      assert Coverage(matched, of) * 8.0 >= Coverage(matched, of) * n;
    }
  }

  /** Relevance is a score between nothing and one. */
  lemma RelevanceIsBounded(q: Request, i: Item, now: Time)
    ensures 0.0 <= Relevance(q, i, now) <= 1.0
  {
    if q.tokens != {} {
      CoverageBounds(|Matched(q.tokens, i.tokens)|, |q.tokens|);
      CoverageBounds(|Matched(q.tokens, i.tokens)|, Counted(i.tokens));
    }
  }

  const CUT := 0.24

  predicate Scores(q: Request, i: Item, now: Time) {
    q.tokens == {} || Relevance(q, i, now) >= CUT
  }

  /** With at most three topic tokens the cut drops exactly the items that match none of them. */
  lemma ShortQueriesKeepEveryMatch(q: Request, i: Item, now: Time)
    requires 1 <= |q.tokens| <= 3
    ensures Scores(q, i, now) <==> exists t :: t in q.tokens && MatchesSome(t, i.tokens)
  {
    var matched := Matched(q.tokens, i.tokens);
    if matched != {} {
      CoverageBounds(|matched|, |q.tokens|);
      CoverageBounds(|matched|, Counted(i.tokens));
      var t :| t in matched;
    } else {
      assert forall t | t in q.tokens && MatchesSome(t, i.tokens) :: t in matched;
    }
  }

  /** With four or more, one match in a long and older record without the phrase is cut. */
  lemma LongQueriesMayCutAMatch(q: Request, i: Item, now: Time)
    requires |q.tokens| >= 4 && |Matched(q.tokens, i.tokens)| == 1 && |i.tokens| >= 8
    requires Phrase(q, i) == 0.0 && Recency(i, now) <= 0.5
    ensures !Scores(q, i, now)
  {
    var c, d := Coverage(1, |q.tokens|), Coverage(1, 8);
    assert c * |q.tokens| as real == 1.0 && |q.tokens| as real >= 4.0;
    CoverageBounds(1, |q.tokens|);
    assert c * |q.tokens| as real >= c * 4.0;
  }

  /**
    * A query word matches a word when they are the same, or the shorter one, of three letters or more, begins the
    * longer.
    */
  lemma WhatMatches(query: set<string>, tokens: set<string>, t: string)
    ensures t in Matched(query, tokens) <==>
      && t in query
      && exists c :: c in tokens && (t == c || (var n := Min(|t|, |c|); n >= 3 && t[..n] == c[..n]))
  {
    forall c: string
      ensures Similar(t, c) <==> t == c || (var n := Min(|t|, |c|); n >= 3 && t[..n] == c[..n])
    {
    }
    if MatchesSome(t, tokens) {
      var c :| c in tokens && Similar(t, c);
    }
  }

  /** The part is found at some place of the whole. */
  lemma {:induction false} WhatOccurs(part: string, whole: string)
    ensures Occurs(part, whole) <==> exists k | 0 <= k <= |whole| :: part <= whole[k..]
  {
    assert whole[0..] == whole;
    if whole != "" {
      var rest := whole[1..];
      WhatOccurs(part, rest);
      assert forall k | 0 <= k <= |rest| :: rest[k..] == whole[k + 1..];
      if k :| 0 <= k <= |whole| && part <= whole[k..] {
        assert k > 0 ==> rest[k - 1..] == whole[k..];
      }
    }
  }

  /** The share of the query's words, the share of the record's, the phrase and the age, counted in 200ths. */
  lemma RelevanceInWholeNumbers(
    q: Request, i: Item, now: Time, m: nat, n: nat, c: nat, phrase: nat, recent: nat, sum: int, scale: int)
    requires n == |q.tokens| > 0 && m == |Matched(q.tokens, i.tokens)|
    requires c == if i.tokens == {} then 1 else Min(|i.tokens|, 8)
    requires phrase == if q.text != "" && Occurs(q.text, i.text) then 1 else 0
    requires recent ==
      match i.timestamp
      case None => 0
      case Some(t) => if now - t <= 604_800 then 2 else if now - t <= 2_592_000 then 1 else 0
    requires scale == n * c && sum == 136 * (m * c) + 34 * (m * n) + (20 * phrase + 5 * recent) * scale
    ensures scale > 0 && sum >= 0
    ensures Relevance(q, i, now) == Coverage(if m == 0 then 0 else Min(sum, 200 * scale), 200 * scale)
    ensures Scores(q, i, now) <==> m > 0 && sum >= 48 * scale
  {
    hide Relevance, Scores, Matched, Coverage, Phrase, Recency, Occurs;
    assert c > 0;
    Fractions(m, n, c, 20 * phrase + 5 * recent);
    if m > 0 {
      MatchingScores(q, i, now, m, n, c, phrase, recent);
      Clipped(sum, 200 * scale);
      ScoresAbove(q, i, now);
    } else {
      NothingMatches(q, i, now);
      Clipped(0, 200 * scale);
    }
  }

  /** The weighted shares over one denominator. */
  lemma Fractions(m: nat, n: nat, c: nat, bonus: nat)
    requires n > 0 && c > 0
    ensures n * c > 0 && m * c >= 0 && m * n >= 0 && bonus * (n * c) >= 0
    ensures Coverage(m, n) * 0.68 + Coverage(m, c) * 0.17 + bonus as real / 200.0
            == Coverage(136 * (m * c) + 34 * (m * n) + bonus * (n * c), 200 * (n * c))
  {
    var (a, b, x, y, z) := (Coverage(m, n), Coverage(m, c), m as real, n as real, c as real);
    assert a * y == x && b * z == x;
    assert (n * c) as real == y * z && (m * c) as real == x * z && (m * n) as real == x * y;
    assert (bonus * (n * c)) as real == bonus as real * (y * z);
    assert a * (y * z) == x * z;
    assert b * (y * z) == x * y;
  }

  lemma Clipped(sum: nat, scale: nat)
    requires scale > 0
    ensures var score := Coverage(sum, scale);
      && (if score < 1.0 then score else 1.0) == Coverage(Min(sum, scale), scale)
      && (score >= CUT <==> 25 * sum >= 6 * scale) && Coverage(0, scale) == 0.0
  {
    Divided(sum as real, scale as real, 1.0);
    Divided(sum as real, scale as real, CUT);
    assert scale as real / scale as real == 1.0;
  }

  lemma Divided(a: real, b: real, bound: real)
    requires b > 0.0
    ensures a / b >= bound <==> a >= bound * b
  {
    var d := a / b;
    assert d * b == a;
    if d >= bound {
      assert d * b >= bound * b;
    } else {
      assert d * b < bound * b;
    }
  }

  lemma ScoresAbove(q: Request, i: Item, now: Time)
    requires q.tokens != {}
    ensures Scores(q, i, now) <==> Relevance(q, i, now) >= CUT
  {
  }

  lemma NothingMatches(q: Request, i: Item, now: Time)
    requires q.tokens != {} && |Matched(q.tokens, i.tokens)| == 0
    ensures Relevance(q, i, now) == 0.0 && !Scores(q, i, now)
  {
  }

  lemma MatchingScores(q: Request, i: Item, now: Time, m: nat, n: nat, c: nat, phrase: nat, recent: nat)
    requires n == |q.tokens| > 0 && m == |Matched(q.tokens, i.tokens)| > 0
    requires c == if i.tokens == {} then 1 else Min(|i.tokens|, 8)
    requires phrase == if q.text != "" && Occurs(q.text, i.text) then 1 else 0
    requires recent ==
      match i.timestamp
      case None => 0
      case Some(t) => if now - t <= 604_800 then 2 else if now - t <= 2_592_000 then 1 else 0
    ensures var score := Coverage(m, n) * 0.68 + Coverage(m, c) * 0.17 + (20 * phrase + 5 * recent) as real / 200.0;
      Relevance(q, i, now) == if score < 1.0 then score else 1.0
  {
    hide Matched, Occurs, Coverage;
  }

  /** Two query words may both match a record's only word, so the record's own coverage can exceed one. */
  lemma RecordCoverageMayExceedOne()
    ensures Coverage(|Matched({"plans", "planned"}, {"plan"})|, Counted({"plan"})) == 2.0
  {
    assert StartsWith("plans", "plan") && StartsWith("planned", "plan");
    assert Similar("plans", "plan") && Similar("planned", "plan");
    assert "plans" != "planned" by { assert |"plans"| == 5 && |"planned"| == 7; }
    assert Matched({"plans", "planned"}, {"plan"}) == {"plans", "planned"};
  }

  // ---------------------------------------------------------------- ranking

  datatype Scored = Scored(relevance: real, item: Item)

  function KindName(k: Kind): string {
    match k
    case HistoryKind => "history"
    case MemoryKind => "memory"
    case TaskKind => "task"
    case ThreadKind => "thread"
  }

  /** Newer stands before older, and before what has no time. */
  predicate Newer(a: Option<Time>, b: Option<Time>) {
    a.Some? && (b.None? || a.value > b.value)
  }

  /** By relevance, then newest, then kind, then id. */
  predicate RanksBefore(a: Scored, b: Scored) {
    || a.relevance > b.relevance
    || (a.relevance == b.relevance &&
        (|| Newer(a.item.timestamp, b.item.timestamp)
         || (a.item.timestamp == b.item.timestamp && KindThenId(a.item, b.item))))
  }

  predicate KindThenId(a: Item, b: Item) {
    if a.kind == b.kind then TextLe(a.id, b.id) else TextLe(KindName(a.kind), KindName(b.kind))
  }

  lemma KindsDiffer(a: Kind, b: Kind)
    ensures KindName(a) == KindName(b) <==> a == b
  {
    assert |"history"| == 7 && |"memory"| == 6 && |"task"| == 4;
    assert "memory"[0] != "thread"[0] && "task"[1] != "thread"[1];
  }

  lemma KindThenIdOrders(a: Item, b: Item, c: Item)
    ensures KindThenId(a, b) || KindThenId(b, a)
    ensures KindThenId(a, b) && KindThenId(b, c) ==> KindThenId(a, c)
  {
    hide KindName;
    TextTotal(a.id, b.id);
    TextTotal(KindName(a.kind), KindName(b.kind));
    KindsDiffer(a.kind, c.kind);
    KindsDiffer(a.kind, b.kind);
    KindsDiffer(b.kind, c.kind);
    if KindThenId(a, b) && KindThenId(b, c) {
      TextTotal(KindName(b.kind), KindName(c.kind));
      if a.kind == b.kind == c.kind {
        TextTransitive(a.id, b.id, c.id);
      } else if a.kind != b.kind && b.kind != c.kind {
        TextTransitive(KindName(a.kind), KindName(b.kind), KindName(c.kind));
      }
    }
  }

  lemma RankingOrders()
    ensures Ordering(RanksBefore)
  {
    hide KindThenId;
    forall a: Scored, b: Scored
      ensures RanksBefore(a, b) || RanksBefore(b, a)
    {
      KindThenIdOrders(a.item, b.item, a.item);
    }
    forall a: Scored, b: Scored, c: Scored | RanksBefore(a, b) && RanksBefore(b, c)
      ensures RanksBefore(a, c)
    {
      KindThenIdOrders(a.item, b.item, c.item);
    }
  }

  /** What the order prefers: relevance, then a later time (any before none), then the kind, then the id. */
  lemma RankingPrefers(a: Scored, b: Scored)
    requires RanksBefore(a, b)
    ensures a.relevance >= b.relevance
    ensures a.relevance == b.relevance && b.item.timestamp.Some? ==>
      a.item.timestamp.Some? && a.item.timestamp.value >= b.item.timestamp.value
    ensures a.relevance == b.relevance && a.item.timestamp == b.item.timestamp ==>
      && (b.item.kind.HistoryKind? ==> a.item.kind.HistoryKind?)
      && (b.item.kind.MemoryKind? ==> a.item.kind.HistoryKind? || a.item.kind.MemoryKind?)
      && (b.item.kind.TaskKind? ==> !a.item.kind.ThreadKind?)
      && (a.item.kind == b.item.kind ==> TextLe(a.item.id, b.item.id))
  {
    assert "history"[0] < "memory"[0] < "task"[0] && "task"[0] == "thread"[0] && "task"[1] < "thread"[1];
  }

  /** The eligible items that pass the cut, with their scores. */
  function Hits(q: Request, items: seq<Item>, now: Time): (r: seq<Scored>)
    ensures forall s :: s in r <==>
      s.item in items && Eligible(s.item, q) && Scores(q, s.item, now) && s.relevance == Relevance(q, s.item, now)
  {
    if items == [] then []
    else
      var front, last := Hits(q, items[..|items| - 1], now), items[|items| - 1];
      assert items == items[..|items| - 1] + [last];
      if Eligible(last, q) && Scores(q, last, now) then front + [Scored(Relevance(q, last, now), last)] else front
  }

  lemma WhatIsEligible(i: Item, q: Request)
    ensures Eligible(i, q) <==>
      && (q.scope.TaskScope? ==> i.kind.TaskKind?) && (q.scope.HistoryScope? ==> !i.kind.TaskKind?)
      && (q.project.Some? ==> i.projects == [] || q.project.value in i.projects)
      && (i.availability.Forgotten? <==> q.mode.ForgottenReview?)
      && (q.mode.CurrentMode? ==> i.availability.Available? && i.eligible)
      && (q.times.Some? ==> i.timestamp.Some? && q.times.value.0 <= i.timestamp.value <= q.times.value.1)
  {
  }

  lemma AllAreTaken(top: seq<Scored>, scored: seq<Scored>)
    requires multiset(top) <= multiset(scored) && |top| == |scored|
    ensures forall s | s in scored :: s in top
  {
    var rest := multiset(scored) - multiset(top);
    assert |rest| == |multiset(scored)| - |multiset(top)|;
    assert |multiset(scored)| == |scored| && |multiset(top)| == |top|;
    forall s | s in scored
      ensures s in top
    {
      assert s in multiset(scored) && rest[s] == 0;
      assert s in multiset(top);
    }
  }

  /**
    * The best of the items that are of the asked scope, project, mode and time and pass the cut: all of them when there
    * is room.
    */
  method SearchInformation(q: Request, items: seq<Item>, now: Time) returns (matches: seq<Scored>)
    ensures |matches| == Min(q.limit, |Hits(q, items, now)|)
    ensures Sorted(matches, RanksBefore)
    ensures multiset(matches) <= multiset(Hits(q, items, now))
    ensures forall m | m in matches ::
      && 0.0 <= m.relevance <= 1.0 && m.relevance == Relevance(q, m.item, now) && Scores(q, m.item, now)
      && m.item in items && Eligible(m.item, q)
      && (q.scope.TaskScope? ==> m.item.kind.TaskKind?) && (q.scope.HistoryScope? ==> !m.item.kind.TaskKind?)
      && (q.project.Some? ==> m.item.projects == [] || q.project.value in m.item.projects)
      && (m.item.availability.Forgotten? <==> q.mode.ForgottenReview?)
      && (q.mode.CurrentMode? ==> m.item.availability.Available? && m.item.eligible)
      && (q.times.Some? ==> m.item.timestamp.Some?)
      && (q.times.Some? ==> q.times.value.0 <= m.item.timestamp.value <= q.times.value.1)
    ensures |matches| < q.limit ==>
      forall i |
        && i in items && Scores(q, i, now)
        && (q.scope.TaskScope? ==> i.kind.TaskKind?) && (q.scope.HistoryScope? ==> !i.kind.TaskKind?)
        && (q.project.Some? ==> i.projects == [] || q.project.value in i.projects)
        && (i.availability.Forgotten? <==> q.mode.ForgottenReview?)
        && (q.mode.CurrentMode? ==> i.availability.Available? && i.eligible)
        && (q.times.Some? ==> i.timestamp.Some? && q.times.value.0 <= i.timestamp.value <= q.times.value.1) ::
        Scored(Relevance(q, i, now), i) in matches
    ensures forall m, o | m in matches && o in multiset(Hits(q, items, now)) - multiset(matches) :: RanksBefore(m, o)
  {
    hide RanksBefore, Eligible, Scores, Relevance;
    var scored: seq<Scored> := [];
    for i := 0 to |items|
      invariant scored == Hits(q, items[..i], now)
    {
      var item := items[i];
      assert items[..i + 1][..i] == items[..i];
      if Eligible(item, q) && Scores(q, item, now) {
        scored := scored + [Scored(Relevance(q, item, now), item)];
      }
    }
    assert items[..|items|] == items;
    matches := TopOf(scored, q.limit);
    forall m | m in matches
      ensures m in scored && 0.0 <= m.relevance <= 1.0
    {
      assert m in multiset(matches);
      RelevanceIsBounded(q, m.item, now);
    }
    forall i: Item
      ensures Eligible(i, q) <==>
        && (q.scope.TaskScope? ==> i.kind.TaskKind?) && (q.scope.HistoryScope? ==> !i.kind.TaskKind?)
        && (q.project.Some? ==> i.projects == [] || q.project.value in i.projects)
        && (i.availability.Forgotten? <==> q.mode.ForgottenReview?)
        && (q.mode.CurrentMode? ==> i.availability.Available? && i.eligible)
        && (q.times.Some? ==> i.timestamp.Some? && q.times.value.0 <= i.timestamp.value <= q.times.value.1)
    {
      WhatIsEligible(i, q);
    }
    if |matches| < q.limit {
      AllAreTaken(matches, scored);
    }
  }

  /** The first `limit` in rank order: nothing left out ranks above anything returned. */
  method TopOf(scored: seq<Scored>, limit: nat) returns (top: seq<Scored>)
    ensures |top| == Min(limit, |scored|) && Sorted(top, RanksBefore) && multiset(top) <= multiset(scored)
    ensures forall m, o | m in top && o in multiset(scored) - multiset(top) :: RanksBefore(m, o)
  {
    hide RanksBefore, Sort;
    var ranked := Sort(scored, RanksBefore);
    RankingOrders();
    SortSorts(scored, RanksBefore);
    top := ranked[..Min(limit, |ranked|)];
    FrontComesFirst(ranked, |top|);
  }

  lemma FrontComesFirst(ranked: seq<Scored>, n: nat)
    requires n <= |ranked| && Sorted(ranked, RanksBefore)
    ensures Sorted(ranked[..n], RanksBefore) && multiset(ranked) == multiset(ranked[..n]) + multiset(ranked[n..])
    ensures forall m, o | m in ranked[..n] && o in multiset(ranked[n..]) :: RanksBefore(m, o)
  {
    hide RanksBefore;
    var (top, rest) := (ranked[..n], ranked[n..]);
    assert ranked == top + rest;
    forall m, o | m in top && o in multiset(rest)
      ensures RanksBefore(m, o)
    {
      var i :| 0 <= i < |top| && top[i] == m;
      var j :| 0 <= j < |rest| && rest[j] == o;
      assert ranked[i] == m && ranked[n + j] == o;
    }
  }

  // ---------------------------------------------------------------- recall

  datatype Source = Retrieval | Search

  /** A record offered to the conversation: how long it is, and where it came from. */
  datatype Candidate = Candidate(id: string, size: nat, availability: Availability, source: Source)

  /** A record of the primary selector; it may have no id, or no human form. */
  datatype Retrieved = Retrieved(id: string, size: Option<nat>, continuity: bool)

  function Sizes(cs: seq<Candidate>): nat {
    if cs == [] then 0 else Sizes(cs[..|cs| - 1]) + cs[|cs| - 1].size
  }

  /** What recall may hold: how many records, how long each, how long together. */
  datatype Room = Room(limit: nat, cap: nat, budget: nat)

  /** In order, whatever still fits. */
  function Taken(cs: seq<Candidate>, room: Room): seq<Candidate> {
    if cs == [] then []
    else
      var front, last := Taken(cs[..|cs| - 1], room), cs[|cs| - 1];
      if |front| < room.limit && last.size <= room.cap && Sizes(front) + last.size <= room.budget then front + [last]
      else front
  }

  predicate Subsequence(a: seq<Candidate>, b: seq<Candidate>) {
    if a == [] then true
    else if b == [] then false
    else if a[|a| - 1] == b[|b| - 1] && Subsequence(a[..|a| - 1], b[..|b| - 1]) then true
    else Subsequence(a, b[..|b| - 1])
  }

  /** Recall keeps the order, the limit, the budget and each record's cap. */
  lemma {:induction false} RecallKeepsTheRoom(cs: seq<Candidate>, room: Room)
    ensures var t := Taken(cs, room);
      && Subsequence(t, cs) && |t| <= room.limit && Sizes(t) <= room.budget
      && (forall c | c in t :: c in cs && c.size <= room.cap)
  {
    if cs != [] {
      var front, last := cs[..|cs| - 1], cs[|cs| - 1];
      assert cs == front + [last];
      RecallKeepsTheRoom(front, room);
      var t := Taken(front, room);
      assert (t + [last])[..|t + [last]| - 1] == t;
    }
  }

  lemma {:induction false} EarlierStaysTaken(cs: seq<Candidate>, room: Room, k: nat)
    requires k <= |cs|
    ensures Taken(cs[..k], room) <= Taken(cs, room) && Sizes(Taken(cs[..k], room)) <= Sizes(Taken(cs, room))
  {
    if k == |cs| {
      assert cs[..k] == cs;
    } else {
      EarlierStaysTaken(cs[..|cs| - 1], room, k);
      assert cs[..|cs| - 1][..k] == cs[..k];
      var t := Taken(cs[..|cs| - 1], room);
      assert (t + [cs[|cs| - 1]])[..|t + [cs[|cs| - 1]]| - 1] == t;
    }
  }

  /** Nothing that was passed over before the limit was reached would have fitted, then or now. */
  lemma RecallIsGreedy(cs: seq<Candidate>, room: Room, k: nat)
    requires k < |cs|
    ensures var before, after, all := Taken(cs[..k], room), Taken(cs[..k + 1], room), Taken(cs, room);
      && before <= after <= all
      && (after == before + [cs[k]]
          || (after == before
              && (|before| == room.limit || cs[k].size > room.cap
                  || (Sizes(before) + cs[k].size > room.budget && Sizes(all) + cs[k].size > room.budget))))
  {
    assert cs[..k + 1][..k] == cs[..k];
    EarlierStaysTaken(cs, room, k);
    EarlierStaysTaken(cs, room, k + 1);
    EarlierStaysTaken(cs[..k + 1], room, k);
    RecallKeepsTheRoom(cs[..k], room);
  }

  /** One more candidate: it is taken when it fits. */
  lemma TakenNext(cs: seq<Candidate>, room: Room, i: nat)
    requires i < |cs|
    ensures var t, c := Taken(cs[..i], room), cs[i];
      && Taken(cs[..i + 1], room) == (if |t| < room.limit && c.size <= room.cap && Sizes(t) + c.size <= room.budget
                                      then t + [c] else t)
      && Sizes(t + [c]) == Sizes(t) + c.size
  {
    assert cs[..i + 1][..i] == cs[..i];
    var t := Taken(cs[..i], room);
    assert (t + [cs[i]])[..|t|] == t;
  }

  /** Once the limit is reached, nothing more is taken. */
  lemma TakenIsFull(cs: seq<Candidate>, room: Room, i: nat)
    requires i <= |cs| && |Taken(cs[..i], room)| >= room.limit
    ensures Taken(cs[..i], room) == Taken(cs, room)
  {
    EarlierStaysTaken(cs, room, i);
    RecallKeepsTheRoom(cs, room);
  }

  /** The working context and its trace grow together. */
  method TakeWhatFits(cs: seq<Candidate>, room: Room) returns (working: seq<Candidate>, trace: seq<string>, used: nat)
    ensures working == Taken(cs, room) && used == Sizes(working)
    ensures |trace| == |working| && forall i | 0 <= i < |trace| :: trace[i] == working[i].id
  {
    working, trace, used := [], [], 0;
    var i := 0;
    assert Taken(cs[..0], room) == [] && Sizes([]) == 0;
    hide Taken, Sizes, Min;
    while i < |cs|
      invariant 0 <= i <= |cs| && working == Taken(cs[..i], room) && used == Sizes(working)
      invariant |trace| == |working| && forall k | 0 <= k < |trace| :: trace[k] == working[k].id
    {
      if |working| >= room.limit {
        TakenIsFull(cs, room, i);
        return;
      }
      TakenNext(cs, room, i);
      var c := cs[i];
      i := i + 1;
      if c.size > room.cap || used + c.size > room.budget {
        continue;
      }
      working, trace, used := working + [c], trace + [c.id], used + c.size;
    }
    assert cs[..|cs|] == cs;
  }

  // ---------------------------------------------------------------- gathering candidates

  /** The stand-in id of a retrieved record that has none. */
  const UNNAMED := "internal-current-selection"

  predicate Unnamed(c: Candidate) {
    c.source.Retrieval? && c.id == UNNAMED
  }

  /** A candidate found by search never repeats the id of one before it, and is forgotten only in a forgotten review. */
  predicate Gathered(cs: seq<Candidate>, mode: Mode) {
    && (forall i, j | 0 <= i < j < |cs| && cs[j].source.Search? && cs[i].id == cs[j].id :: Unnamed(cs[i]))
    && (forall c | c in cs :: c.source.Search? && c.availability.Forgotten? ==> mode.ForgottenReview?)
    && (!mode.CurrentMode? ==> forall c | c in cs :: c.source.Search?)
  }

  /** The candidate of a match, as the human projection gives it. */
  function Projected(m: Scored, size: Item -> nat): Candidate {
    Candidate(m.item.id, size(m.item), m.item.availability, Search)
  }

  function AllProjected(matches: seq<Scored>, size: Item -> nat): seq<Candidate> {
    seq(|matches|, i requires 0 <= i < |matches| => Projected(matches[i], size))
  }

  /**
    * Search leaves these out: unfinished tasks when only finished ones are asked for, threads when one was retrieved.
    */
  predicate LeftOut(i: Item, records: seq<Retrieved>, completedOnly: bool) {
    (completedOnly && i.state != "completed") || (i.kind.ThreadKind? && exists r :: r in records && r.continuity)
  }

  predicate FromMatch(
    c: Candidate, matches: seq<Scored>, records: seq<Retrieved>, completedOnly: bool, size: Item -> nat)
  {
    exists m :: m in matches && c == Projected(m, size) && !LeftOut(m.item, records, completedOnly)
  }

  /** Every candidate's id is taken, unless it is the stand-in. */
  predicate Tracked(cs: seq<Candidate>, selected: set<string>) {
    forall c | c in cs :: c.id in selected || Unnamed(c)
  }

  /** The retrieved records that have a human form, in order. */
  function Retrievals(records: seq<Retrieved>): seq<Candidate> {
    if records == [] then []
    else
      var r := records[|records| - 1];
      Retrievals(records[..|records| - 1])
      + if r.size.None? then []
        else [Candidate(if r.id == "" then UNNAMED else r.id, r.size.value, Available, Retrieval)]
  }

  method FromRetrieval(records: seq<Retrieved>) returns (cs: seq<Candidate>, selected: set<string>)
    ensures Tracked(cs, selected) && forall c | c in cs :: c.source.Retrieval? && c.availability.Available?
    ensures cs == Retrievals(records) && forall id | id in selected :: HasId(cs, id)
  {
    cs, selected := [], {};
    for i := 0 to |records|
      invariant Tracked(cs, selected) && forall c | c in cs :: c.source.Retrieval? && c.availability.Available?
      invariant cs == Retrievals(records[..i]) && forall id | id in selected :: HasId(cs, id)
    {
      var r := records[i];
      assert records[..i + 1][..i] == records[..i];
      if r.size.None? {
        continue;
      }
      var added := Candidate(if r.id == "" then UNNAMED else r.id, r.size.value, Available, Retrieval);
      MoreIds(cs, added, selected);
      cs := cs + [added];
      if r.id != "" {
        selected := selected + {r.id};
      }
    }
    assert records[..|records|] == records;
  }

  predicate HasId(cs: seq<Candidate>, id: string) {
    exists c :: c in cs && c.id == id
  }

  lemma MoreIds(cs: seq<Candidate>, added: Candidate, ids: set<string>)
    ensures HasId(cs + [added], added.id)
    ensures forall id | HasId(cs, id) :: HasId(cs + [added], id)
  {
    assert added in cs + [added];
    assert forall c | c in cs :: c in cs + [added];
  }

  /** What search adds: matches in their order, none left out on purpose, none whose id is there already. */
  method AddMatches(
    mode: Mode, before: seq<Candidate>, taken: set<string>, records: seq<Retrieved>, matches: seq<Scored>,
    size: Item -> nat, completedOnly: bool)
    returns (cs: seq<Candidate>)
    requires (forall m | m in matches :: MatchesMode(m.item, mode)) && Gathered(before, mode) && Tracked(before, taken)
    requires (forall c | c in before :: c.source.Retrieval?) && forall id | id in taken :: HasId(before, id)
    ensures Gathered(cs, mode) && before <= cs && Subsequence(cs[|before|..], AllProjected(matches, size))
    ensures forall c | c in cs && c.source.Search? :: FromMatch(c, matches, records, completedOnly, size)
    ensures forall m | m in matches :: HasId(cs, m.item.id) || LeftOut(m.item, records, completedOnly)
  {
    hide LeftOut, FromMatch, Subsequence, AllProjected, Gathered, Tracked, HasId;
    cs := before;
    var selected := taken;
    ghost var added: seq<Candidate> := [];
    NothingIsTaken(matches, size);
    for i := 0 to |matches|
      invariant Gathered(cs, mode) && Tracked(cs, selected) && forall id | id in selected :: HasId(cs, id)
      invariant cs == before + added && Subsequence(added, AllProjected(matches[..i], size))
      invariant forall c | c in cs && c.source.Search? :: FromMatch(c, matches, records, completedOnly, size)
      invariant forall k | 0 <= k < i ::
        HasId(cs, matches[k].item.id) || LeftOut(matches[k].item, records, completedOnly)
    {
      var item := matches[i].item;
      assert matches[i] in matches;
      NextProjected(added, matches, i, size);
      if LeftOut(item, records, completedOnly) || item.id in selected {
        continue;
      }
      var next := Candidate(item.id, size(item), item.availability, Search);
      AddedIsAMatch(matches[i], matches, records, completedOnly, size);
      OneMoreCandidate(cs, selected, next, mode);
      MoreIds(cs, next, selected);
      cs, selected, added := cs + [next], selected + {item.id}, added + [next];
    }
    assert matches[..|matches|] == matches && cs[|before|..] == added;
  }

  lemma NothingIsTaken(matches: seq<Scored>, size: Item -> nat)
    ensures Subsequence([], AllProjected(matches[..0], size))
  {
  }

  lemma NextProjected(added: seq<Candidate>, matches: seq<Scored>, i: nat, size: Item -> nat)
    requires i < |matches| && Subsequence(added, AllProjected(matches[..i], size))
    ensures Subsequence(added, AllProjected(matches[..i + 1], size))
    ensures Subsequence(added + [Projected(matches[i], size)], AllProjected(matches[..i + 1], size))
  {
    var all, next := AllProjected(matches[..i + 1], size), Projected(matches[i], size);
    assert all[..|all| - 1] == AllProjected(matches[..i], size) && all[|all| - 1] == next;
    assert (added + [next])[..|added|] == added;
  }

  lemma AddedIsAMatch(
    m: Scored, matches: seq<Scored>, records: seq<Retrieved>, completedOnly: bool, size: Item -> nat)
    requires m in matches && !LeftOut(m.item, records, completedOnly)
    ensures FromMatch(Projected(m, size), matches, records, completedOnly, size)
  {
  }

  lemma OneMoreCandidate(cs: seq<Candidate>, selected: set<string>, added: Candidate, mode: Mode)
    requires Gathered(cs, mode) && Tracked(cs, selected) && added.id !in selected && added.source.Search?
    requires added.availability.Forgotten? ==> mode.ForgottenReview?
    ensures Gathered(cs + [added], mode) && Tracked(cs + [added], selected + {added.id})
  {
    forall i | 0 <= i < |cs|
      ensures cs[i].id == added.id ==> Unnamed(cs[i])
    {
      assert cs[i] in cs;
    }
  }

  /** The primary selection in the current mode, then what search adds. */
  method GatherCandidates(
    mode: Mode, general: bool, limit: nat, records: seq<Retrieved>, matches: seq<Scored>, size: Item -> nat,
    completedOnly: bool) returns (cs: seq<Candidate>)
    requires forall m | m in matches :: MatchesMode(m.item, mode)
    ensures Gathered(cs, mode)
    ensures var first := if mode.CurrentMode? then Retrievals(records) else [];
      && first <= cs && Subsequence(cs[|first|..], AllProjected(matches, size))
      && (if general && (mode.CurrentMode? ==> |first| < limit) then
            forall m | m in matches :: HasId(cs, m.item.id) || LeftOut(m.item, records, completedOnly)
          else cs == first)
    ensures forall c | c in cs && c.source.Search? :: FromMatch(c, matches, records, completedOnly, size)
  {
    hide LeftOut, FromMatch, Subsequence;
    cs := [];
    var selected: set<string> := {};
    if mode.CurrentMode? {
      cs, selected := FromRetrieval(records);
    }
    assert forall i | 0 <= i < |cs| :: cs[i] in cs;
    NothingIsASubsequence(AllProjected(matches, size));
    assert cs[|cs|..] == [];
    if general && (!mode.CurrentMode? || |cs| < limit) {
      cs := AddMatches(mode, cs, selected, records, matches, size, completedOnly);
    }
  }

  lemma NothingIsASubsequence(cs: seq<Candidate>)
    ensures Subsequence([], cs)
  {
  }

  /** Recall: the retrieved records first, then three times as many search results as are wanted, cut to the room. */
  method RecallInformation(
    q: Request, items: seq<Item>, now: Time, records: seq<Retrieved>, general: bool, room: Room, size: Item -> nat,
    completedOnly: bool)
    returns (matches: seq<Scored>, cs: seq<Candidate>, working: seq<Candidate>, trace: seq<string>, used: nat)
    ensures var w := q.(limit := if room.limit == 0 then 1 else 3 * room.limit);
      |matches| == Min(w.limit, |Hits(w, items, now)|) && multiset(matches) <= multiset(Hits(w, items, now))
    ensures Sorted(matches, RanksBefore)
    ensures var first := if q.mode.CurrentMode? then Retrievals(records) else [];
      && Gathered(cs, q.mode) && first <= cs && Subsequence(cs[|first|..], AllProjected(matches, size))
      && (if general && (q.mode.CurrentMode? ==> |first| < room.limit) then
            forall m | m in matches ::
              || HasId(cs, m.item.id)
              || (completedOnly && m.item.state != "completed")
              || (m.item.kind.ThreadKind? && exists r :: r in records && r.continuity)
          else cs == first)
    ensures working == Taken(cs, room) && used == Sizes(working)
    ensures |trace| == |working| && forall i | 0 <= i < |trace| :: trace[i] == working[i].id
    ensures forall c | c in working && c.source.Search? ::
      exists i ::
        && i in items && i.id == c.id && size(i) == c.size && i.availability == c.availability && Eligible(i, q)
        && (completedOnly ==> i.state == "completed")
        && !(i.kind.ThreadKind? && exists r :: r in records && r.continuity)
  {
    hide RanksBefore, Taken, FromMatch, Subsequence, LeftOut, Relevance, Scores, Eligible, Hits, Gathered;
    hide Sizes, Retrievals, AllProjected, Sorted, HasId;
    var wanted := if room.limit == 0 then 1 else room.limit * 3;
    matches := SearchInformation(q.(limit := wanted), items, now);
    forall m | m in matches
      ensures MatchesMode(m.item, q.mode) && m.item in items && Eligible(m.item, q)
    {
      SameEligible(m.item, q, wanted);
    }
    cs := GatherCandidates(q.mode, general, room.limit, records, matches, size, completedOnly);
    working, trace, used := TakeWhatFits(cs, room);
    if general && (q.mode.CurrentMode? ==> |Retrievals(records)| < room.limit) {
      WhatIsLeftOut(cs, matches, records, completedOnly);
    }
    SearchedAreEligible(q, items, records, matches, cs, room, size, completedOnly);
  }

  lemma SearchedAreEligible(
    q: Request, items: seq<Item>, records: seq<Retrieved>, matches: seq<Scored>, cs: seq<Candidate>, room: Room,
    size: Item -> nat, completedOnly: bool)
    requires forall m | m in matches :: m.item in items && Eligible(m.item, q)
    requires forall c | c in cs && c.source.Search? :: FromMatch(c, matches, records, completedOnly, size)
    ensures forall c | c in Taken(cs, room) && c.source.Search? ::
      exists i ::
        && i in items && i.id == c.id && size(i) == c.size && i.availability == c.availability && Eligible(i, q)
        && (completedOnly ==> i.state == "completed")
        && !(i.kind.ThreadKind? && exists r :: r in records && r.continuity)
  {
    hide FromMatch, Eligible, Taken, Subsequence;
    RecallKeepsTheRoom(cs, room);
    forall c | c in Taken(cs, room) && c.source.Search?
      ensures exists i ::
        && i in items && i.id == c.id && size(i) == c.size && i.availability == c.availability && Eligible(i, q)
        && (completedOnly ==> i.state == "completed")
        && !(i.kind.ThreadKind? && exists r :: r in records && r.continuity)
    {
      assert c in cs;
      FromSomeMatch(c, matches, records, completedOnly, size);
    }
  }

  lemma SameEligible(i: Item, q: Request, limit: nat)
    requires Eligible(i, q.(limit := limit))
    ensures Eligible(i, q) && MatchesMode(i, q.mode)
  {
  }

  lemma WhatIsLeftOut(cs: seq<Candidate>, matches: seq<Scored>, records: seq<Retrieved>, completedOnly: bool)
    requires forall m | m in matches :: HasId(cs, m.item.id) || LeftOut(m.item, records, completedOnly)
    ensures forall m | m in matches ::
      || HasId(cs, m.item.id)
      || (completedOnly && m.item.state != "completed")
      || (m.item.kind.ThreadKind? && exists r :: r in records && r.continuity)
  {
  }

  lemma FromSomeMatch(
    c: Candidate, matches: seq<Scored>, records: seq<Retrieved>, completedOnly: bool, size: Item -> nat)
    requires FromMatch(c, matches, records, completedOnly, size)
    ensures exists m ::
      && m in matches && m.item.id == c.id && size(m.item) == c.size && m.item.availability == c.availability
      && (completedOnly ==> m.item.state == "completed")
      && !(m.item.kind.ThreadKind? && exists r :: r in records && r.continuity)
  {
  }
}
