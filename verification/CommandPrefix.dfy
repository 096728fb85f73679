/** Correcting the leading words of a file command, and nothing behind them. */
module CommandPrefix {
  import opened Common
  import opened EditDistance

  const COMMAND_WORDS: seq<string> := [
    "покажи", "найди", "поищи", "проверь", "посмотри", "открой", "прочитай",
    "последние", "недавние", "свежие", "файл", "файлы", "документ", "документы", "все"
  ]
  const LEADING_COMMANDS := {"покажи", "найди", "поищи", "проверь", "посмотри", "открой", "прочитай"}
  const LISTING_COMMANDS := {"покажи", "найди", "поищи", "проверь", "посмотри"}
  const LISTING_MODIFIERS := {"последние", "недавние", "свежие", "все"}
  const ADDRESS := {"маш", "маша", "машенька"}
  const OBVIOUS_TYPOS: map<string, string> := map["послледние" := "последние", "файы" := "файлы"]

  predicate Close(a: string, b: string) {
    Distance(a, b) <= 1
  }

  /** The words of the list that are at most one edit away, in order. */
  function Candidates(value: string, words: seq<string>): (c: seq<string>)
    ensures forall w | w in c :: w in words
    ensures forall w | w in words && Close(value, w) :: w in c
  {
    if words == [] then []
    else
      var front, last := Candidates(value, words[..|words| - 1]), words[|words| - 1];
      assert words == words[..|words| - 1] + [last];
      if Close(value, last) then front + [last] else front
  }

  function Corrected(value: string): string {
    if value in OBVIOUS_TYPOS then OBVIOUS_TYPOS[value]
    else
      var c := Candidates(value, COMMAND_WORDS);
      if |c| == 1 then c[0] else value
  }

  method CorrectWord(value: string) returns (r: string)
    ensures r == Corrected(value)
  {
    if value in OBVIOUS_TYPOS {
      return OBVIOUS_TYPOS[value];
    }
    var c: seq<string> := [];
    for i := 0 to |COMMAND_WORDS|
      invariant c == Candidates(value, COMMAND_WORDS[..i])
    {
      assert COMMAND_WORDS[..i + 1][..i] == COMMAND_WORDS[..i];
      var close := EditDistanceAtMostOne(value, COMMAND_WORDS[i]);
      if close {
        c := c + [COMMAND_WORDS[i]];
      }
    }
    assert COMMAND_WORDS[..|COMMAND_WORDS|] == COMMAND_WORDS;
    r := if |c| == 1 then c[0] else value;
  }

  // ---------------------------------------------------------------- one word

  lemma TyposAreNoCommands(w: string)
    requires w in COMMAND_WORDS
    ensures w !in OBVIOUS_TYPOS
  {
    assert |"послледние"| == 10 && |"файы"| == 4;
    assert "файы"[3] != "файл"[3];
  }

  /** A command word is left alone, even when its plural is close to it. */
  lemma CommandWordsAreFixed(w: string)
    requires w in COMMAND_WORDS
    ensures Corrected(w) == w
  {
    hide COMMAND_WORDS;
    TyposAreNoCommands(w);
    ZeroMeansEqual(w, w);
    assert w in Candidates(w, COMMAND_WORDS);
  }

  lemma TyposBecomeCommands(v: string)
    requires v in OBVIOUS_TYPOS
    ensures OBVIOUS_TYPOS[v] in COMMAND_WORDS
  {
    assert COMMAND_WORDS[7] == "последние" && COMMAND_WORDS[11] == "файлы";
  }

  /** A correction is a command word or no change, so correcting twice is correcting once. */
  lemma CorrectionIsIdempotent(value: string)
    ensures Corrected(value) == value || Corrected(value) in COMMAND_WORDS
    ensures Corrected(Corrected(value)) == Corrected(value)
  {
    hide COMMAND_WORDS;
    if value in OBVIOUS_TYPOS {
      TyposBecomeCommands(value);
    }
    if Corrected(value) != value {
      CommandWordsAreFixed(Corrected(value));
    }
  }

  /** Number `i` is the only one of the words within one edit. */
  predicate OnlyClose(value: string, words: seq<string>, i: int) {
    0 <= i < |words| && forall j | 0 <= j < |words| :: Distance(value, words[j]) <= 1 <==> j == i
  }

  /** A word that is no listed typo becomes the only command word within one edit; when there is none, it stays. */
  lemma CorrectedIsTheOnlyClose(value: string)
    requires value !in OBVIOUS_TYPOS
    ensures forall i | OnlyClose(value, COMMAND_WORDS, i) :: Corrected(value) == COMMAND_WORDS[i]
    ensures (forall i :: !OnlyClose(value, COMMAND_WORDS, i)) ==> Corrected(value) == value
  {
    hide COMMAND_WORDS, OnlyClose;
    CandidatesOnce(value, COMMAND_WORDS);
  }

  lemma {:induction false} CandidatesOnce(value: string, words: seq<string>)
    ensures |Candidates(value, words)| == 1 <==> exists i :: OnlyClose(value, words, i)
    ensures forall i | OnlyClose(value, words, i) :: Candidates(value, words) == [words[i]]
  {
    if words != [] {
      var front, last := words[..|words| - 1], words[|words| - 1];
      CandidatesOnce(value, front);
      var found := Candidates(value, front);
      assert words == front + [last];
      if !Close(value, last) {
        forall i
          ensures OnlyClose(value, front, i) <==> OnlyClose(value, words, i)
        {
          assert 0 <= i < |front| ==> front[i] == words[i];
        }
      } else if found == [] {
        assert forall j | 0 <= j < |front| :: words[j] in front;
        assert OnlyClose(value, words, |front|);
      } else {
        CandidatesAreClose(value, front);
        assert found[0] in found;
        var j :| 0 <= j < |front| && front[j] == found[0];
        assert Distance(value, words[j]) <= 1 && Distance(value, words[|front|]) <= 1;
      }
    }
  }

  lemma {:induction false} CandidatesAreClose(value: string, words: seq<string>)
    ensures forall w | w in Candidates(value, words) :: Distance(value, w) <= 1
  {
    if words != [] {
      CandidatesAreClose(value, words[..|words| - 1]);
    }
  }

  // ---------------------------------------------------------------- the prefix

  function CommandIndex(words: seq<string>): nat
    requires words != []
  {
    if words[0] in ADDRESS then 1 else 0
  }

  /** The words after the positions behind the command, up to `i`, had their turn. */
  function CorrectedUpTo(words: seq<string>, command: nat, i: nat): (r: seq<string>)
    requires i <= |words|
    ensures |r| == |words|
    ensures forall k | 0 <= k < |words| && (k <= command || i <= k) :: r[k] == words[k]
    decreases i
  {
    if i <= command + 1 then words
    else
      var r := CorrectedUpTo(words, command, i - 1);
      if i - 1 == command + 1 || r[i - 2] in LISTING_MODIFIERS then r[i - 1 := Corrected(r[i - 1])] else r
  }

  /** The words with their command phrase corrected. */
  function Normalized(words: seq<string>, limit: nat): seq<string>
    requires words != []
  {
    var c := CommandIndex(words);
    var n := Min(limit, |words|);
    if c >= n then words
    else
      var command := Corrected(words[c]);
      if command !in LEADING_COMMANDS then words
      else if command !in LISTING_COMMANDS then words[c := command]
      else CorrectedUpTo(words[c := command], c, n)
  }

  method NormalizeCommandPrefix(message: seq<string>, limit: nat) returns (words: seq<string>)
    requires message != []
    ensures words == Normalized(message, limit)
  {
    words := message;
    var c := if words[0] in ADDRESS then 1 else 0;
    var n := Min(limit, |words|);
    if c >= n {
      return words;
    }
    var command := CorrectWord(words[c]);
    if command !in LEADING_COMMANDS {
      return words;
    }
    words := words[c := command];
    if command !in LISTING_COMMANDS {
      return words;
    }
    ghost var started := words;
    for i := c + 1 to n
      invariant words == CorrectedUpTo(started, c, i)
    {
      var previous := words[i - 1];
      var corrected := CorrectWord(words[i]);
      if i == c + 1 || previous in LISTING_MODIFIERS {
        words := words[i := corrected];
      }
    }
  }

  // ---------------------------------------------------------------- what it keeps

  /** The number of words stays, and so does every word beyond the limit, or when there is no command at the front. */
  lemma OnlyThePrefixChanges(words: seq<string>, limit: nat)
    requires words != []
    ensures var r := Normalized(words, limit);
      && |r| == |words|
      && (forall k | 0 <= k < |words| && limit <= k :: r[k] == words[k])
      && (forall k | 0 <= k < |words| :: r[k] == words[k] || r[k] == Corrected(words[k]))
      && (r != words ==>
            CommandIndex(words) < Min(limit, |words|) && Corrected(words[CommandIndex(words)]) in LEADING_COMMANDS)
  {
    hide ADDRESS, LEADING_COMMANDS, LISTING_COMMANDS, LISTING_MODIFIERS, COMMAND_WORDS, Corrected;
    var c, n := CommandIndex(words), Min(limit, |words|);
    if c < n {
      EachIsCorrectedOrKept(words[c := Corrected(words[c])], c, n);
    }
  }

  /**
    * Word by word: a command at the front, or behind an address, is corrected; behind a listing command so is the next
    * word, and each word whose corrected predecessor is a listing modifier; everything else stays.
    */
  lemma CommandByPosition(words: seq<string>, limit: nat, k: nat)
    requires k < |words|
    ensures var c := if words[0] in {"маш", "маша", "машенька"} then 1 else 0;
      var n := Min(limit, |words|);
      var r := Normalized(words, limit);
      && |r| == |words|
      && (c >= n || Corrected(words[c]) !in LEADING_COMMANDS ==> r[k] == words[k])
      && (c < n && Corrected(words[c]) in LEADING_COMMANDS ==>
            var listing := Corrected(words[c]) in LISTING_COMMANDS;
            r[k] == if k == c || (listing && c < k < n && (k == c + 1 || r[k - 1] in LISTING_MODIFIERS)) then
                      Corrected(words[k])
                    else words[k])
  {
    hide LEADING_COMMANDS, LISTING_COMMANDS, LISTING_MODIFIERS, COMMAND_WORDS, Corrected;
    var c, n := CommandIndex(words), Min(limit, |words|);
    if c < n && c < k < n {
      TurnByPosition(words[c := Corrected(words[c])], c, n, k);
    }
  }

  lemma TurnByPosition(words: seq<string>, command: nat, n: nat, k: nat)
    requires command < k < n <= |words|
    ensures var r := CorrectedUpTo(words, command, n);
      r[k] == if k == command + 1 || r[k - 1] in LISTING_MODIFIERS then Corrected(words[k]) else words[k]
  {
    hide LISTING_MODIFIERS, Corrected;
    LaterTurnsKeep(words, command, k + 1, n);
    LaterTurnsKeep(words, command, k, k + 1);
  }

  lemma {:induction false} EachIsCorrectedOrKept(words: seq<string>, command: nat, i: nat)
    requires i <= |words|
    ensures forall k | 0 <= k < |words| ::
      CorrectedUpTo(words, command, i)[k] == words[k]
      || (k > command && CorrectedUpTo(words, command, i)[k] == Corrected(words[k]))
    decreases i
  {
    if i > command + 1 {
      EachIsCorrectedOrKept(words, command, i - 1);
    }
  }

  /** What has had its turn stays as it is when its turn comes again. */
  lemma {:induction false} TurnsAreIdempotent(words: seq<string>, command: nat, n: nat, i: nat)
    requires i <= n <= |words|
    ensures CorrectedUpTo(CorrectedUpTo(words, command, n), command, i) == CorrectedUpTo(words, command, n)
    decreases i
  {
    if i > command + 1 {
      var r := CorrectedUpTo(words, command, n);
      TurnsAreIdempotent(words, command, n, i - 1);
      LaterTurnsKeep(words, command, i, n);
      LaterTurnsKeep(words, command, i - 1, n);
      CorrectionIsIdempotent(CorrectedUpTo(words, command, i - 1)[i - 1]);
    }
  }

  /** Turns after `i` change nothing before `i`. */
  lemma {:induction false} LaterTurnsKeep(words: seq<string>, command: nat, i: nat, n: nat)
    requires i <= n <= |words|
    ensures forall k | 0 <= k < i :: CorrectedUpTo(words, command, n)[k] == CorrectedUpTo(words, command, i)[k]
    decreases n
  {
    if i < n {
      LaterTurnsKeep(words, command, i, n - 1);
    }
  }

  lemma CommandsAreNoAddress(w: string)
    requires w in LEADING_COMMANDS
    ensures w !in ADDRESS && w in COMMAND_WORDS
  {
    assert COMMAND_WORDS[0] == "покажи" && COMMAND_WORDS[1] == "найди" && COMMAND_WORDS[2] == "поищи";
    assert COMMAND_WORDS[3] == "проверь" && COMMAND_WORDS[4] == "посмотри" && COMMAND_WORDS[5] == "открой";
    assert COMMAND_WORDS[6] == "прочитай";
    assert w[0] != 'м';
    assert forall a | a in ADDRESS :: a[0] == 'м';
  }

  /** Normalizing a command twice is normalizing it once. */
  lemma NormalizingIsIdempotent(words: seq<string>, limit: nat)
    requires words != []
    ensures Normalized(Normalized(words, limit), limit) == Normalized(words, limit)
  {
    hide ADDRESS, LEADING_COMMANDS, LISTING_COMMANDS, LISTING_MODIFIERS, COMMAND_WORDS;
    var c, n := CommandIndex(words), Min(limit, |words|);
    if c < n && Corrected(words[c]) in LEADING_COMMANDS {
      var command := Corrected(words[c]);
      CommandsAreNoAddress(command);
      CommandWordsAreFixed(command);
      var started := words[c := command];
      var r := Normalized(words, limit);
      assert r[c] == command && CommandIndex(r) == c;
      if command in LISTING_COMMANDS {
        TurnsAreIdempotent(started, c, n, n);
        assert r[c := command] == r;
      }
    }
  }
}
