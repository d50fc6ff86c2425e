// The client's game hook: the values it derives from the fetched entries,
// scores and turn order, the guards in front of its requests, and the state
// updates it makes when a response or a room event arrives.

module GameLogic {
  import opened Types
  import opened JsStrings
  import opened Distinct
  import opened Sorting
  import opened TurnQueue
  import opened Store

  // ---- Derived values -------------------------------------------------

  /** `entries.some(e => e.revealed)`: the round counts as started once any
      entry has been revealed. */
  function StartedFrom(es: seq<Entry>): (r: bool)
    ensures r <==> exists k :: 0 <= k < |es| && es[k].revealed
  {
    if es == [] then false
    else if es[0].revealed then true
    else
      var rest := StartedFrom(es[1..]);
      assert forall k :: 1 <= k < |es| ==> es[k] == es[1..][k - 1];
      rest
  }

  /** The entries a start revealed show the round as started on every client. */
  lemma StartedAfterReveal(before: seq<Entry>, after: seq<Entry>)
    requires AllRevealedFrom(before, after) && before != []
    ensures StartedFrom(after)
  {
    assert after[0].revealed;
  }

  /** `entries.filter(e => e.guessed === guessed).map(e => e.authorName)`. */
  function AuthorsWhere(es: seq<Entry>, guessed: bool): (r: seq<string>)
    ensures |r| <= |es|
    ensures forall p :: p in r <==> exists k :: 0 <= k < |es| && es[k].guessed == guessed && es[k].authorName == p
  {
    if es == [] then []
    else
      var rest := AuthorsWhere(es[1..], guessed);
      assert forall k :: 1 <= k < |es| ==> es[k] == es[1..][k - 1];
      (if es[0].guessed == guessed then [es[0].authorName] else []) + rest
  }

  /** `Array.from(new Set(authors)).sort(compare)`: the distinct authors with
      an entry in the given guessed state, each once, in the comparator's order. */
  function NameList(es: seq<Entry>, guessed: bool, less: (string, string) -> bool): (r: seq<string>)
    requires IsStrictTotalOrder(less)
    ensures StrictlySorted(r, less)
    ensures forall p :: p in r <==> exists k :: 0 <= k < |es| && es[k].guessed == guessed && es[k].authorName == p
  {
    var names := Dedup(AuthorsWhere(es, guessed));
    var r := SortBy(names, less);
    PermutationDistinct(names, r);
    SortedDistinctIsStrict(r, less);
    assert forall p :: p in r <==> p in multiset(r);
    assert forall p :: p in names <==> p in multiset(names);
    r
  }

  /** Any list sorted by the comparator and holding exactly those names is the
      name list: the displayed list depends on the set of names alone. */
  lemma NameListIsTheSortedSet(es: seq<Entry>, guessed: bool, less: (string, string) -> bool, s: seq<string>)
    requires IsStrictTotalOrder(less)
    requires StrictlySorted(s, less)
    requires forall p :: p in s <==> exists k :: 0 <= k < |es| && es[k].guessed == guessed && es[k].authorName == p
    ensures NameList(es, guessed, less) == s
  {
    StrictlySortedUnique(NameList(es, guessed, less), s, less);
  }

  /** `guessedNames`: the authors already caught, in the default string order. */
  function GuessedNames(es: seq<Entry>): (r: seq<string>)
    ensures StrictlySorted(r, CodeUnitLess)
    ensures forall p :: p in r <==> exists k :: 0 <= k < |es| && es[k].guessed && es[k].authorName == p
  {
    CodeUnitOrderIsStrictTotal();
    NameList(es, true, CodeUnitLess)
  }

  /** `notGuessedNames`: the authors with an entry not yet caught. */
  function NotGuessedNames(es: seq<Entry>): (r: seq<string>)
    ensures StrictlySorted(r, CodeUnitLess)
    ensures forall p :: p in r <==> exists k :: 0 <= k < |es| && !es[k].guessed && es[k].authorName == p
  {
    CodeUnitOrderIsStrictTotal();
    NameList(es, false, CodeUnitLess)
  }

  /** Every author lands in at least one of the two lists, and in both exactly
      when some entries of theirs are caught and some are not. */
  lemma NameListsCoverAuthors(es: seq<Entry>, p: string)
    ensures p in AuthorsOf(es) <==> p in GuessedNames(es) || p in NotGuessedNames(es)
  {
    if p in AuthorsOf(es) {
      var k :| 0 <= k < |AuthorsOf(es)| && AuthorsOf(es)[k] == p;
      assert es[k].authorName == p;
    }
    if p in GuessedNames(es) || p in NotGuessedNames(es) {
      var k :| 0 <= k < |es| && es[k].authorName == p;
      assert AuthorsOf(es)[k] == p;
    }
  }

  /** `allGuessed`: there are entries and every one has been caught. */
  predicate AllGuessed(es: seq<Entry>)
  {
    |es| > 0 && forall k :: 0 <= k < |es| ==> es[k].guessed
  }

  /** `remainingEntries`: the entries not yet caught, in list order. */
  function RemainingEntries(es: seq<Entry>): (r: seq<Entry>)
    ensures |r| <= |es|
    ensures forall e :: e in r <==> e in es && !e.guessed
  {
    if es == [] then []
    else (if es[0].guessed then [] else [es[0]]) + RemainingEntries(es[1..])
  }

  /** No entry remains exactly when every entry has been caught. */
  lemma {:induction false} RemainingEmptyIff(es: seq<Entry>)
    ensures RemainingEntries(es) == [] <==> forall k :: 0 <= k < |es| ==> es[k].guessed
  {
    if es != [] {
      RemainingEmptyIff(es[1..]);
      assert forall j :: 1 <= j < |es| ==> es[j] == es[1..][j - 1];
    }
  }

  /** The round is over exactly when there are entries and none remains, which
      is exactly when the list of names still to catch is empty. */
  lemma AllGuessedIffNoneRemaining(es: seq<Entry>)
    ensures AllGuessed(es) <==> es != [] && RemainingEntries(es) == []
    ensures AllGuessed(es) <==> es != [] && NotGuessedNames(es) == []
  {
    RemainingEmptyIff(es);
    if es != [] && NotGuessedNames(es) == [] {
      forall k | 0 <= k < |es| ensures es[k].guessed {
        assert es[k].authorName !in NotGuessedNames(es);
      }
    }
    if AllGuessed(es) {
      forall p ensures p !in NotGuessedNames(es) {
        assert forall k :: 0 <= k < |es| ==> es[k].guessed;
      }
      var r := NotGuessedNames(es);
      assert multiset(r) == multiset{} by {
        forall p ensures multiset(r)[p] == 0 {
          assert p !in r;
        }
      }
    }
  }

  /** `isLastEntry`. */
  predicate IsLastEntry(es: seq<Entry>)
  {
    |RemainingEntries(es)| == 1
  }

  /** Entry `k` is the only one not yet caught. */
  predicate OnlyUncaught(es: seq<Entry>, k: int)
  {
    0 <= k < |es| && !es[k].guessed && forall j :: 0 <= j < |es| && j != k ==> es[j].guessed
  }

  /** `isLastEntry` holds exactly when a single entry is still to be caught. */
  lemma {:induction false} IsLastEntryIff(es: seq<Entry>)
    ensures IsLastEntry(es) <==> exists k :: OnlyUncaught(es, k)
  {
    if es != [] {
      var t := es[1..];
      assert forall j :: 1 <= j < |es| ==> es[j] == t[j - 1];
      IsLastEntryIff(t);
      if es[0].guessed {
        assert RemainingEntries(es) == RemainingEntries(t);
        if exists k :: OnlyUncaught(t, k) {
          var k :| OnlyUncaught(t, k);
          assert OnlyUncaught(es, k + 1);
        }
        if exists k :: OnlyUncaught(es, k) {
          var k :| OnlyUncaught(es, k);
          assert OnlyUncaught(t, k - 1);
        }
      } else {
        assert RemainingEntries(es) == [es[0]] + RemainingEntries(t);
        RemainingEmptyIff(t);
        if RemainingEntries(t) == [] {
          assert OnlyUncaught(es, 0);
        }
        if exists k :: OnlyUncaught(es, k) {
          var k :| OnlyUncaught(es, k);
          assert k == 0;
          assert forall j :: 0 <= j < |t| ==> t[j].guessed;
        }
      }
    }
  }

  /** `isMyTurn`: the announced current player is this client's author name. */
  predicate IsMyTurn(currentPlayer: Option<string>, authorName: string)
  {
    currentPlayer == Some(authorName)
  }

  /** After a turn announcement carrying queue `q`, it is this client's turn
      exactly when its author heads the queue under a non-empty name. */
  lemma MyTurnFromQueue(q: seq<string>, authorName: string)
    ensures IsMyTurn(CurrentPlayer(q), authorName) <==> q != [] && q[0] == authorName && authorName != ""
  {
  }

  /** `uniqueNames`: every author once, in the order of their first entry; the
      same list the server shuffles into the turn order. */
  function UniqueNames(es: seq<Entry>): (r: seq<string>)
    ensures NoDups(r)
    ensures forall p :: p in r <==> p in AuthorsOf(es)
    ensures InFirstOccurrenceOrder(AuthorsOf(es), r)
  {
    DedupOrder(AuthorsOf(es));
    Players(es)
  }

  /** Scores from the highest down. */
  predicate NonIncreasing(s: seq<Score>)
  {
    forall i, j :: 0 <= i < j < |s| ==> s[i].score >= s[j].score
  }

  /** Places `x` before the first score not above it, so ties keep the order
      they arrived in. */
  function InsertScore(x: Score, s: seq<Score>): (r: seq<Score>)
    ensures multiset(r) == multiset(s) + multiset{x}
    ensures NonIncreasing(s) ==> NonIncreasing(r)
  {
    if s == [] || x.score >= s[0].score then
      InsertScoreFront(x, s);
      [x] + s
    else
      var rest := InsertScore(x, s[1..]);
      InsertScoreHead(x, s, rest);
      [s[0]] + rest
  }

  lemma InsertScoreFront(x: Score, s: seq<Score>)
    requires s == [] || x.score >= s[0].score
    ensures multiset([x] + s) == multiset(s) + multiset{x}
    ensures NonIncreasing(s) ==> NonIncreasing([x] + s)
  {
    if NonIncreasing(s) {
      var r := [x] + s;
      forall i, j | 0 <= i < j < |r| ensures r[i].score >= r[j].score {
        if i > 0 {
          assert r[i] == s[i - 1] && r[j] == s[j - 1];
        } else if j > 1 {
          assert r[j] == s[j - 1] && s[0].score >= s[j - 1].score;
        }
      }
    }
  }

  lemma InsertScoreHead(x: Score, s: seq<Score>, rest: seq<Score>)
    requires s != [] && x.score < s[0].score
    requires multiset(rest) == multiset(s[1..]) + multiset{x}
    requires NonIncreasing(s[1..]) ==> NonIncreasing(rest)
    ensures multiset([s[0]] + rest) == multiset(s) + multiset{x}
    ensures NonIncreasing(s) ==> NonIncreasing([s[0]] + rest)
  {
    assert s == [s[0]] + s[1..];
    if NonIncreasing(s) {
      assert NonIncreasing(s[1..]) by {
        forall i, j | 0 <= i < j < |s[1..]| ensures s[1..][i].score >= s[1..][j].score {
          assert s[1..][i] == s[i + 1] && s[1..][j] == s[j + 1];
        }
      }
      var r := [s[0]] + rest;
      forall i, j | 0 <= i < j < |r| ensures r[i].score >= r[j].score {
        if i > 0 {
          assert r[i] == rest[i - 1] && r[j] == rest[j - 1];
        } else {
          var y := rest[j - 1];
          assert y in multiset(rest);
          if y != x {
            assert y in multiset(s[1..]);
            var k :| 0 <= k < |s[1..]| && s[1..][k] == y;
            assert s[k + 1] == y;
          }
        }
      }
    }
  }

  /** `[...scores].sort((a, b) => b.score - a.score)`: the same scores, highest
      first. */
  function SortScores(s: seq<Score>): (r: seq<Score>)
    ensures multiset(r) == multiset(s)
    ensures NonIncreasing(r)
  {
    if s == [] then []
    else
      assert s == [s[0]] + s[1..];
      InsertScore(s[0], SortScores(s[1..]))
  }

  /** The guard of `addEntry`: before the start, with text and a name. */
  predicate CanAddEntry(started: bool, entryText: string, authorName: string)
  {
    !started && !IsFalsy(Some(entryText)) && !IsFalsy(Some(authorName))
  }

  /** `prev.map(e => e.entryId === entry.entryId ? entry : e)`. */
  function ReplaceById(es: seq<Entry>, entry: Entry): (r: seq<Entry>)
    ensures |r| == |es|
    ensures forall k :: 0 <= k < |es| ==> r[k] == (if es[k].entryId == entry.entryId then entry else es[k])
  {
    if es == [] then []
    else [if es[0].entryId == entry.entryId then entry else es[0]] + ReplaceById(es[1..], entry)
  }

  /** No two entries share an id. */
  predicate UniqueIds(es: seq<Entry>)
  {
    forall i, j :: 0 <= i < j < |es| ==> es[i].entryId != es[j].entryId
  }

  /** Replacing the caught entry with the copy a right guess returns gives the
      list the server now stores. */
  lemma OptimisticUpdateMatchesServer(es: seq<Entry>, entryId: string)
    requires UniqueIds(es) && FindEntry(es, entryId).Some?
    ensures ReplaceById(es, FindEntry(es, entryId).value.(guessed := true)) == MarkGuessed(es, entryId)
  {
    var item := FindEntry(es, entryId).value;
    var i :| 0 <= i < |es| && es[i] == item;
    var a := ReplaceById(es, item.(guessed := true));
    var b := MarkGuessed(es, entryId);
    forall k | 0 <= k < |es| ensures a[k] == b[k] {
      if es[k].entryId == entryId {
        assert k == i;
      }
    }
  }

  /** A request the hook sends to add an entry. */
  datatype EntryRequest = EntryRequest(authorName: string, text: string)

  // ---- Hook state -----------------------------------------------------

  /** The React state of the hook that the modelled actions and events touch. */
  class HookState {
    var entries: seq<Entry>
    var scores: seq<Score>
    var turnOrder: seq<string>
    var currentPlayer: Option<string>
    var started: bool
    var guessedEntryIds: set<string>
    var entryText: string
    var authorName: string
    var newQuestion: string

    constructor ()
      ensures entries == [] && scores == [] && turnOrder == [] && currentPlayer == None
      ensures !started && guessedEntryIds == {}
      ensures entryText == "" && authorName == "" && newQuestion == ""
    {
      entries := [];
      scores := [];
      turnOrder := [];
      currentPlayer := None;
      started := false;
      guessedEntryIds := {};
      entryText := "";
      authorName := "";
      newQuestion := "";
    }

    /** `fetchEntries` resolved with `items`: the list is kept in a display
        order of its own and `started` is derived from it. */
    method EntriesFetched(items: seq<Entry>)
      modifies this
      ensures multiset(entries) == multiset(items)
      ensures started == StartedFrom(items)
      ensures scores == old(scores) && turnOrder == old(turnOrder) && currentPlayer == old(currentPlayer)
      ensures guessedEntryIds == old(guessedEntryIds)
      ensures entryText == old(entryText) && authorName == old(authorName) && newQuestion == old(newQuestion)
    {
      assert multiset(items) == multiset(items);
      var sorted: seq<Entry> :| multiset(sorted) == multiset(items);
      entries := sorted;
      started := StartedFrom(sorted);
      assert forall k :: 0 <= k < |sorted| && sorted[k].revealed ==> sorted[k] in multiset(items);
      assert forall k :: 0 <= k < |items| && items[k].revealed ==> items[k] in multiset(sorted);
    }

    /** `fetchScores` resolved with `items`. */
    method ScoresFetched(items: seq<Score>)
      modifies this
      ensures scores == SortScores(items)
      ensures entries == old(entries) && turnOrder == old(turnOrder) && currentPlayer == old(currentPlayer)
      ensures started == old(started) && guessedEntryIds == old(guessedEntryIds)
      ensures entryText == old(entryText) && authorName == old(authorName) && newQuestion == old(newQuestion)
    {
      scores := SortScores(items);
    }

    /** `fetchGameData` resolved with game `g`: a stored turn order replaces the
        local one and its head becomes the current player. */
    method GameDataFetched(g: Game)
      modifies this
      ensures g.turnOrder.Some? ==> turnOrder == g.turnOrder.value && currentPlayer == CurrentPlayer(g.turnOrder.value)
      ensures g.turnOrder.None? ==> turnOrder == old(turnOrder) && currentPlayer == old(currentPlayer)
      ensures entries == old(entries) && scores == old(scores)
      ensures started == old(started) && guessedEntryIds == old(guessedEntryIds)
      ensures entryText == old(entryText) && authorName == old(authorName) && newQuestion == old(newQuestion)
    {
      if g.turnOrder.Some? {
        turnOrder := g.turnOrder.value;
        currentPlayer := CurrentPlayer(g.turnOrder.value);
      }
    }

    /** The `gameStarted` event: a missing order reads as the empty queue. */
    method OnGameStarted(order: Option<seq<string>>)
      modifies this
      ensures turnOrder == (if order.Some? then order.value else [])
      ensures currentPlayer == CurrentPlayer(turnOrder)
      ensures entries == old(entries) && scores == old(scores)
      ensures started == old(started) && guessedEntryIds == old(guessedEntryIds)
      ensures entryText == old(entryText) && authorName == old(authorName) && newQuestion == old(newQuestion)
    {
      turnOrder := if order.Some? then order.value else [];
      currentPlayer := CurrentPlayer(turnOrder);
    }

    /** The `nextTurn` event: both values are taken as sent. */
    method OnNextTurn(player: Option<string>, order: seq<string>)
      modifies this
      ensures turnOrder == order && currentPlayer == player
      ensures entries == old(entries) && scores == old(scores)
      ensures started == old(started) && guessedEntryIds == old(guessedEntryIds)
      ensures entryText == old(entryText) && authorName == old(authorName) && newQuestion == old(newQuestion)
    {
      turnOrder := order;
      currentPlayer := player;
    }

    /** `addEntry`: the request it sends, or none when the guard returns early.
        Nothing is submitted once the round has started. */
    method AddEntry() returns (request: Option<EntryRequest>)
      ensures request.Some? <==> CanAddEntry(started, entryText, authorName)
      ensures request.Some? ==> request.value == EntryRequest(authorName, entryText)
      ensures started ==> request.None?
      ensures request.Some? ==> request.value.text != "" && request.value.authorName != ""
    {
      if started || IsFalsy(Some(entryText)) || IsFalsy(Some(authorName)) {
        return None;
      }
      request := Some(EntryRequest(authorName, entryText));
    }

    /** The entry was stored: the text box is cleared. */
    method EntryAdded()
      modifies this
      ensures entryText == ""
      ensures entries == old(entries) && scores == old(scores) && turnOrder == old(turnOrder)
      ensures currentPlayer == old(currentPlayer) && started == old(started)
      ensures guessedEntryIds == old(guessedEntryIds)
      ensures authorName == old(authorName) && newQuestion == old(newQuestion)
    {
      entryText := "";
    }

    /** `startGame`: whether the start request is sent; with no entries the
        hook only shows a message. */
    method StartGame() returns (send: bool)
      ensures send <==> entries != []
    {
      if |entries| == 0 {
        return false;
      }
      send := true;
    }

    /** The start request succeeded. */
    method StartAccepted()
      modifies this
      ensures started
      ensures entries == old(entries) && scores == old(scores) && turnOrder == old(turnOrder)
      ensures currentPlayer == old(currentPlayer) && guessedEntryIds == old(guessedEntryIds)
      ensures entryText == old(entryText) && authorName == old(authorName) && newQuestion == old(newQuestion)
    {
      started := true;
    }

    /** `startNewRound`: the question it posts is the typed one trimmed. */
    method StartNewRound() returns (question: string)
      ensures question == Trim(newQuestion)
      ensures Trim(question) == question
    {
      question := Trim(newQuestion);
      TrimIdempotent(newQuestion);
    }

    /** The reset succeeded: a new round starts from nothing. */
    method RoundReset()
      modifies this
      ensures newQuestion == "" && entries == [] && guessedEntryIds == {} && !started
      ensures scores == old(scores) && turnOrder == old(turnOrder) && currentPlayer == old(currentPlayer)
      ensures entryText == old(entryText) && authorName == old(authorName)
    {
      newQuestion := "";
      entries := [];
      guessedEntryIds := {};
      started := false;
    }

    /** The guess response arrived. It counts as a success when `isCorrect` or
        `success` is `true`; then a returned entry replaces its copy in the list
        (otherwise the entries are fetched again, `refetch`) and the entry's id is
        remembered as guessed. */
    method GuessAnswered(entryId: string, isCorrect: Option<bool>, success: Option<bool>, entry: Option<Entry>)
      returns (refetch: bool)
      modifies this
      ensures var ok := isCorrect == Some(true) || success == Some(true);
        && (ok ==> guessedEntryIds == old(guessedEntryIds) + {entryId})
        && (ok && entry.Some? ==> entries == ReplaceById(old(entries), entry.value))
        && (!(ok && entry.Some?) ==> entries == old(entries))
        && (refetch <==> ok && entry.None?)
        && (!ok ==> guessedEntryIds == old(guessedEntryIds))
      ensures old(guessedEntryIds) <= guessedEntryIds
      ensures scores == old(scores) && turnOrder == old(turnOrder) && currentPlayer == old(currentPlayer)
      ensures started == old(started)
      ensures entryText == old(entryText) && authorName == old(authorName) && newQuestion == old(newQuestion)
    {
      var isSuccess := isCorrect == Some(true) || success == Some(true);
      refetch := false;
      if isSuccess {
        if entry.Some? {
          entries := ReplaceById(entries, entry.value);
        } else {
          refetch := true;
        }
        guessedEntryIds := guessedEntryIds + {entryId};
      }
    }
  }
}
