// The guess service of the modular backend: resolves a guess against the stored
// entry and returns the outcome with the new turn order, without emitting events.

module GameService {
  import opened Types
  import opened TurnQueue
  import opened Store

  /** `{isCorrect: true, entry: {...item, guessed: true}, turnOrder}` versus
      `{isCorrect: false, turnOrder}`. */
  datatype GuessOutcome = Caught(entry: Entry, turnOrder: seq<string>) | Missed(turnOrder: seq<string>)

  /** The wrong-guess rotation as the service writes it: the shifted head is
      pushed back only when it is truthy, so an empty-string name is dropped. */
  function RotateAsWritten(q: seq<string>): (r: seq<string>)
    ensures |q| > 1 && q[0] != "" ==> r == Rotated(q)
    ensures |q| > 1 && q[0] == "" ==> r == q[1..]
    ensures |q| <= 1 ==> r == q
  {
    if |q| > 1 then (if q[0] != "" then q[1..] + [q[0]] else q[1..]) else q
  }

  /** The as-written rotation loses a player: with an empty-string name at the
      head of a two-player queue the other player is left alone, and the queue
      is no longer a permutation of what it was. */
  lemma RotateAsWrittenDropsPlayer()
    ensures RotateAsWritten(["", "B"]) == ["B"]
    ensures multiset(RotateAsWritten(["", "B"])) != multiset(["", "B"])
    ensures multiset(Rotated(["", "B"])) == multiset(["", "B"])
  {
    assert ["", "B"][1..] == ["B"];
    assert "" in multiset(["", "B"]);
    assert "" !in multiset(["B"]);
  }

  /** processGuess. A missing entry is the error "Entry not found" and changes
      nothing. A right guess marks the entry guessed, gives the guesser a point and
      removes the caught author from the turn order; a wrong guess passes the
      turn when at least two players remain, with the service's own rotation
      (`RotateAsWritten`), which drops an empty-string name at the head. */
  method ProcessGuess(db: Tables, gameId: string, entryId: string, guesserName: string, guessedAuthor: string)
    returns (r: Result<GuessOutcome, string>)
    modifies db
    ensures var item := FindEntry(old(db.EntriesOf(gameId)), entryId);
      item.None? ==> r == Failure("Entry not found") && unchanged(db)
    ensures var item := FindEntry(old(db.EntriesOf(gameId)), entryId);
      var q := RemovePlayer(TurnOrderOf(old(db.GameOf(gameId))), guessedAuthor);
      item.Some? && item.value.authorName == guessedAuthor ==>
      && r == Success(Caught(item.value.(guessed := true), q))
      && db.entries == old(db.entries)[gameId := MarkGuessed(old(db.EntriesOf(gameId)), entryId)]
      && db.scores == AddPoint(old(db.scores), ScoreKey(gameId, guesserName))
      && db.games == old(db.games)[gameId := old(db.GameOf(gameId)).(turnOrder := Some(q))]
    ensures var item := FindEntry(old(db.EntriesOf(gameId)), entryId);
      var q := TurnOrderOf(old(db.GameOf(gameId)));
      item.Some? && item.value.authorName != guessedAuthor ==>
      && r == Success(Missed(RotateAsWritten(q)))
      && db.games == (if |q| > 1 then old(db.games)[gameId := old(db.GameOf(gameId)).(turnOrder := Some(RotateAsWritten(q)))]
                      else old(db.games))
      && db.entries == old(db.entries) && db.scores == old(db.scores)
  {
    var found := db.GetEntry(gameId, entryId);
    if found.None? {
      return Failure("Entry not found");
    }
    var item := found.value;
    var isCorrect := item.authorName == guessedAuthor;
    if isCorrect {
      db.SetGuessed(gameId, entryId);
      db.IncrementScore(ScoreKey(gameId, guesserName));
      var gameData := db.GameOf(gameId);
      var turnOrder := RemovePlayer(TurnOrderOf(gameData), item.authorName);
      db.WriteGame(gameId, gameData.(turnOrder := Some(turnOrder)));
      r := Success(Caught(item.(guessed := true), turnOrder));
    } else {
      var gameData := db.GameOf(gameId);
      var turnOrder := TurnOrderOf(gameData);
      if |turnOrder| > 1 {
        turnOrder := RotateAsWritten(turnOrder);
        db.WriteGame(gameId, gameData.(turnOrder := Some(turnOrder)));
      }
      r := Success(Missed(turnOrder));
    }
  }
}
