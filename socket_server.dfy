// The socket-enabled HTTP server: create, add entry, start, reset and guess, each
// as the sequence of store commands and room events the handler issues. A store
// command that the code awaits is one call on the Tables object, in the same
// order; every emitted event is appended to the Broadcaster.

module SocketServer {
  import opened Types
  import opened JsStrings
  import opened Distinct
  import opened TurnQueue
  import opened Store
  import opened GameIds
  import opened Lifecycle

  /** `{success: true}` versus `{success: true, message: "Game already started"}`. */
  datatype StartResponse = Started | AlreadyStarted

  /** `{success: true, ...}` versus the 500 reply of a failed store command. */
  datatype ResetResponse = ResetDone | ResetFailed

  /** 404 "Entry not found", `{isCorrect: true, entry}`, or `{isCorrect: false}`. */
  datatype GuessResponse = NotFound | Correct(entry: Option<Entry>) | Wrong

  /** POST /api/createGame. A fresh code may collide with a stored game: the
      update then overwrites that game's question and owner and keeps the rest. */
  method CreateGame(db: Tables, name: string, question: Option<string>) returns (gameId: string)
    modifies db
    ensures IsGameCode(gameId)
    ensures db.games == old(db.games)[gameId := Created(old(db.GameOf(gameId)), name, question)]
    ensures db.entries == old(db.entries) && db.scores == old(db.scores)
  {
    gameId := RandomGameId();
    db.WriteGame(gameId, Created(db.GameOf(gameId), name, question));
  }

  /** POST /api/games/:gameId/entries, with `entryId` the fresh uuid. The entry
      is stored unrevealed and unguessed, and the room is told. */
  method AddEntry(db: Tables, io: Broadcaster, gameId: string, entryId: string, authorName: string, text: string)
    returns (id: string)
    modifies db, io
    ensures id == entryId
    ensures FindEntry(db.EntriesOf(gameId), entryId) == Some(Entry(entryId, gameId, authorName, text, false, false))
    ensures db.entries == old(db.entries)[gameId := PutEntry(old(db.EntriesOf(gameId)), Entry(entryId, gameId, authorName, text, false, false))]
    ensures db.games == old(db.games) && db.scores == old(db.scores)
    ensures io.sent == old(io.sent) + [Emission(gameId, EntriesUpdated)]
  {
    var revealed := false;
    db.PutItem(Entry(entryId, gameId, authorName, text, revealed, false));
    io.Emit(gameId, EntriesUpdated);
    id := entryId;
  }

  /** POST /api/games/:gameId/start. The turn order is a shuffle of the distinct
      authors. The conditional update admits one start per round: if the game is
      already started nothing is written and nothing emitted. */
  method Start(db: Tables, io: Broadcaster, gameId: string) returns (resp: StartResponse, shuffled: seq<string>)
    modifies db, io
    ensures multiset(shuffled) == multiset(Players(old(db.EntriesOf(gameId))))
    ensures NoDups(shuffled)
    ensures forall p :: p in shuffled <==> p in AuthorsOf(old(db.EntriesOf(gameId)))
    ensures NotStarted(old(db.GameOf(gameId))) ==>
      && resp == Started
      && db.games == old(db.games)[gameId := StartedWith(old(db.GameOf(gameId)), shuffled)]
      && RevealedAllOf(old(db.entries), db.entries, gameId)
      && db.scores == old(db.scores)
      && io.sent == old(io.sent) + [Emission(gameId, GameStarted(shuffled))]
    ensures !NotStarted(old(db.GameOf(gameId))) ==>
      resp == AlreadyStarted && unchanged(db) && io.sent == old(io.sent)
  {
    var items := db.EntriesOf(gameId);
    var players := Players(items);
    assert multiset(players) == multiset(players);
    shuffled :| multiset(shuffled) == multiset(players);
    ShuffledPlayers(items, shuffled);
    var g := db.GameOf(gameId);
    if !NotStarted(g) {
      return AlreadyStarted, shuffled;
    }
    db.WriteGame(gameId, StartedWith(g, shuffled));
    RevealEntries(db, gameId, items);
    io.Emit(gameId, GameStarted(shuffled));
    resp := Started;
  }

  /** POST /api/games/:gameId/reset. Every entry of the game is deleted, then the
      game is reopened with the new question. The update copies `gameOwner` onto
      itself, which the store refuses when the attribute is absent: the handler
      then answers 500 with the entries already gone. Scores and the turn order
      are kept. */
  method Reset(db: Tables, io: Broadcaster, gameId: string, question: Option<string>) returns (resp: ResetResponse)
    modifies db, io
    ensures db.entries == old(db.entries) - {gameId}
    ensures db.scores == old(db.scores)
    ensures old(db.GameOf(gameId)).gameOwner.Some? ==>
      && resp == ResetDone
      && db.games == old(db.games)[gameId := AfterReset(old(db.GameOf(gameId)), question)]
      && io.sent == old(io.sent) + [Emission(gameId, GameReset)]
    ensures old(db.GameOf(gameId)).gameOwner.None? ==>
      resp == ResetFailed && db.games == old(db.games) && io.sent == old(io.sent)
  {
    db.DeleteEntriesOf(gameId);
    var g := db.GameOf(gameId);
    if g.gameOwner.None? {
      return ResetFailed;
    }
    db.WriteGame(gameId, AfterReset(g, question));
    io.Emit(gameId, GameReset);
    resp := ResetDone;
  }

  /** POST /api/games/:gameId/entries/:entryId/guess. A right guess removes the
      caught author from the turn order, marks the entry guessed, gives the
      guesser a point and announces the score, the next turn and the changed
      entries. A wrong guess passes the turn (when at least two players remain)
      and announces the miss and the next turn. */
  method Guess(db: Tables, io: Broadcaster, gameId: string, entryId: string, guesserName: string, guess: string)
    returns (resp: GuessResponse)
    modifies db, io
    ensures var item := FindEntry(old(db.EntriesOf(gameId)), entryId);
      item.None? ==> resp == NotFound && unchanged(db) && io.sent == old(io.sent)
    ensures var item := FindEntry(old(db.EntriesOf(gameId)), entryId);
      var q := RemovePlayer(TurnOrderOf(old(db.GameOf(gameId))), guess);
      item.Some? && item.value.authorName == guess ==>
      && resp == Correct(Some(item.value.(guessed := true)))
      && db.games == old(db.games)[gameId := old(db.GameOf(gameId)).(turnOrder := Some(q))]
      && db.entries == old(db.entries)[gameId := MarkGuessed(old(db.EntriesOf(gameId)), entryId)]
      && db.scores == AddPoint(old(db.scores), ScoreKey(gameId, guesserName))
      && io.sent == old(io.sent) + [
           Emission(gameId, ScoreUpdated(guesserName, guess, item.value.text)),
           Emission(gameId, NextTurn(CurrentPlayer(q), q)),
           Emission(gameId, EntriesUpdated)]
    ensures var item := FindEntry(old(db.EntriesOf(gameId)), entryId);
      var q := TurnOrderOf(old(db.GameOf(gameId)));
      item.Some? && item.value.authorName != guess ==>
      && resp == Wrong
      && db.games == (if |q| > 1 then old(db.games)[gameId := old(db.GameOf(gameId)).(turnOrder := Some(Rotated(q)))]
                      else old(db.games))
      && db.entries == old(db.entries) && db.scores == old(db.scores)
      && io.sent == old(io.sent) + [
           Emission(gameId, WrongAnswer(guesserName, item.value.authorName, item.value.text)),
           Emission(gameId, NextTurn(CurrentPlayer(Rotated(q)), Rotated(q)))]
  {
    var found := db.GetEntry(gameId, entryId);
    if found.None? {
      return NotFound;
    }
    var item := found.value;
    var isCorrect := item.authorName == guess;
    if isCorrect {
      resp := RightGuess(db, io, gameId, entryId, guesserName, item);
    } else {
      WrongGuess(db, io, gameId, guesserName, item);
      resp := Wrong;
    }
  }

  /** The right-guess branch of the guess handler, for the entry `item` it read. */
  method RightGuess(db: Tables, io: Broadcaster, gameId: string, entryId: string, guesserName: string, item: Entry)
    returns (resp: GuessResponse)
    requires FindEntry(db.EntriesOf(gameId), entryId) == Some(item)
    modifies db, io
    ensures var q := RemovePlayer(TurnOrderOf(old(db.GameOf(gameId))), item.authorName);
      && resp == Correct(Some(item.(guessed := true)))
      && db.games == old(db.games)[gameId := old(db.GameOf(gameId)).(turnOrder := Some(q))]
      && db.entries == old(db.entries)[gameId := MarkGuessed(old(db.EntriesOf(gameId)), entryId)]
      && db.scores == AddPoint(old(db.scores), ScoreKey(gameId, guesserName))
      && io.sent == old(io.sent) + [
           Emission(gameId, ScoreUpdated(guesserName, item.authorName, item.text)),
           Emission(gameId, NextTurn(CurrentPlayer(q), q)),
           Emission(gameId, EntriesUpdated)]
  {
    var gameData := db.GameOf(gameId);
    var turnOrder := TurnOrderOf(gameData);
    turnOrder := RemovePlayer(turnOrder, item.authorName);
    db.WriteGame(gameId, gameData.(turnOrder := Some(turnOrder)));
    db.SetGuessed(gameId, entryId);
    db.IncrementScore(ScoreKey(gameId, guesserName));
    var updated := db.GetEntry(gameId, entryId);
    AppendThree(io.sent, Emission(gameId, ScoreUpdated(guesserName, item.authorName, item.text)),
      Emission(gameId, NextTurn(CurrentPlayer(turnOrder), turnOrder)), Emission(gameId, EntriesUpdated));
    io.Emit(gameId, ScoreUpdated(guesserName, item.authorName, item.text));
    io.Emit(gameId, NextTurn(CurrentPlayer(turnOrder), turnOrder));
    io.Emit(gameId, EntriesUpdated);
    resp := Correct(updated);
  }

  /** The wrong-guess branch: `shift` the head and `push` it back when the queue
      holds at least two players, then announce the miss and the next turn. */
  method WrongGuess(db: Tables, io: Broadcaster, gameId: string, guesserName: string, item: Entry)
    modifies db, io
    ensures var q := TurnOrderOf(old(db.GameOf(gameId)));
      && db.games == (if |q| > 1 then old(db.games)[gameId := old(db.GameOf(gameId)).(turnOrder := Some(Rotated(q)))]
                      else old(db.games))
      && db.entries == old(db.entries) && db.scores == old(db.scores)
      && io.sent == old(io.sent) + [
           Emission(gameId, WrongAnswer(guesserName, item.authorName, item.text)),
           Emission(gameId, NextTurn(CurrentPlayer(Rotated(q)), Rotated(q)))]
  {
    var gameData := db.GameOf(gameId);
    var turnOrder := TurnOrderOf(gameData);
    if |turnOrder| > 1 {
      var current := turnOrder[0];
      turnOrder := turnOrder[1..];
      turnOrder := turnOrder + [current];
      db.WriteGame(gameId, gameData.(turnOrder := Some(turnOrder)));
    }
    AppendTwo(io.sent, Emission(gameId, WrongAnswer(guesserName, item.authorName, item.text)),
      Emission(gameId, NextTurn(CurrentPlayer(turnOrder), turnOrder)));
    io.Emit(gameId, WrongAnswer(guesserName, item.authorName, item.text));
    io.Emit(gameId, NextTurn(CurrentPlayer(turnOrder), turnOrder));
  }
}
