// The serverless HTTP API: the same endpoints without a socket room. Start is
// guarded and answers 409 to a second start; a guess never touches the turn
// order.

module AmplifyApi {
  import opened Types
  import opened Store
  import opened GameIds
  import opened Lifecycle

  /** `{success: true}` versus 409 `GAME_ALREADY_STARTED`. */
  datatype StartResponse = StartOk | Conflict

  /** `{success: true, ...}` versus the 500 reply of a failed store command. */
  datatype ResetResponse = ResetDone | ResetFailed

  /** 404 "Entry not found", `{isCorrect: true, entry}`, or `{isCorrect: false}`. */
  datatype GuessResponse = NotFound | Correct(entry: Option<Entry>) | Wrong

  /** POST /api/createGame. */
  method CreateGame(db: Tables, name: string, question: Option<string>) returns (gameId: string)
    modifies db
    ensures IsGameCode(gameId)
    ensures db.games == old(db.games)[gameId := Created(old(db.GameOf(gameId)), name, question)]
    ensures db.entries == old(db.entries) && db.scores == old(db.scores)
  {
    gameId := RandomGameId();
    db.WriteGame(gameId, Created(db.GameOf(gameId), name, question));
  }

  /** POST /api/games/:gameId/entries, with `entryId` the fresh uuid. */
  method AddEntry(db: Tables, gameId: string, entryId: string, authorName: string, text: string)
    returns (id: string)
    modifies db
    ensures id == entryId
    ensures FindEntry(db.EntriesOf(gameId), entryId) == Some(Entry(entryId, gameId, authorName, text, false, false))
    ensures db.entries == old(db.entries)[gameId := PutEntry(old(db.EntriesOf(gameId)), Entry(entryId, gameId, authorName, text, false, false))]
    ensures db.games == old(db.games) && db.scores == old(db.scores)
  {
    var revealed := false;
    db.PutItem(Entry(entryId, gameId, authorName, text, revealed, false));
    id := entryId;
  }

  /** POST /api/games/:gameId/start. The conditional update sets only `started`
      (no turn order is written); on success every entry is revealed, otherwise
      the answer is a conflict and nothing changes. */
  method Start(db: Tables, gameId: string) returns (resp: StartResponse)
    modifies db
    ensures NotStarted(old(db.GameOf(gameId))) ==>
      && resp == StartOk
      && db.games == old(db.games)[gameId := MarkedStarted(old(db.GameOf(gameId)))]
      && RevealedAllOf(old(db.entries), db.entries, gameId)
      && db.scores == old(db.scores)
    ensures !NotStarted(old(db.GameOf(gameId))) ==> resp == Conflict && unchanged(db)
  {
    var g := db.GameOf(gameId);
    if !NotStarted(g) {
      return Conflict;
    }
    db.WriteGame(gameId, MarkedStarted(g));
    var items := db.EntriesOf(gameId);
    RevealEntries(db, gameId, items);
    resp := StartOk;
  }

  /** POST /api/games/:gameId/reset: as on the socket server, without the event. */
  method Reset(db: Tables, gameId: string, question: Option<string>) returns (resp: ResetResponse)
    modifies db
    ensures db.entries == old(db.entries) - {gameId}
    ensures db.scores == old(db.scores)
    ensures old(db.GameOf(gameId)).gameOwner.Some? ==>
      resp == ResetDone && db.games == old(db.games)[gameId := AfterReset(old(db.GameOf(gameId)), question)]
    ensures old(db.GameOf(gameId)).gameOwner.None? ==>
      resp == ResetFailed && db.games == old(db.games)
  {
    db.DeleteEntriesOf(gameId);
    var g := db.GameOf(gameId);
    if g.gameOwner.None? {
      return ResetFailed;
    }
    db.WriteGame(gameId, AfterReset(g, question));
    resp := ResetDone;
  }

  /** POST /api/games/:gameId/entries/:entryId/guess. A right guess marks the
      entry guessed, gives the guesser a point and returns the re-read entry; a
      wrong guess writes nothing. */
  method Guess(db: Tables, gameId: string, entryId: string, guesserName: string, guess: string)
    returns (resp: GuessResponse)
    modifies db
    ensures var item := FindEntry(old(db.EntriesOf(gameId)), entryId);
      item.None? ==> resp == NotFound && unchanged(db)
    ensures var item := FindEntry(old(db.EntriesOf(gameId)), entryId);
      item.Some? && item.value.authorName == guess ==>
      && resp == Correct(Some(item.value.(guessed := true)))
      && db.entries == old(db.entries)[gameId := MarkGuessed(old(db.EntriesOf(gameId)), entryId)]
      && db.scores == AddPoint(old(db.scores), ScoreKey(gameId, guesserName))
      && db.games == old(db.games)
    ensures var item := FindEntry(old(db.EntriesOf(gameId)), entryId);
      item.Some? && item.value.authorName != guess ==> resp == Wrong && unchanged(db)
  {
    var found := db.GetEntry(gameId, entryId);
    if found.None? {
      return NotFound;
    }
    var item := found.value;
    var isCorrect := item.authorName == guess;
    if isCorrect {
      db.SetGuessed(gameId, entryId);
      db.IncrementScore(ScoreKey(gameId, guesserName));
      var updated := db.GetEntry(gameId, entryId);
      return Correct(updated);
    }
    resp := Wrong;
  }
}
