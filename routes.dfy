// The modular router: create, add entry and an unconditional start. Guess
// resolution of this backend lives in the game service.

module Routes {
  import opened Types
  import opened Distinct
  import opened TurnQueue
  import opened Store
  import opened GameIds
  import opened Lifecycle

  /** POST /createGame. */
  method CreateGame(db: Tables, name: string, question: Option<string>) returns (gameId: string)
    modifies db
    ensures IsGameCode(gameId)
    ensures db.games == old(db.games)[gameId := Created(old(db.GameOf(gameId)), name, question)]
    ensures db.entries == old(db.entries) && db.scores == old(db.scores)
  {
    gameId := RandomGameId();
    db.WriteGame(gameId, Created(db.GameOf(gameId), name, question));
  }

  /** POST /games/:gameId/entries, with `entryId` the fresh uuid. */
  method AddEntry(db: Tables, io: Broadcaster, gameId: string, entryId: string, authorName: string, text: string)
    returns (id: string)
    modifies db, io
    ensures id == entryId
    ensures FindEntry(db.EntriesOf(gameId), entryId) == Some(Entry(entryId, gameId, authorName, text, false, false))
    ensures db.entries == old(db.entries)[gameId := PutEntry(old(db.EntriesOf(gameId)), Entry(entryId, gameId, authorName, text, false, false))]
    ensures db.games == old(db.games) && db.scores == old(db.scores)
    ensures io.sent == old(io.sent) + [Emission(gameId, EntriesUpdated)]
  {
    db.PutItem(Entry(entryId, gameId, authorName, text, false, false));
    io.Emit(gameId, EntriesUpdated);
    id := entryId;
  }

  /** POST /games/:gameId/start. There is no guard: every call reshuffles the
      distinct authors into a new turn order, marks the game started, reveals
      every entry and announces the order, even for a game already under way. */
  method Start(db: Tables, io: Broadcaster, gameId: string) returns (shuffled: seq<string>)
    modifies db, io
    ensures multiset(shuffled) == multiset(Players(old(db.EntriesOf(gameId))))
    ensures NoDups(shuffled)
    ensures forall p :: p in shuffled <==> p in AuthorsOf(old(db.EntriesOf(gameId)))
    ensures db.games == old(db.games)[gameId := StartedWith(old(db.GameOf(gameId)), shuffled)]
    ensures RevealedAllOf(old(db.entries), db.entries, gameId)
    ensures db.scores == old(db.scores)
    ensures io.sent == old(io.sent) + [Emission(gameId, GameStarted(shuffled))]
  {
    var entryItems := db.EntriesOf(gameId);
    var players := Players(entryItems);
    assert multiset(players) == multiset(players);
    shuffled :| multiset(shuffled) == multiset(players);
    ShuffledPlayers(entryItems, shuffled);
    db.WriteGame(gameId, StartedWith(db.GameOf(gameId), shuffled));
    RevealEntries(db, gameId, entryItems);
    io.Emit(gameId, GameStarted(shuffled));
  }
}
