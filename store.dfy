// The record store and the event fan-out, as in-memory state. The three tables
// (Games keyed by gameId, Entries keyed by gameId and entryId, Scores keyed by
// gameId and playerName) are fields of one Tables object, and each store command
// the handlers send is one method on it. The socket room fan-out is a Broadcaster
// that appends every emitted event to `sent`.

module Store {
  import opened Types

  datatype ScoreKey = ScoreKey(gameId: string, playerName: string)

  /** The events the socket server emits to a game's room. */
  datatype Event =
    | EntriesUpdated
    | GameStarted(turnOrder: seq<string>)
    | GameReset
    | ScoreUpdated(playerName: string, authorName: string, guess: string)
    | WrongAnswer(playerName: string, authorName: string, guess: string)
    | NextTurn(currentPlayer: Option<string>, turnOrder: seq<string>)

  datatype Emission = Emission(room: string, event: Event)

  /** A point read of the entry with this key. */
  function FindEntry(es: seq<Entry>, entryId: string): (r: Option<Entry>)
    ensures r.Some? ==> r.value in es && r.value.entryId == entryId
    ensures r.None? <==> forall e :: e in es ==> e.entryId != entryId
  {
    if es == [] then None
    else if es[0].entryId == entryId then Some(es[0])
    else FindEntry(es[1..], entryId)
  }

  /** A put replaces the item stored under the same key, or adds a new one. */
  function PutEntry(es: seq<Entry>, e: Entry): (r: seq<Entry>)
    ensures FindEntry(r, e.entryId) == Some(e)
    ensures forall id :: id != e.entryId ==> FindEntry(r, id) == FindEntry(es, id)
  {
    if es == [] then [e]
    else if es[0].entryId == e.entryId then [e] + PutAll(es[1..], e)
    else [es[0]] + PutEntry(es[1..], e)
  }

  function PutAll(es: seq<Entry>, e: Entry): (r: seq<Entry>)
    ensures forall id :: FindEntry(r, id) == (if id == e.entryId && FindEntry(es, id).Some? then Some(e) else FindEntry(es, id))
  {
    if es == [] then []
    else (if es[0].entryId == e.entryId then [e] else [es[0]]) + PutAll(es[1..], e)
  }

  /** `SET revealed = true` on every entry whose key is in `ids`. */
  function RevealIds(es: seq<Entry>, ids: set<string>): (r: seq<Entry>)
    ensures |r| == |es|
    ensures forall k :: 0 <= k < |es| ==>
      r[k] == es[k].(revealed := es[k].revealed || es[k].entryId in ids)
  {
    if es == [] then []
    else [es[0].(revealed := es[0].revealed || es[0].entryId in ids)] + RevealIds(es[1..], ids)
  }

  /** `SET guessed = true` on the entry with this key. */
  function MarkGuessed(es: seq<Entry>, entryId: string): (r: seq<Entry>)
    ensures |r| == |es|
    ensures forall k :: 0 <= k < |es| ==>
      r[k] == (if es[k].entryId == entryId then es[k].(guessed := true) else es[k])
  {
    if es == [] then []
    else [if es[0].entryId == entryId then es[0].(guessed := true) else es[0]]
         + MarkGuessed(es[1..], entryId)
  }

  /** Every entry of the list revealed, nothing else changed. */
  predicate AllRevealedFrom(before: seq<Entry>, after: seq<Entry>)
  {
    |after| == |before| && forall k :: 0 <= k < |before| ==> after[k] == before[k].(revealed := true)
  }

  /** The Entries table `after` is `before` with every entry of `gameId`
      revealed and every other game's entries untouched. */
  predicate RevealedAllOf(before: map<string, seq<Entry>>, after: map<string, seq<Entry>>, gameId: string)
  {
    if gameId in before && before[gameId] != [] then
      gameId in after && AllRevealedFrom(before[gameId], after[gameId])
      && after == before[gameId := after[gameId]]
    else after == before
  }

  /** The reveal of the keys `ids` among the entries of `gameId`. */
  function RevealIn(m: map<string, seq<Entry>>, gameId: string, ids: set<string>): map<string, seq<Entry>>
  {
    if gameId in m then m[gameId := RevealIds(m[gameId], ids)] else m
  }

  lemma RevealInNone(m: map<string, seq<Entry>>, gameId: string)
    ensures RevealIn(m, gameId, {}) == m
  {
    if gameId in m {
      assert RevealIds(m[gameId], {}) == m[gameId];
    }
  }

  lemma RevealInStep(m: map<string, seq<Entry>>, gameId: string, ids: set<string>, id: string)
    ensures RevealIn(RevealIn(m, gameId, ids), gameId, {id}) == RevealIn(m, gameId, ids + {id})
  {
    if gameId in m {
      RevealIdsStep(m[gameId], ids, id);
    }
  }

  /** Revealing every key of the game's entries reveals all of them. */
  lemma RevealInCovering(m: map<string, seq<Entry>>, gameId: string, ids: set<string>)
    requires gameId in m ==> forall k :: 0 <= k < |m[gameId]| ==> m[gameId][k].entryId in ids
    ensures RevealedAllOf(m, RevealIn(m, gameId, ids), gameId)
  {
    if gameId in m {
      RevealIdsCovering(m[gameId], ids);
      if m[gameId] == [] {
        assert RevealIds(m[gameId], ids) == m[gameId];
      }
    }
  }

  /** Revealing one more key extends the revealed set by that key. */
  lemma RevealIdsStep(es: seq<Entry>, ids: set<string>, id: string)
    ensures RevealIds(RevealIds(es, ids), {id}) == RevealIds(es, ids + {id})
  {
  }

  /** Revealing every key of the list reveals every entry. */
  lemma RevealIdsCovering(es: seq<Entry>, ids: set<string>)
    requires forall k :: 0 <= k < |es| ==> es[k].entryId in ids
    ensures AllRevealedFrom(es, RevealIds(es, ids))
  {
  }

  /** After a guessed-mark the point read of that key sees the entry with
      `guessed` set, as the handlers' re-read of the updated entry does. */
  lemma {:induction false} FindAfterMarkGuessed(es: seq<Entry>, entryId: string)
    requires FindEntry(es, entryId).Some?
    ensures FindEntry(MarkGuessed(es, entryId), entryId)
      == Some(FindEntry(es, entryId).value.(guessed := true))
  {
    if es[0].entryId != entryId {
      FindAfterMarkGuessed(es[1..], entryId);
      assert MarkGuessed(es, entryId)[1..] == MarkGuessed(es[1..], entryId);
    }
  }

  /** `ADD score :inc` with `:inc = 1`: a missing score counts as 0. */
  function AddPoint(scores: map<ScoreKey, nat>, k: ScoreKey): (r: map<ScoreKey, nat>)
    ensures k in r && r[k] == (if k in scores then scores[k] else 0) + 1
    ensures forall j :: j != k ==> (j in r <==> j in scores) && (j in scores ==> r[j] == scores[j])
  {
    scores[k := (if k in scores then scores[k] else 0) + 1]
  }

  class Tables {
    var games: map<string, Game>
    var entries: map<string, seq<Entry>>
    var scores: map<ScoreKey, nat>

    constructor ()
      ensures games == map[] && entries == map[] && scores == map[]
    {
      games, entries, scores := map[], map[], map[];
    }

    /** A point read of a game; a missing item reads as no attributes at all,
        which is also what an update of a missing key starts from. */
    function GameOf(gameId: string): Game
      reads this
    {
      if gameId in games then games[gameId] else NoGame
    }

    /** A query of the Entries table by gameId, in the table's order. */
    function EntriesOf(gameId: string): seq<Entry>
      reads this
    {
      if gameId in entries then entries[gameId] else []
    }

    function ScoreOf(k: ScoreKey): nat
      reads this
    {
      if k in scores then scores[k] else 0
    }

    /** An UpdateCommand on the Games table: the item becomes `g`. */
    method WriteGame(gameId: string, g: Game)
      modifies this
      ensures games == old(games)[gameId := g]
      ensures entries == old(entries) && scores == old(scores)
    {
      games := games[gameId := g];
    }

    /** A PutCommand on the Entries table. */
    method PutItem(e: Entry)
      modifies this
      ensures entries == old(entries)[e.gameId := PutEntry(old(EntriesOf(e.gameId)), e)]
      ensures games == old(games) && scores == old(scores)
    {
      entries := entries[e.gameId := PutEntry(EntriesOf(e.gameId), e)];
    }

    /** `set revealed = :r` on one entry key. */
    method SetRevealed(gameId: string, entryId: string)
      modifies this
      ensures entries == RevealIn(old(entries), gameId, {entryId})
      ensures games == old(games) && scores == old(scores)
    {
      entries := RevealIn(entries, gameId, {entryId});
    }

    /** A GetCommand on the Entries table. */
    method GetEntry(gameId: string, entryId: string) returns (item: Option<Entry>)
      ensures item == FindEntry(EntriesOf(gameId), entryId)
    {
      item := FindEntry(EntriesOf(gameId), entryId);
    }

    /** `SET guessed = :val` on one entry key; a read of that key afterwards sees
        the entry with `guessed` set. */
    method SetGuessed(gameId: string, entryId: string)
      modifies this
      ensures entries == old(entries)[gameId := MarkGuessed(old(EntriesOf(gameId)), entryId)]
      ensures games == old(games) && scores == old(scores)
      ensures old(FindEntry(EntriesOf(gameId), entryId)).Some? ==>
        FindEntry(EntriesOf(gameId), entryId) == Some(old(FindEntry(EntriesOf(gameId), entryId)).value.(guessed := true))
    {
      if FindEntry(EntriesOf(gameId), entryId).Some? {
        FindAfterMarkGuessed(EntriesOf(gameId), entryId);
      }
      entries := entries[gameId := MarkGuessed(EntriesOf(gameId), entryId)];
    }

    /** A DeleteCommand for every entry a query of the game returned. */
    method DeleteEntriesOf(gameId: string)
      modifies this
      ensures entries == old(entries) - {gameId}
      ensures games == old(games) && scores == old(scores)
    {
      entries := entries - {gameId};
    }

    /** `ADD score :inc` on the Scores table. */
    method IncrementScore(k: ScoreKey)
      modifies this
      ensures scores == AddPoint(old(scores), k)
      ensures games == old(games) && entries == old(entries)
    {
      scores := AddPoint(scores, k);
    }
  }

  /** The reveal loop of the start handlers: one `set revealed = true` per entry
      the query returned. */
  method RevealEntries(db: Tables, gameId: string, items: seq<Entry>)
    requires items == db.EntriesOf(gameId)
    modifies db
    ensures RevealedAllOf(old(db.entries), db.entries, gameId)
    ensures db.games == old(db.games) && db.scores == old(db.scores)
  {
    var i := 0;
    ghost var ids: set<string> := {};
    RevealInNone(db.entries, gameId);
    while i < |items|
      invariant 0 <= i <= |items|
      invariant forall k :: 0 <= k < i ==> items[k].entryId in ids
      invariant db.entries == RevealIn(old(db.entries), gameId, ids)
      invariant db.games == old(db.games) && db.scores == old(db.scores)
    {
      RevealInStep(old(db.entries), gameId, ids, items[i].entryId);
      db.SetRevealed(gameId, items[i].entryId);
      ids := ids + {items[i].entryId};
      i := i + 1;
    }
    RevealInCovering(old(db.entries), gameId, ids);
  }

  /** Appending events one at a time is appending the list of them. */
  lemma AppendTwo<T>(s: seq<T>, a: T, b: T)
    ensures s + [a] + [b] == s + [a, b]
  {
  }

  lemma AppendThree<T>(s: seq<T>, a: T, b: T, c: T)
    ensures s + [a] + [b] + [c] == s + [a, b, c]
  {
  }

  class Broadcaster {
    var sent: seq<Emission>

    constructor ()
      ensures sent == []
    {
      sent := [];
    }

    /** `io.to(room).emit(event)`. */
    method Emit(room: string, event: Event)
      modifies this
      ensures sent == old(sent) + [Emission(room, event)]
    {
      sent := sent + [Emission(room, event)];
    }
  }
}
