# Game of Thingies — a Dafny model of the game-session engine

Game of Thingies is a party game. A host creates a game under a four-letter
code and asks a question. Players join by code and write anonymous answers
("entries"). On start, the server reveals every entry and shuffles the distinct
authors into a turn order. On their turn, a player picks an entry and guesses
who wrote it.

- A right guess marks the entry guessed and gives the guesser a point. It also
  removes the caught author from the turn order.
- A wrong guess passes the turn: the current player moves to the back of the
  queue.
- A reset deletes the round's entries and reopens the game with a new question.

The model covers four server variants that implement this engine:

- the socket-enabled HTTP server `server.ts`, which emits room events;
- the modular router `server/routes.ts` and its guess service
  `server/gameService.ts`;
- the serverless API `amplify/backend/function/gameofthingsProdApi/src/index.js`.

It also covers the client's pure derivations:

- the game hook `useGameLogic.ts`;
- the game page `StartGamePage.tsx`;
- the entry card `EntryButton.tsx`;
- the home page `pages/HomePage.tsx`.

Module layout:

- `Types`: the records.
- `JsStrings`: `trim`, truthiness, upper-casing, and the default `sort()`
  order.
- `Distinct`: first-occurrence deduplication (`filter(indexOf)`, `new Set`).
- `Sorting`: comparator sorts.
- `TurnQueue`: the turn queue.
- `Store`: the three DynamoDB tables, as a `Tables` object with one method per
  store command, and a `Broadcaster` that records the emitted room events.
- `GameIds`: game codes.
- `Lifecycle`: the game record's create, start and reset updates.
- `SocketServer`, `Routes`, `GameService`, `AmplifyApi`: the four handler sets.
- `GameLogic`, `StartGamePage`, `EntryButton`, `HomePage`: the client.

Three behaviours of the code are easy to miss, and the model keeps each of them:

- **Reset keeps the turn order.** The reset update sets only the question,
  `createdAt`, `gameOwner` and `started`; it does not clear or rebuild the turn
  order.
- **Reset can fail after the deletes.** The update writes `gameOwner = gameOwner`.
  The store rejects that when the item has no owner. The handler then answers
  500 after the entries are already deleted.
- **The backends differ on start and guess.**
  - The router's start has no guard: every call reshuffles and reveals.
  - The serverless start answers 409 on a second start and writes no turn order.
  - The serverless guess never touches the turn order.

## Model

| member | source | states |
|---|---|---|
| Types.NotStarted | server.ts:143 | the start guard: a game counts as not started unless `started` is stored as true |
| Types.TurnOrderOf | server.ts:308 | a stored turn order is used as it is; a missing one reads as the empty queue |
| JsStrings.Trim | server.ts:207 | `trim()`: leading, then trailing whitespace removed; its properties are in `TrimSpec` and `TrimIdempotent` |
| JsStrings.IsFalsy | client/src/hooks/useGameLogic.ts:186 | JavaScript falsiness of an optional string: absent or empty |
| JsStrings.TrimSpec | server.ts:207 | `Trim` strips exactly the leading and trailing whitespace: the result is a slice of the input with no whitespace at either end |
| JsStrings.TrimIdempotent | client/src/hooks/useGameLogic.ts:230 | trimming an already trimmed question changes nothing |
| JsStrings.OrElse | server.ts:85 | `s \|\| fallback` gives the fallback exactly for an absent or empty string, otherwise the string itself |
| JsStrings.TrimmedOrElse | server.ts:207 | `s?.trim() \|\| fallback` gives the trimmed string unless it is absent or blank, and then the fallback |
| JsStrings.UpperOf | client/src/pages/HomePage.tsx:112 | one character's upper case: ASCII lower-case letters and the few non-ASCII characters that upper-case to ASCII capitals become capitals, everything else is kept |
| JsStrings.ToUpperCase | client/src/pages/HomePage.tsx:112 | upper-casing never shortens a string, and on ASCII text keeps the length and upper-cases exactly the lower-case letters |
| JsStrings.ToUpperCaseConcat | client/src/pages/HomePage.tsx:112 | upper-casing works character by character: it distributes over concatenation |
| JsStrings.CodeUnitOrderIsStrictTotal | client/src/hooks/useGameLogic.ts:288 | the default `sort()` order on strings is irreflexive, transitive and total |
| Distinct.FirstIndex | server.ts:132 | `indexOf`: the index of the first occurrence; no earlier element equals the value |
| Distinct.Dedup | server.ts:132 | `filter((v, i, a) => a.indexOf(v) === i)` keeps exactly the elements of the input, without duplicates, and is no longer than the input |
| Distinct.DedupOrder | client/src/hooks/useGameLogic.ts:294 | the deduplicated list keeps the first-occurrence order, as a `Set` does |
| Sorting.SortBy | client/src/StartGamePage.tsx:115 | sorting by a strict total order gives a sorted permutation of the input |
| Sorting.StrictlySortedUnique | client/src/StartGamePage.tsx:109-123 | two strictly sorted lists with the same elements are equal, so a sorted name list is determined by its set of names |
| TurnQueue.RemovePlayer | server.ts:309 | the caught author is no longer queued; every other player keeps their multiplicity; the queue does not grow |
| TurnQueue.RemovePlayerConcat | server.ts:309 | removal distributes over concatenation, so the relative order of the remaining players is kept |
| TurnQueue.RemoveAbsentPlayer | server.ts:309 | removing an author who is not queued leaves the queue unchanged |
| TurnQueue.RemovePlayerIdempotent | server/gameService.ts:49 | catching the same author twice removes them once |
| TurnQueue.RemovePlayerDistinct | server.ts:309 | a duplicate-free queue stays duplicate-free, and shrinks by exactly one when the author was queued and not at all otherwise |
| TurnQueue.Rotated | server.ts:366-369 | with two or more players the head moves to the tail and the others move up one place; otherwise the queue is kept; always a permutation |
| TurnQueue.RotatedDistinct | server.ts:366-369 | passing the turn keeps a duplicate-free queue duplicate-free |
| TurnQueue.RotatedTimesSplit | server.ts:366-369 | after n wrong guesses the first n players have moved, in order, behind the others |
| TurnQueue.RotatedFullCircle | server.ts:366-369 | one wrong guess per player hands the turn back to the original order |
| TurnQueue.CurrentPlayer | server.ts:347 | `turnOrder[0] \|\| null` names the head of the queue, and is none exactly for an empty queue or an empty-string head |
| TurnQueue.AuthorsOf | server.ts:132 | the author of each entry, position by position |
| TurnQueue.Players | server.ts:132 | the players of a round are the authors with an entry, each once |
| TurnQueue.ShuffledPlayers | server.ts:135 | any shuffle of the players is a duplicate-free queue of exactly the authors, no longer than the entry list |
| Store.FindEntry | server.ts:287-295 | a point read returns an entry of the list with that key, and nothing exactly when no entry has that key |
| Store.PutEntry | server.ts:107-110 | after a put, the key reads back the new entry and every other key reads as before |
| Store.RevealIds | server.ts:161-168 | the chosen entries become revealed, each entry otherwise unchanged |
| Store.MarkGuessed | server.ts:319-324 | the entry with the key becomes guessed, each entry otherwise unchanged |
| Store.FindAfterMarkGuessed | server.ts:336-339 | re-reading a guessed entry returns the entry as it was read, with `guessed` set |
| Store.AddPoint | server.ts:328-334 | `ADD score 1`: the guesser's score goes up by one from zero when absent; every other score is untouched |
| Store.Tables.WriteGame | server.ts:76-90 | the game item is replaced, nothing else changes |
| Store.Tables.PutItem | server.ts:107-110 | the entry is put into its game's list, nothing else changes |
| Store.Tables.SetRevealed | server.ts:163-166 | one entry of one game becomes revealed, nothing else changes |
| Store.Tables.GetEntry | server.ts:287-290 | the read returns the stored entry with that key of that game, or none |
| Store.Tables.SetGuessed | server.ts:319-324 | the entry becomes guessed, and re-reading it gives the old entry with `guessed` set |
| Store.Tables.DeleteEntriesOf | server.ts:193-200 | every entry of the game is gone, other games' entries stay |
| Store.Tables.IncrementScore | server.ts:328-334 | the score table becomes `AddPoint` of the old one |
| Store.RevealEntries | server.ts:161-168 | the loop over the game's entries leaves every one of them revealed and every other game's entries, the games and the scores untouched |
| Store.Broadcaster.Emit | server.ts:112 | the emitted event is appended to the room log |
| GameIds.LettersAreUpperCase | server.ts:49 | the alphabet has 26 characters, all upper-case ASCII letters |
| GameIds.RandomGameId | server.ts:48-56 | every generated code is four upper-case ASCII letters |
| Lifecycle.Created | server.ts:76-90 | create sets the owner to the name and the question to the sent one, or the default when it is absent or empty; start state and turn order are kept |
| Lifecycle.CreatedQuestionNonEmpty | server.ts:85 | a created game always has a non-empty question |
| Lifecycle.StartedWith | server.ts:138-148 | the start update leaves the game started, with the shuffled order as its turn order |
| Lifecycle.MarkedStarted | amplify/backend/function/gameofthingsProdApi/src/index.js:68-78 | the serverless start update leaves the game started with owner, question and turn order untouched |
| Lifecycle.AfterReset | server.ts:202-212 | reset leaves the game not started, with owner and turn order kept and the question trimmed or, if blank, the default |
| Lifecycle.DefaultQuestionTrimmed | server.ts:207 | the default question is its own trim |
| Lifecycle.ResetQuestionIsTrimmed | server.ts:207 | after a reset the question is non-empty and carries no surrounding whitespace, whatever was sent |
| Lifecycle.StartOncePerRound | server.ts:143 | a started game fails the start guard, its reset passes it again, and the reset keeps the last turn order |
| SocketServer.CreateGame | server.ts:70-97 | create returns a well-formed code and upserts that game with the created owner and question; entries and scores are untouched |
| SocketServer.AddEntry | server.ts:100-114 | the entry is stored unrevealed and unguessed under its id, and `entriesUpdated` is emitted to the room |
| SocketServer.Start | server.ts:116-179 | the turn order is a duplicate-free shuffle of exactly the authors. Before the start, the game is started with that order, every entry is revealed and `gameStarted` is emitted. A second start changes nothing and emits nothing |
| SocketServer.Reset | server.ts:181-220 | the game's entries are deleted. With an owner, the game is reopened by `AfterReset` and `gameReset` is emitted. Without one, the update fails and nothing else changes |
| SocketServer.Guess | server.ts:281-398 | unknown entry: 404, nothing changes. Right guess: the author leaves the queue, the entry is guessed, the guesser scores, and three events go out in order. Wrong guess: the turn passes, and the miss and the next turn are announced |
| SocketServer.RightGuess | server.ts:300-355 | the right-guess branch: queue without the author, entry guessed, one point, `scoreUpdated`, `nextTurn` with the new head, `entriesUpdated` |
| SocketServer.WrongGuess | server.ts:356-392 | the wrong-guess branch: the queue is rotated and written when it holds two or more players, then `wrongAnswer` and `nextTurn` are emitted |
| Routes.CreateGame | server/routes.ts:32-55 | as the socket server's create |
| Routes.AddEntry | server/routes.ts:68-84 | the entry is stored unrevealed and unguessed, and `entriesUpdated` is emitted |
| Routes.Start | server/routes.ts:95-133 | with no guard, every call reshuffles the authors, marks the game started with that order, reveals every entry and emits `gameStarted` |
| GameService.RotateAsWritten | server/gameService.ts:70-73 | the service's rotation equals the corrected one unless the head is the empty string, which it drops |
| GameService.RotateAsWrittenDropsPlayer | server/gameService.ts:72 | on `["", "B"]` the as-written rotation gives `["B"]` and loses a player, while the corrected rotation is a permutation |
| GameService.ProcessGuess | server/gameService.ts:14-84 | a missing entry is the error "Entry not found" with nothing changed. A right guess marks the entry, scores the guesser, removes the author from the queue and returns the guessed entry and the new queue. A wrong guess rotates a queue of two or more players with the service's own rotation, which drops an empty-string name at the head, and writes and returns the result |
| AmplifyApi.CreateGame | amplify/backend/function/gameofthingsProdApi/src/index.js:26-52 | as the socket server's create |
| AmplifyApi.AddEntry | amplify/backend/function/gameofthingsProdApi/src/index.js:53-64 | the entry is stored unrevealed and unguessed; no event is emitted |
| AmplifyApi.Start | amplify/backend/function/gameofthingsProdApi/src/index.js:65-106 | a first start marks the game started and reveals every entry, writing no turn order; a second start is a conflict (409) and changes nothing |
| AmplifyApi.Reset | amplify/backend/function/gameofthingsProdApi/src/index.js:107-140 | as the socket server's reset, without the event |
| AmplifyApi.Guess | amplify/backend/function/gameofthingsProdApi/src/index.js:192-237 | unknown entry: 404, nothing changes. Right guess: the entry is guessed, the guesser scores and the re-read entry is returned. Wrong guess: nothing changes. The turn order is never touched |
| GameLogic.StartedFrom | client/src/hooks/useGameLogic.ts:181 | the client counts the round as started exactly when some fetched entry is revealed |
| GameLogic.StartedAfterReveal | client/src/hooks/useGameLogic.ts:181 | the entries a start revealed make the round read as started |
| GameLogic.AuthorsWhere | client/src/hooks/useGameLogic.ts:288 | the authors of exactly the entries in the given guessed state |
| GameLogic.NameList | client/src/hooks/useGameLogic.ts:288-289 | the name list is strictly sorted (so duplicate-free) and holds exactly the authors with an entry in the given state |
| GameLogic.NameListIsTheSortedSet | client/src/hooks/useGameLogic.ts:288-289 | any strictly sorted list of exactly those authors is the name list |
| GameLogic.GuessedNames | client/src/hooks/useGameLogic.ts:288 | `guessedNames`: the caught authors, each once, in the default string order |
| GameLogic.NotGuessedNames | client/src/hooks/useGameLogic.ts:289 | `notGuessedNames`: the authors with an entry still to catch, each once, in the default string order |
| GameLogic.NameListsCoverAuthors | client/src/hooks/useGameLogic.ts:288-289 | an author has an entry exactly when they appear in one of the two lists |
| GameLogic.AllGuessed | client/src/hooks/useGameLogic.ts:290 | `allGuessed`: there is at least one entry and every entry is caught; tied to the remaining entries by `AllGuessedIffNoneRemaining` |
| GameLogic.RemainingEntries | client/src/hooks/useGameLogic.ts:291 | the remaining entries are exactly the uncaught ones |
| GameLogic.RemainingEmptyIff | client/src/hooks/useGameLogic.ts:291 | nothing remains exactly when every entry is caught |
| GameLogic.AllGuessedIffNoneRemaining | client/src/hooks/useGameLogic.ts:290 | `allGuessed` holds exactly when there are entries and none remains, and exactly when the list of names still to catch is empty |
| GameLogic.IsLastEntryIff | client/src/hooks/useGameLogic.ts:291-292 | `isLastEntry` holds exactly when one entry, and only one, is still to be caught |
| GameLogic.IsLastEntry | client/src/hooks/useGameLogic.ts:292 | `isLastEntry`: exactly one entry remains; see `IsLastEntryIff` |
| GameLogic.IsMyTurn | client/src/hooks/useGameLogic.ts:293 | `isMyTurn`: the announced current player is this client's author name |
| GameLogic.MyTurnFromQueue | client/src/hooks/useGameLogic.ts:293 | after a turn announcement, it is this client's turn exactly when its non-empty author name heads the queue |
| GameLogic.UniqueNames | client/src/hooks/useGameLogic.ts:294 | every author once, in the order of their first entry |
| GameLogic.SortScores | client/src/hooks/useGameLogic.ts:169 | the scoreboard is a permutation of the fetched scores, highest first; the same order is used at client/src/StartGamePage.tsx:268 |
| GameLogic.InsertScore | client/src/hooks/useGameLogic.ts:169 | inserting a score into a descending list keeps it descending and adds exactly that score |
| GameLogic.ReplaceById | client/src/hooks/useGameLogic.ts:257 | the returned entry replaces every entry with its id; the others stay |
| GameLogic.OptimisticUpdateMatchesServer | client/src/hooks/useGameLogic.ts:256-257 | with unique ids, replacing the caught entry with the guessed copy a right guess returns gives the list the server stores |
| GameLogic.HookState.constructor | client/src/hooks/useGameLogic.ts:15-33 | the initial hook state: nothing fetched, not started, no guessed ids |
| GameLogic.HookState.EntriesFetched | client/src/hooks/useGameLogic.ts:173-183 | the entry list becomes a reordering of the fetched one, and `started` is derived from it |
| GameLogic.HookState.ScoresFetched | client/src/hooks/useGameLogic.ts:165-171 | the scoreboard becomes the sorted scores |
| GameLogic.HookState.GameDataFetched | client/src/hooks/useGameLogic.ts:83-86 | a stored turn order replaces the local one, and its head becomes the current player |
| GameLogic.HookState.OnGameStarted | client/src/hooks/useGameLogic.ts:100-102 | the announced order, or the empty queue, and its head |
| GameLogic.HookState.OnNextTurn | client/src/hooks/useGameLogic.ts:141-144 | queue and current player taken as announced |
| GameLogic.CanAddEntry | client/src/hooks/useGameLogic.ts:186 | the add-entry guard: the round has not started and both the text and the name are non-empty |
| GameLogic.HookState.AddEntry | client/src/hooks/useGameLogic.ts:185-189 | a request is sent exactly when the round has not started and both text and name are non-empty; it carries those two values |
| GameLogic.HookState.EntryAdded | client/src/hooks/useGameLogic.ts:190 | the text box is cleared, nothing else changes |
| GameLogic.HookState.StartGame | client/src/hooks/useGameLogic.ts:203-208 | the start request is sent exactly when there are entries |
| GameLogic.HookState.StartAccepted | client/src/hooks/useGameLogic.ts:211 | the round is marked started |
| GameLogic.HookState.StartNewRound | client/src/hooks/useGameLogic.ts:230 | the question posted is the typed question trimmed |
| GameLogic.HookState.RoundReset | client/src/hooks/useGameLogic.ts:231-234 | entries, guessed ids, the question box and `started` are cleared |
| GameLogic.HookState.GuessAnswered | client/src/hooks/useGameLogic.ts:239-270 | a response with `isCorrect` or `success` true records the id as guessed, and replaces the entry when one is returned or asks for a refetch when none is. Any other response changes nothing. The guessed ids never shrink |
| StartGamePage.IsEntryEnabled | client/src/StartGamePage.tsx:72-73 | `isEntryEnabled`: started, not caught, and not a revealed entry whose id is remembered as caught |
| StartGamePage.NothingEnabledBeforeStart | client/src/StartGamePage.tsx:72-73 | before the start no entry card can be clicked |
| StartGamePage.EnabledAfterStart | client/src/StartGamePage.tsx:72-73 | for a revealed entry, the card is clickable exactly when it is neither caught nor remembered as caught |
| StartGamePage.GuessedNames | client/src/StartGamePage.tsx:109-115 | the caught authors, each once, ordered by the locale comparison |
| StartGamePage.NotGuessedNames | client/src/StartGamePage.tsx:117-123 | the authors still to catch, each once, ordered by the locale comparison |
| StartGamePage.AuthorAllGuessed | client/src/StartGamePage.tsx:725-727 | holds exactly when every entry of that author is caught |
| StartGamePage.AllGuessedIffNotListed | client/src/StartGamePage.tsx:725-727 | an author is fully caught exactly when they are missing from the names still to catch |
| StartGamePage.NamesByState | client/src/StartGamePage.tsx:721-734 | the names, in order, whose authors are (or are not) fully caught; never longer than the names |
| StartGamePage.NamesByStateSplit | client/src/StartGamePage.tsx:721-734 | the two lists of the guess dialog split the names: together they are a permutation of them, and a name is in one exactly when its author is in the matching state |
| StartGamePage.PartitionNames | client/src/StartGamePage.tsx:721-734 | the dialog's loop builds exactly those two lists, in name order |
| StartGamePage.RenderedNamesOnce | client/src/StartGamePage.tsx:766-767 | the shown list (enabled names, then disabled ones) holds every author exactly once |
| StartGamePage.PageState.constructor | client/src/StartGamePage.tsx:67-70 | the initial page state |
| StartGamePage.PageState.EntriesFetched | client/src/StartGamePage.tsx:276-299 | the entry list becomes a reordering of the fetched one, and `started` is set exactly when some entry is revealed |
| StartGamePage.PageState.GuessAnswered | client/src/StartGamePage.tsx:390-428 | only a correct answer with an entry counts: it replaces the entry and remembers its id, after which the caught card cannot be clicked. The remembered ids never shrink |
| StartGamePage.PageState.RoundReset | client/src/StartGamePage.tsx:371-387 | entries, remembered ids, the question box and `started` are cleared |
| EntryButton.IsDisabled | client/src/components/game/EntryButton.tsx:17-20 | a card is disabled off-turn and once caught; on one's turn, another player's uncaught card is enabled and one's own only as the last entry |
| EntryButton.AuthorLine | client/src/components/game/EntryButton.tsx:38-42 | the author's name is shown exactly for a caught entry |
| EntryButton.NamedCardDisabled | client/src/components/game/EntryButton.tsx:17-42 | a card that names its author cannot be clicked |
| EntryButton.OwnCardOnlyWhenLast | client/src/components/game/EntryButton.tsx:17-20 | with the hook's values, a clickable card of one's own means it is this player's turn and the card is the only one left uncaught |
| HomePage.MatchesUpperRunIff | client/src/pages/HomePage.tsx:56 | the anchored pattern `[A-Z]{n}` accepts exactly the strings of n upper-case ASCII letters |
| HomePage.JoinCodeValidIffGameCode | client/src/pages/HomePage.tsx:56 | the join check accepts exactly the codes the servers generate |
| HomePage.JoinCodeValidIff | client/src/pages/HomePage.tsx:56 | the join check holds exactly of four-character strings of capitals A-Z |
| HomePage.ToUpperCaseShape | client/src/pages/HomePage.tsx:112 | the upper-cased input has `CapitalLength` characters (one per typed character, two or three for the sharp s and the ligatures), and is all capitals exactly when each typed character upper-cases to capitals |
| HomePage.TypedCodeJoinable | client/src/pages/HomePage.tsx:112 | the upper-cased input passes the join check exactly when every typed character upper-cases to capitals and together they make four |
| HomePage.TypedAsciiCodeJoinable | client/src/pages/HomePage.tsx:112 | typed in ASCII, the input passes exactly when it is four letters of either case |
| HomePage.NonAsciiCodesJoinable | client/src/pages/HomePage.tsx:112 | four dotless i's, or two sharp s's, also pass the join check once upper-cased |
| HomePage.JoinCodeValid | client/src/pages/HomePage.tsx:56 | `joinCodeValid`: the pattern `^[A-Z]{4}$` |
| HomePage.JoinDisabled | client/src/pages/HomePage.tsx:57 | the join button is enabled exactly when no create is running and the code is well formed |
| HomePage.CreateDisabled | client/src/pages/HomePage.tsx:53 | `createDisabled`: a create is running, or the name or the question is only whitespace |
| HomePage.CreateGameRequest | client/src/pages/HomePage.tsx:18-27 | a create is sent exactly when the create button would be enabled; it then carries the trimmed name and the trimmed question, both non-empty |
| HomePage.CreatedFromHomePage | client/src/pages/HomePage.tsx:24-27 | a game created from the home page stores the trimmed typed question and name; the default question is never used |

## Left out

- Randomness is a free choice. `Math.random` in the shuffle and in code
  generation becomes `:|`: any permutation, any letter.
- The uuid of a new entry, and the `createdAt` clock values, are parameters or
  not modelled.
- HTTP framing is not modelled beyond the outcomes it selects: 404, 409, 500
  and the response fields.
- The network, the socket transport and the DynamoDB client are not modelled.
  Each store command is one call on `Tables`, in the awaited order.
- Concurrency is left out. Interleavings of two requests on the same game,
  including the race the conditional start guards against, are not modelled:
  every handler runs atomically.
- Reset deletes the entries with `Promise.all`. The model does this as one
  deletion of all of the game's entries.
- An update on a missing entry key would create a fragment item. The model
  guards every entry update by the read before it, so this does not arise.
- A random code may collide with a stored game. The model covers this as an
  upsert of that game; it does not track id uniqueness.
- Request fields that are `undefined` are not modelled. A name or guess that is
  not a string is not modelled either; only the question's absence is.
- The entry lists' display orders are not modelled: entries by `createdAt`
  before the start, and by text with `localeCompare` after it and after a fetch.
  A fetched list is any reordering of what the server returned.
- `localeCompare` on names is modelled as an arbitrary strict total order, passed
  as a parameter.
- The default `sort()` compares UTF-16 code units. Dafny characters are Unicode
  scalar values, so the two orders agree only on the Basic Multilingual Plane.
- `toUpperCase` is modelled on ASCII and on the non-ASCII characters whose upper
  case is made of ASCII capitals only: the dotless i (U+0131), the long s
  (U+017F), the sharp s (U+00DF) and the ligatures U+FB00 to U+FB06. Every other
  character is kept as it is. Its real upper case is not modelled; by the
  Unicode case tables it always holds a character outside A-Z, so the join
  check gives the same answer either way.
- The input's `maxLength` is not modelled.
- Client timers, toasts, confetti, loading flags, `window.location.reload`, the
  409 refresh, and modal open and close are not modelled.
- The room events that only trigger a refetch (`entriesUpdated`, `wrongAnswer`,
  `gameReset`, `scoreUpdated`) are modelled only through the fetches they cause.
- In `fetchGameData`, the title and question display values are not modelled.
- `addEntry`, `startGame` and `fetchScores` of `client/src/StartGamePage.tsx` are
  the hook's code (`client/src/StartGamePage.tsx:305-368`). They are modelled
  once, by `GameLogic.HookState.AddEntry`, `GameLogic.HookState.StartGame` and
  `GameLogic.HookState.ScoresFetched`.
- `isMyCard` is computed by the board that renders an `EntryButton`, which is
  not part of this model; it is a parameter.
- `client/src/pages/StartGamePage.tsx`, `server/server.ts`, the cleanup lambda,
  the read-only GET handlers and the React rendering are not part of this model.
- SocketServer.Guess: its contract does not restate that the new turn order stays
  duplicate-free, because that makes the proof too costly. This property is
  stated on the queue operations by `TurnQueue.RemovePlayerDistinct` and
  `TurnQueue.RotatedDistinct`.
- GameLogic.SortScores: the contract states a descending permutation. It does
  not state the stability of ties, which the insertion keeps.
- `server.ts:100-114`, `server/routes.ts:68-84` and the serverless add-entry
  handler (`amplify/backend/function/gameofthingsProdApi/src/index.js:53-64`) all
  store a new entry without a `guessed` attribute. `SocketServer.AddEntry`,
  `Routes.AddEntry` and `AmplifyApi.AddEntry` treat the missing attribute as
  `false`, which is how every reader of it behaves.

## Findings

| source | as written | input that shows it | evidently intended | confidence | as-written member | corrected member |
|---|---|---|---|---|---|---|
| server/gameService.ts:72 | after `shift()` the head is pushed back only `if (current)`, so an empty-string player name is dropped from the turn order on a wrong guess | turn order `["", "B"]`, wrong guess: written back as `["B"]` | always push the shifted head back, as `server.ts:367-368` does | not executed; low to medium (an empty name must first reach the queue) | GameService.RotateAsWritten, GameService.RotateAsWrittenDropsPlayer | TurnQueue.Rotated (the rotation `SocketServer.WrongGuess` uses) |
