// Record shapes shared by every backend and the client (types/index.ts).

module Types {

  datatype Option<+T> = None | Some(value: T)

  datatype Result<+R, +E> = Success(value: R) | Failure(error: E)

  /** One submitted answer. `createdAt` is a clock value and is not modelled. */
  datatype Entry = Entry(
    entryId: string,
    gameId: string,
    authorName: string,
    text: string,
    revealed: bool,
    guessed: bool)

  /** A game item as the table holds it. Every attribute may be absent, because an
      update on a missing key creates the item with only the attributes it sets. */
  datatype Game = Game(
    gameOwner: Option<string>,
    question: Option<string>,
    started: Option<bool>,
    turnOrder: Option<seq<string>>)

  /** The item an update on a missing game key starts from. */
  const NoGame: Game := Game(None, None, None, None)

  datatype Score = Score(playerName: string, score: nat)

  /** The question used when none, or only whitespace, is supplied. */
  const DefaultQuestion: string := "What is your favorite thing?"

  /** `gameData.Item?.turnOrder || []`: a missing list reads as the empty queue. */
  function TurnOrderOf(g: Game): (q: seq<string>)
    ensures g.turnOrder.Some? ==> q == g.turnOrder.value
    ensures g.turnOrder.None? ==> q == []
  {
    if g.turnOrder.Some? then g.turnOrder.value else []
  }

  /** The start guard `attribute_not_exists(started) OR started = false`. */
  predicate NotStarted(g: Game)
  {
    g.started != Some(true)
  }
}
