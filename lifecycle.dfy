// The game record's lifecycle: what create, start and reset write into a game
// item. Each is an update on the item with that key, so attributes the update
// does not name are kept from whatever item held the key before (all absent for
// a new key).

module Lifecycle {
  import opened Types
  import opened JsStrings

  /** createGame: `SET question = question || default, gameOwner = name`. The
      question is used as sent, without trimming. */
  function Created(prev: Game, name: string, question: Option<string>): (g: Game)
    ensures g.gameOwner == Some(name)
    ensures question.Some? && question.value != "" ==> g.question == question
    ensures (question.None? || question.value == "") ==> g.question == Some(DefaultQuestion)
    ensures g.started == prev.started && g.turnOrder == prev.turnOrder
  {
    prev.(gameOwner := Some(name), question := Some(OrElse(question, DefaultQuestion)))
  }

  /** The start update of the socket server and the router:
      `SET started = true, turnOrder = order`. */
  function StartedWith(prev: Game, order: seq<string>): (g: Game)
    ensures !NotStarted(g) && TurnOrderOf(g) == order
    ensures g.gameOwner == prev.gameOwner && g.question == prev.question
  {
    prev.(started := Some(true), turnOrder := Some(order))
  }

  /** The start update of the serverless API: `SET started = true` only. */
  function MarkedStarted(prev: Game): (g: Game)
    ensures !NotStarted(g)
    ensures g.gameOwner == prev.gameOwner && g.question == prev.question && g.turnOrder == prev.turnOrder
  {
    prev.(started := Some(true))
  }

  /** reset: `SET question = question?.trim() || default, started = false`.
      The turn order is not part of the update and survives a reset. */
  function AfterReset(prev: Game, question: Option<string>): (g: Game)
    ensures g.started == Some(false) && NotStarted(g)
    ensures g.gameOwner == prev.gameOwner && g.turnOrder == prev.turnOrder
    ensures question.Some? && Trim(question.value) != "" ==> g.question == Some(Trim(question.value))
    ensures (question.None? || Trim(question.value) == "") ==> g.question == Some(DefaultQuestion)
  {
    prev.(question := Some(TrimmedOrElse(question, DefaultQuestion)), started := Some(false))
  }

  /** The default question is its own trim. */
  lemma DefaultQuestionTrimmed()
    ensures Trim(DefaultQuestion) == DefaultQuestion
  {
    assert DefaultQuestion[0] == 'W';
    assert TrimStart(DefaultQuestion) == DefaultQuestion;
    assert DefaultQuestion[|DefaultQuestion| - 1] == '?';
  }

  /** After a reset the question is never empty and carries no surrounding
      whitespace, whatever was sent. */
  lemma ResetQuestionIsTrimmed(prev: Game, question: Option<string>)
    ensures var g := AfterReset(prev, question);
      g.question.Some? && g.question.value != "" && Trim(g.question.value) == g.question.value
  {
    if question.Some? && Trim(question.value) != "" {
      TrimIdempotent(question.value);
    } else {
      DefaultQuestionTrimmed();
    }
  }

  /** A created game always has a non-empty question. */
  lemma CreatedQuestionNonEmpty(prev: Game, name: string, question: Option<string>)
    ensures var g := Created(prev, name, question); g.question.Some? && g.question.value != ""
  {
  }

  /** Start is once per round: a started game fails the start guard, the reset
      of it passes the guard again, and the reset keeps the last turn order. */
  lemma StartOncePerRound(prev: Game, order: seq<string>, question: Option<string>)
    ensures !NotStarted(StartedWith(prev, order))
    ensures NotStarted(AfterReset(StartedWith(prev, order), question))
    ensures TurnOrderOf(AfterReset(StartedWith(prev, order), question)) == order
  {
  }
}
