// One entry card of the game board: when it can be clicked, and the author
// line it shows once caught.

module EntryButton {
  import opened Types
  import opened GameLogic

  /** `isDisabled`: the card can be clicked only on this player's turn, only
      while the entry is not caught, and a player's own card only when it is the
      last entry left. */
  function IsDisabled(entry: Entry, isMyTurn: bool, isMyCard: bool, isLastEntry: bool): (r: bool)
    ensures !isMyTurn ==> r
    ensures entry.guessed ==> r
    ensures isMyTurn && !entry.guessed && !isMyCard ==> !r
    ensures isMyTurn && !entry.guessed && isMyCard ==> (r <==> !isLastEntry)
  {
    !isMyTurn || entry.guessed || (isMyCard && !isLastEntry)
  }

  /** The "Written by" line: the author's name, shown only once caught. */
  function AuthorLine(entry: Entry): (r: Option<string>)
    ensures r.Some? <==> entry.guessed
    ensures r.Some? ==> r.value == entry.authorName
  {
    if entry.guessed then Some(entry.authorName) else None
  }

  /** A card that names its author can no longer be clicked. */
  lemma NamedCardDisabled(entry: Entry, isMyTurn: bool, isMyCard: bool, isLastEntry: bool)
    requires AuthorLine(entry).Some?
    ensures IsDisabled(entry, isMyTurn, isMyCard, isLastEntry)
  {
  }

  /** With the hook's values plugged in: a clickable card of one's own means it
      is this player's turn and that card is the only one not yet caught. */
  lemma OwnCardOnlyWhenLast(es: seq<Entry>, k: int, currentPlayer: Option<string>, authorName: string)
    requires 0 <= k < |es|
    requires !IsDisabled(es[k], IsMyTurn(currentPlayer, authorName), true, IsLastEntry(es))
    ensures currentPlayer == Some(authorName)
    ensures OnlyUncaught(es, k)
  {
    IsLastEntryIff(es);
    var j :| OnlyUncaught(es, j);
    assert !es[k].guessed;
    assert j == k;
  }
}
