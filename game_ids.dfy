// Game codes: four letters drawn from the upper-case Latin alphabet. The random
// source is modelled as an arbitrary choice of an index into the alphabet.

module GameIds {

  const Letters: string := "ABCDEFGHIJKLMNOPQRSTUVWXYZ"

  /** A well-formed game code: exactly four upper-case ASCII letters. */
  predicate IsGameCode(id: string)
  {
    |id| == 4 && forall k :: 0 <= k < |id| ==> 'A' <= id[k] <= 'Z'
  }

  lemma LettersAreUpperCase()
    ensures |Letters| == 26
    ensures forall k :: 0 <= k < |Letters| ==> 'A' <= Letters[k] <= 'Z'
  {
  }

  /** `randomGameId`: four rounds of appending `letters[index]` for a random
      index below the alphabet's length. */
  method RandomGameId() returns (id: string)
    ensures IsGameCode(id)
  {
    LettersAreUpperCase();
    id := "";
    var i := 0;
    while i < 4
      invariant 0 <= i <= 4 && |id| == i
      invariant forall k :: 0 <= k < |id| ==> 'A' <= id[k] <= 'Z'
    {
      var index :| 0 <= index < |Letters|;
      id := id + [Letters[index]];
      i := i + 1;
    }
  }
}
