// The game page: which entry cards can be clicked, the name lists ordered by
// the locale comparison, the split of the guess dialog's names into those still
// to catch and those fully caught, and the page state a correct guess updates.

module StartGamePage {
  import opened Types
  import opened Distinct
  import opened Sorting
  import opened TurnQueue
  import opened GameLogic

  /** `isEntryEnabled`: the round has started, the entry is not caught, and it
      is not a revealed entry this page has already seen caught. */
  predicate IsEntryEnabled(entry: Entry, started: bool, guessedEntryIds: set<string>)
  {
    started && !entry.guessed && !(entry.revealed && entry.entryId in guessedEntryIds)
  }

  /** Before the start no card can be clicked. */
  lemma NothingEnabledBeforeStart(entry: Entry, guessedEntryIds: set<string>)
    ensures !IsEntryEnabled(entry, false, guessedEntryIds)
  {
  }

  /** Once entries are revealed, a card is clickable exactly when it is neither
      caught nor remembered as caught. */
  lemma EnabledAfterStart(entry: Entry, guessedEntryIds: set<string>)
    requires entry.revealed
    ensures IsEntryEnabled(entry, true, guessedEntryIds) <==> !entry.guessed && entry.entryId !in guessedEntryIds
  {
  }

  /** `guessedNames` with `localeCompare` as the order. */
  function GuessedNames(es: seq<Entry>, less: (string, string) -> bool): (r: seq<string>)
    requires IsStrictTotalOrder(less)
    ensures StrictlySorted(r, less)
    ensures forall p :: p in r <==> exists k :: 0 <= k < |es| && es[k].guessed && es[k].authorName == p
  {
    NameList(es, true, less)
  }

  /** `notGuessedNames` with `localeCompare` as the order. */
  function NotGuessedNames(es: seq<Entry>, less: (string, string) -> bool): (r: seq<string>)
    requires IsStrictTotalOrder(less)
    ensures StrictlySorted(r, less)
    ensures forall p :: p in r <==> exists k :: 0 <= k < |es| && !es[k].guessed && es[k].authorName == p
  {
    NameList(es, false, less)
  }

  /** `entries.filter(e => e.authorName === name).every(e => e.guessed)`. */
  function AuthorAllGuessed(es: seq<Entry>, name: string): (r: bool)
    ensures r <==> forall k :: 0 <= k < |es| && es[k].authorName == name ==> es[k].guessed
  {
    if es == [] then true
    else
      var rest := AuthorAllGuessed(es[1..], name);
      assert forall k :: 1 <= k < |es| ==> es[k] == es[1..][k - 1];
      (es[0].authorName != name || es[0].guessed) && rest
  }

  /** An author's button is disabled exactly when they have no entry left to
      be caught, whatever order the names are shown in. */
  lemma AllGuessedIffNotListed(es: seq<Entry>, name: string, less: (string, string) -> bool)
    requires IsStrictTotalOrder(less)
    ensures AuthorAllGuessed(es, name) <==> name !in NotGuessedNames(es, less)
  {
  }

  /** The names of `names`, in order, whose authors are (`disabled`) or are not
      fully caught: the two lists the guess dialog builds. */
  function NamesByState(names: seq<string>, es: seq<Entry>, disabled: bool): (r: seq<string>)
    ensures |r| <= |names|
  {
    if names == [] then []
    else
      var last := names[|names| - 1];
      NamesByState(names[..|names| - 1], es, disabled) + (if AuthorAllGuessed(es, last) == disabled then [last] else [])
  }

  /** The two lists together hold every name as often as `names` does. */
  lemma {:induction false} NamesByStateMultiset(names: seq<string>, es: seq<Entry>)
    ensures multiset(NamesByState(names, es, false)) + multiset(NamesByState(names, es, true)) == multiset(names)
  {
    if names != [] {
      var init := names[..|names| - 1];
      var last := names[|names| - 1];
      NamesByStateMultiset(init, es);
      assert names == init + [last];
      assert multiset(names) == multiset(init) + multiset{last};
    }
  }

  /** A name in one of the lists has its author in that list's state. */
  lemma {:induction false} NamesByStateState(names: seq<string>, es: seq<Entry>, disabled: bool)
    ensures forall n :: n in NamesByState(names, es, disabled) ==> AuthorAllGuessed(es, n) == disabled
  {
    if names != [] {
      NamesByStateState(names[..|names| - 1], es, disabled);
    }
  }

  /** The two lists split `names`: together they hold every name as often as
      `names` does, and a name is in one list exactly when its author is in the
      matching state. */
  lemma NamesByStateSplit(names: seq<string>, es: seq<Entry>)
    ensures multiset(NamesByState(names, es, false)) + multiset(NamesByState(names, es, true)) == multiset(names)
    ensures forall n :: n in NamesByState(names, es, false) <==> n in names && !AuthorAllGuessed(es, n)
    ensures forall n :: n in NamesByState(names, es, true) <==> n in names && AuthorAllGuessed(es, n)
  {
    var e := NamesByState(names, es, false);
    var d := NamesByState(names, es, true);
    NamesByStateMultiset(names, es);
    NamesByStateState(names, es, false);
    NamesByStateState(names, es, true);
    forall n ensures n in e <==> n in names && !AuthorAllGuessed(es, n) {
      assert n in e <==> n in multiset(e);
      assert n in d <==> n in multiset(d);
      assert n in names <==> n in multiset(names);
    }
    forall n ensures n in d <==> n in names && AuthorAllGuessed(es, n) {
      assert n in e <==> n in multiset(e);
      assert n in d <==> n in multiset(d);
      assert n in names <==> n in multiset(names);
    }
  }

  /** The guess dialog's loop over `uniqueNames`: each name goes to the
      disabled list when every entry of its author is caught, to the enabled
      list otherwise. */
  method PartitionNames(names: seq<string>, es: seq<Entry>) returns (enabled: seq<string>, disabled: seq<string>)
    ensures enabled == NamesByState(names, es, false)
    ensures disabled == NamesByState(names, es, true)
    ensures multiset(enabled) + multiset(disabled) == multiset(names)
    ensures forall n :: n in enabled <==> n in names && !AuthorAllGuessed(es, n)
    ensures forall n :: n in disabled <==> n in names && AuthorAllGuessed(es, n)
  {
    enabled := [];
    disabled := [];
    var i := 0;
    while i < |names|
      invariant 0 <= i <= |names|
      invariant enabled == NamesByState(names[..i], es, false)
      invariant disabled == NamesByState(names[..i], es, true)
    {
      var name := names[i];
      assert names[..i + 1][..i] == names[..i];
      if AuthorAllGuessed(es, name) {
        disabled := disabled + [name];
      } else {
        enabled := enabled + [name];
      }
      i := i + 1;
    }
    assert names[..i] == names;
    NamesByStateSplit(names, es);
  }

  /** The dialog shows the enabled names first, then the disabled ones. Built
      from the hook's `uniqueNames`, that list holds every author exactly once. */
  lemma RenderedNamesOnce(es: seq<Entry>)
    ensures var rendered := NamesByState(UniqueNames(es), es, false) + NamesByState(UniqueNames(es), es, true);
      && NoDups(rendered)
      && (forall n :: n in rendered <==> n in AuthorsOf(es))
      && |rendered| == |UniqueNames(es)|
  {
    var names := UniqueNames(es);
    var rendered := NamesByState(names, es, false) + NamesByState(names, es, true);
    NamesByStateSplit(names, es);
    assert multiset(rendered) == multiset(names);
    PermutationDistinct(names, rendered);
    assert forall n :: n in rendered <==> n in multiset(rendered);
    assert forall n :: n in names <==> n in multiset(names);
    assert |rendered| == |multiset(rendered)|;
  }

  /** The page state a fetch, a guess answer and a reset touch. */
  class PageState {
    var entries: seq<Entry>
    var started: bool
    var guessedEntryIds: set<string>
    var newQuestion: string

    constructor ()
      ensures entries == [] && !started && guessedEntryIds == {} && newQuestion == ""
    {
      entries := [];
      started := false;
      guessedEntryIds := {};
      newQuestion := "";
    }

    /** `fetchEntries` resolved with `items`: kept in a display order of its
        own, with `started` set exactly when some entry is revealed. */
    method EntriesFetched(items: seq<Entry>)
      modifies this
      ensures multiset(entries) == multiset(items)
      ensures started == StartedFrom(items)
      ensures guessedEntryIds == old(guessedEntryIds) && newQuestion == old(newQuestion)
    {
      assert multiset(items) == multiset(items);
      var sorted: seq<Entry> :| multiset(sorted) == multiset(items);
      entries := sorted;
      if StartedFrom(sorted) {
        started := true;
      } else {
        started := false;
      }
      assert forall k :: 0 <= k < |sorted| && sorted[k].revealed ==> sorted[k] in multiset(items);
      assert forall k :: 0 <= k < |items| && items[k].revealed ==> items[k] in multiset(sorted);
    }

    /** The guess answer arrived. Only `isCorrect` with a returned entry counts:
        the entry replaces its copy and its id is remembered, so the card of a
        caught entry can no longer be clicked. The remembered ids only grow. */
    method GuessAnswered(entryId: string, isCorrect: Option<bool>, entry: Option<Entry>)
      modifies this
      ensures isCorrect == Some(true) && entry.Some? ==>
        && entries == ReplaceById(old(entries), entry.value)
        && guessedEntryIds == old(guessedEntryIds) + {entryId}
      ensures !(isCorrect == Some(true) && entry.Some?) ==>
        entries == old(entries) && guessedEntryIds == old(guessedEntryIds)
      ensures old(guessedEntryIds) <= guessedEntryIds
      ensures started == old(started) && newQuestion == old(newQuestion)
      ensures isCorrect == Some(true) && entry.Some? && entry.value.guessed ==>
        forall k :: 0 <= k < |entries| && entries[k].entryId == entry.value.entryId ==>
          !IsEntryEnabled(entries[k], started, guessedEntryIds)
      ensures isCorrect == Some(true) && entry.Some? ==>
        forall k :: 0 <= k < |entries| && entries[k].entryId == entryId && entries[k].revealed ==>
          !IsEntryEnabled(entries[k], started, guessedEntryIds)
    {
      if isCorrect == Some(true) && entry.Some? {
        entries := ReplaceById(entries, entry.value);
        guessedEntryIds := guessedEntryIds + {entryId};
      }
    }

    /** `startNewRound` succeeded: a new round starts from nothing. */
    method RoundReset()
      modifies this
      ensures newQuestion == "" && entries == [] && guessedEntryIds == {} && !started
    {
      newQuestion := "";
      entries := [];
      guessedEntryIds := {};
      started := false;
    }
  }
}
