// The turn queue: the player names still owed a guessing turn, head first
// (`turnOrder` of a game). The backends change it in two ways only: a right
// guess removes the caught author (`filter(name => name !== author)`), a wrong
// guess moves the head to the tail (`shift` then `push`) when there are at
// least two players.

module TurnQueue {
  import opened Types
  import opened Distinct

  /** `turnOrder.filter(name => name !== author)`. */
  function RemovePlayer(q: seq<string>, author: string): (r: seq<string>)
    ensures author !in r
    ensures multiset(r) == multiset(q)[author := 0]
    ensures |r| <= |q|
  {
    if q == [] then []
    else
      assert q == [q[0]] + q[1..];
      (if q[0] == author then [] else [q[0]]) + RemovePlayer(q[1..], author)
  }

  /** A wrong guess passes the turn: with more than one player the head moves to
      the tail, otherwise the queue is kept as it is. */
  function Rotated(q: seq<string>): (r: seq<string>)
    ensures |r| == |q| && multiset(r) == multiset(q)
    ensures |q| > 1 ==> r[|r| - 1] == q[0] && r[..|r| - 1] == q[1..]
    ensures |q| <= 1 ==> r == q
  {
    if |q| > 1 then
      assert q == [q[0]] + q[1..];
      q[1..] + [q[0]]
    else q
  }

  /** `turnOrder[0] || null`: the head of the queue, or none when the queue is
      empty; an empty-string head is falsy and reads as none as well. */
  function CurrentPlayer(q: seq<string>): (p: Option<string>)
    ensures p.Some? ==> q != [] && p.value == q[0]
    ensures p.None? <==> q == [] || q[0] == ""
  {
    if q != [] && q[0] != "" then Some(q[0]) else None
  }

  /** Removing the author keeps the relative order of everyone else: removal
      distributes over concatenation. */
  lemma {:induction false} RemovePlayerConcat(a: seq<string>, b: seq<string>, author: string)
    ensures RemovePlayer(a + b, author) == RemovePlayer(a, author) + RemovePlayer(b, author)
  {
    if a != [] {
      assert (a + b)[1..] == a[1..] + b;
      RemovePlayerConcat(a[1..], b, author);
    } else {
      assert a + b == b;
    }
  }

  /** Removing an author who is not queued changes nothing. */
  lemma {:induction false} RemoveAbsentPlayer(q: seq<string>, author: string)
    requires author !in q
    ensures RemovePlayer(q, author) == q
  {
    if q != [] {
      RemoveAbsentPlayer(q[1..], author);
      assert q == [q[0]] + q[1..];
    }
  }

  /** Removing the same author twice is removing once. */
  lemma RemovePlayerIdempotent(q: seq<string>, author: string)
    ensures RemovePlayer(RemovePlayer(q, author), author) == RemovePlayer(q, author)
  {
    RemoveAbsentPlayer(RemovePlayer(q, author), author);
  }

  /** On a duplicate-free queue removal takes out at most one name: the result is
      still duplicate-free and one shorter exactly when the author was queued. */
  lemma {:induction false} RemovePlayerDistinct(q: seq<string>, author: string)
    requires NoDups(q)
    ensures var r := RemovePlayer(q, author);
      NoDups(r) && |r| == (if author in q then |q| - 1 else |q|)
  {
    var r := RemovePlayer(q, author);
    DistinctMultiplicity(q, author);
    assert |multiset(r)| == |multiset(q)| - multiset(q)[author];
    forall x ensures multiset(r)[x] <= 1 {
      DistinctMultiplicity(q, x);
    }
    AtMostOnceIsDistinct(r);
  }

  /** A rotated duplicate-free queue is still duplicate-free. */
  lemma RotatedDistinct(q: seq<string>)
    requires NoDups(q)
    ensures NoDups(Rotated(q))
  {
    PermutationDistinct(q, Rotated(q));
  }

  /** `n` wrong guesses in a row. */
  function RotatedTimes(q: seq<string>, n: nat): seq<string>
  {
    if n == 0 then q else Rotated(RotatedTimes(q, n - 1))
  }

  /** After `n` rotations of a queue of more than one player, the first `n`
      players have moved, in order, behind the others. */
  lemma {:induction false} RotatedTimesSplit(q: seq<string>, n: nat)
    requires |q| > 1 && n <= |q|
    ensures RotatedTimes(q, n) == q[n..] + q[..n]
  {
    if n > 0 {
      RotatedTimesSplit(q, n - 1);
      var p := q[n - 1..] + q[..n - 1];
      assert RotatedTimes(q, n) == Rotated(p) == p[1..] + [p[0]];
      SplitStep(q, n);
    }
  }

  /** Moving the head of `q[n-1..] + q[..n-1]` to its end gives `q[n..] + q[..n]`. */
  lemma SplitStep<T>(q: seq<T>, n: nat)
    requires 0 < n <= |q|
    ensures var p := q[n - 1..] + q[..n - 1]; p[1..] + [p[0]] == q[n..] + q[..n]
  {
    var p := q[n - 1..] + q[..n - 1];
    assert p[0] == q[n - 1];
    assert p[1..] == q[n..] + q[..n - 1];
    assert q[..n] == q[..n - 1] + [q[n - 1]];
  }

  /** One wrong guess from every player hands the turn back round to where it
      started: rotating a queue as many times as it is long restores it. */
  lemma RotatedFullCircle(q: seq<string>)
    ensures RotatedTimes(q, |q|) == q
  {
    if |q| > 1 {
      RotatedTimesSplit(q, |q|);
      assert q[|q|..] + q[..|q|] == q;
    } else {
      RotatedShortQueue(q, |q|);
    }
  }

  lemma {:induction false} RotatedShortQueue(q: seq<string>, n: nat)
    requires |q| <= 1
    ensures RotatedTimes(q, n) == q
  {
    if n > 0 {
      RotatedShortQueue(q, n - 1);
    }
  }

  /** `entries.map(e => e.authorName)`. */
  function AuthorsOf(es: seq<Entry>): (r: seq<string>)
    ensures |r| == |es|
    ensures forall k :: 0 <= k < |es| ==> r[k] == es[k].authorName
  {
    if es == [] then [] else [es[0].authorName] + AuthorsOf(es[1..])
  }

  /** The players of a round: every author with an entry, once each, in order
      of their first entry. */
  function Players(es: seq<Entry>): (r: seq<string>)
    ensures NoDups(r)
    ensures forall p :: p in r <==> p in AuthorsOf(es)
  {
    Dedup(AuthorsOf(es))
  }

  /** A shuffle of the players is a turn queue holding each author exactly once. */
  lemma ShuffledPlayers(es: seq<Entry>, order: seq<string>)
    requires multiset(order) == multiset(Players(es))
    ensures NoDups(order)
    ensures forall p :: p in order <==> p in AuthorsOf(es)
    ensures |order| <= |es|
  {
    PermutationDistinct(Players(es), order);
    forall p ensures p in order <==> p in Players(es) {
      assert p in order <==> p in multiset(order);
      assert p in Players(es) <==> p in multiset(Players(es));
    }
    assert |order| == |multiset(order)| == |Players(es)|;
  }
}
