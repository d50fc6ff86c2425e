// The home page: the checks that enable the create and join buttons, the
// request a create sends, and the upper-casing of a typed join code.

module HomePage {
  import opened Types
  import opened JsStrings
  import opened GameIds
  import opened Lifecycle

  /** The anchored pattern `^[A-Z]{n}$`: exactly `n` characters, each an
      upper-case ASCII letter. */
  predicate MatchesUpperRun(s: string, n: nat)
  {
    if n == 0 then s == []
    else s != [] && 'A' <= s[0] <= 'Z' && MatchesUpperRun(s[1..], n - 1)
  }

  lemma {:induction false} MatchesUpperRunIff(s: string, n: nat)
    ensures MatchesUpperRun(s, n) <==> |s| == n && forall k :: 0 <= k < |s| ==> 'A' <= s[k] <= 'Z'
  {
    if n > 0 && s != [] {
      MatchesUpperRunIff(s[1..], n - 1);
      assert forall k :: 1 <= k < |s| ==> s[k] == s[1..][k - 1];
    }
  }

  /** `joinCodeValid`: `/^[A-Z]{4}$/.test(joinGameId)`. */
  predicate JoinCodeValid(code: string)
  {
    MatchesUpperRun(code, 4)
  }

  /** The join check accepts exactly the codes the servers generate: every code
      a create returns can be joined, and nothing else can. */
  lemma JoinCodeValidIffGameCode(code: string)
    ensures JoinCodeValid(code) <==> IsGameCode(code)
  {
    MatchesUpperRunIff(code, 4);
  }

  lemma JoinCodeValidIff(s: string)
    ensures JoinCodeValid(s) <==> |s| == 4 && AllCapitals(s)
  {
    MatchesUpperRunIff(s, 4);
  }

  predicate IsAsciiLetter(c: char)
  {
    'a' <= c <= 'z' || 'A' <= c <= 'Z'
  }

  predicate AllCapitals(s: string)
  {
    forall k :: 0 <= k < |s| ==> 'A' <= s[k] <= 'Z'
  }

  /** A character that upper-cases to ASCII capitals only: an ASCII letter of
      either case, or one of the few other characters that do. */
  predicate UpperCasesToCapitals(c: char)
  {
    IsAsciiLetter(c) || UpperCasedToAscii(c)
  }

  /** How many characters the upper case of `c` has: three for the ligatures
      "ffi" and "ffl", two for the sharp s and the other two-letter ligatures,
      one for everything else. */
  function CapitalCount(c: char): nat
  {
    if c == '\U{FB03}' || c == '\U{FB04}' then 3
    else if c == '\U{00DF}' || c == '\U{FB00}' || c == '\U{FB01}' || c == '\U{FB02}' || c == '\U{FB05}' || c == '\U{FB06}' then 2
    else 1
  }

  function CapitalLength(s: string): nat
  {
    if s == [] then 0 else CapitalCount(s[0]) + CapitalLength(s[1..])
  }

  lemma UpperOfShape(c: char)
    ensures |UpperOf(c)| == CapitalCount(c)
    ensures AllCapitals(UpperOf(c)) <==> UpperCasesToCapitals(c)
  {
    if !UpperCasedToAscii(c) {
      assert UpperOf(c)[0] == UpperAscii(c);
    }
  }

  lemma {:induction false} ToUpperCaseLength(raw: string)
    ensures |ToUpperCase(raw)| == CapitalLength(raw)
  {
    if raw != [] {
      ToUpperCaseLength(raw[1..]);
      UpperOfShape(raw[0]);
    }
  }

  lemma AllCapitalsConcat(a: string, b: string)
    ensures AllCapitals(a + b) <==> AllCapitals(a) && AllCapitals(b)
  {
    assert forall k :: 0 <= k < |a| ==> (a + b)[k] == a[k];
    assert forall k :: 0 <= k < |b| ==> (a + b)[|a| + k] == b[k];
  }

  lemma {:induction false} ToUpperCaseCapitals(raw: string)
    ensures AllCapitals(ToUpperCase(raw)) <==> forall k :: 0 <= k < |raw| ==> UpperCasesToCapitals(raw[k])
  {
    if raw != [] {
      ToUpperCaseCapitals(raw[1..]);
      UpperOfShape(raw[0]);
      AllCapitalsConcat(UpperOf(raw[0]), ToUpperCase(raw[1..]));
      assert forall k :: 1 <= k < |raw| ==> raw[k] == raw[1..][k - 1];
    }
  }

  /** The upper case of a typed string has `CapitalLength` characters, and they
      are all capitals exactly when every typed character upper-cases to
      capitals. */
  lemma ToUpperCaseShape(raw: string)
    ensures |ToUpperCase(raw)| == CapitalLength(raw)
    ensures AllCapitals(ToUpperCase(raw)) <==> forall k :: 0 <= k < |raw| ==> UpperCasesToCapitals(raw[k])
  {
    ToUpperCaseLength(raw);
    ToUpperCaseCapitals(raw);
  }

  /** The join input stores what is typed upper-cased; the result passes the
      check exactly when every typed character upper-cases to capitals and
      together they make four. */
  lemma TypedCodeJoinable(raw: string)
    ensures JoinCodeValid(ToUpperCase(raw)) <==> CapitalLength(raw) == 4 && forall k :: 0 <= k < |raw| ==> UpperCasesToCapitals(raw[k])
  {
    JoinCodeValidIff(ToUpperCase(raw));
    ToUpperCaseShape(raw);
  }

  /** Typed in ASCII, a code can be joined exactly when it is four letters of
      either case. */
  lemma TypedAsciiCodeJoinable(raw: string)
    requires IsAscii(raw)
    ensures JoinCodeValid(ToUpperCase(raw)) <==> |raw| == 4 && forall k :: 0 <= k < |raw| ==> IsAsciiLetter(raw[k])
  {
    MatchesUpperRunIff(ToUpperCase(raw), 4);
  }

  /** Non-ASCII input can pass the check too: four dotless i's become "IIII",
      two sharp s's become "SSSS". */
  lemma NonAsciiCodesJoinable()
    ensures JoinCodeValid(ToUpperCase("\U{0131}\U{0131}\U{0131}\U{0131}"))
    ensures JoinCodeValid(ToUpperCase("\U{00DF}\U{00DF}"))
  {
    TypedCodeJoinable("\U{0131}\U{0131}\U{0131}\U{0131}");
    TypedCodeJoinable("\U{00DF}\U{00DF}");
  }

  /** `joinDisabled`. */
  function JoinDisabled(creatingGame: bool, joinGameId: string): (r: bool)
    ensures !r <==> !creatingGame && IsGameCode(joinGameId)
  {
    JoinCodeValidIffGameCode(joinGameId);
    creatingGame || !JoinCodeValid(joinGameId)
  }

  /** `createDisabled`. */
  predicate CreateDisabled(creatingGame: bool, gameName: string, questionText: string)
  {
    creatingGame || Trim(gameName) == "" || Trim(questionText) == ""
  }

  /** The body of the create request. */
  datatype CreateRequest = CreateRequest(name: string, question: string)

  /** `createGame`: nothing is sent unless both fields hold more than
      whitespace; then both are sent trimmed. */
  function CreateGameRequest(gameName: string, questionText: string): (r: Option<CreateRequest>)
    ensures r.Some? <==> !CreateDisabled(false, gameName, questionText)
    ensures r.Some? ==> r.value == CreateRequest(Trim(gameName), Trim(questionText))
    ensures r.Some? ==> r.value.name != "" && r.value.question != ""
    ensures r.Some? ==> Trim(r.value.name) == r.value.name && Trim(r.value.question) == r.value.question
  {
    TrimIdempotent(gameName);
    TrimIdempotent(questionText);
    if Trim(gameName) == "" || Trim(questionText) == "" then None
    else Some(CreateRequest(Trim(gameName), Trim(questionText)))
  }

  /** A game created from the home page keeps the typed question (trimmed):
      the servers' default question is never substituted for it. */
  lemma CreatedFromHomePage(prev: Game, gameName: string, questionText: string)
    requires CreateGameRequest(gameName, questionText).Some?
    ensures var req := CreateGameRequest(gameName, questionText).value;
      var g := Created(prev, req.name, Some(req.question));
      g.question == Some(Trim(questionText)) && g.gameOwner == Some(Trim(gameName))
  {
  }
}
