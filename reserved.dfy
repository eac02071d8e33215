/** Verb codes, the reserved runes of the query language and the helpers that scan
    for them (reserved.go).

    The query is modelled as the bytes of its UTF-8 encoding. Every reserved rune is
    ASCII, and UTF-8 never places an ASCII byte inside a multi-byte sequence, so a
    byte-level scan for these runes finds the same indices as Go's rune decoding. */
module Reserved {

  /** A byte of the UTF-8 encoded query. */
  type byte = b: int | 0 <= b < 256

  // Special runes (reserved.go:14-25).
  const Space: int := 0x20
  const Quote: int := 0x22
  const At: int := 0x40
  const Plus: int := 0x2b
  const Minus: int := 0x2d
  const LParen: int := 0x28
  const RParen: int := 0x29
  const LBracket: int := 0x5b
  const RBracket: int := 0x5d
  const Escape: int := 0x5c

  /** utf8.RuneError, the rune `nextReserved` reports when nothing is found. */
  const RuneError: int := 0xFFFD

  // Modal verbs (reserved.go:6-11): a verb is the code of its marker rune.
  const VerbError: int := -2
  const Should: int := 0
  const MustNot: int := Minus
  const Must: int := Plus

  /** The keys of reservedRuneLookup (reserved.go:29-36). */
  const ReservedRunes: set<int> := {Space, Quote, Plus, Minus, LBracket, RBracket}

  /** isRuneReserved (reserved.go:38-41). Every reserved rune is ASCII, which is what
      makes the byte-level model exact. */
  predicate IsRuneReserved(r: int)
    ensures IsRuneReserved(r) ==> 0 <= r < 0x80
  {
    r in ReservedRunes
  }

  /** The reserved runes are exactly the six of the lookup table; the other
      declared special runes are not reserved. */
  lemma ReservedTable(r: int)
    ensures IsRuneReserved(r) <==>
      r == Space || r == Quote || r == Plus || r == Minus || r == LBracket || r == RBracket
    ensures !IsRuneReserved(At) && !IsRuneReserved(LParen) && !IsRuneReserved(RParen) && !IsRuneReserved(Escape)
  {
  }

  /** The verb codes are pairwise distinct. */
  lemma VerbCodesDistinct()
    ensures Should != Must && Should != MustNot && Must != MustNot
    ensures VerbError != Should && VerbError != Must && VerbError != MustNot
    ensures Must == 43 && MustNot == 45
  {
  }

  // ---------------------------------------------------------------------------
  // nextReserved

  /** The index of the first reserved byte of `s`, or -1 when there is none. */
  function FirstReserved(s: seq<byte>): (k: int)
    ensures -1 <= k < |s|
    ensures k == -1 <==> forall j :: 0 <= j < |s| ==> !IsRuneReserved(s[j])
    ensures k >= 0 ==> IsRuneReserved(s[k]) && forall j :: 0 <= j < k ==> !IsRuneReserved(s[j])
  {
    if s == [] then -1
    else if IsRuneReserved(s[0]) then 0
    else
      var k := FirstReserved(s[1..]);
      assert forall j :: 1 <= j < |s| ==> s[j] == s[1..][j - 1];
      if k == -1 then -1 else k + 1
  }

  /** A reserved byte with no reserved byte before it is the first one. */
  lemma FirstReservedIs(s: seq<byte>, k: nat)
    requires k < |s| && IsRuneReserved(s[k])
    requires forall j :: 0 <= j < k ==> !IsRuneReserved(s[j])
    ensures FirstReserved(s) == k
  {
  }

  /** nextReserved (reserved.go:46-53): the first reserved rune of `s` and its index,
      or (RuneError, -1) when `s` holds none. */
  method NextReserved(s: seq<byte>) returns (r: int, k: int)
    ensures k == FirstReserved(s)
    ensures k == -1 ==> r == RuneError && forall j :: 0 <= j < |s| ==> !IsRuneReserved(s[j])
    ensures k != -1 ==> 0 <= k < |s| && r == s[k] && IsRuneReserved(r)
    ensures k != -1 ==> forall j :: 0 <= j < k ==> !IsRuneReserved(s[j])
  {
    var i := 0;
    while i < |s|
      invariant 0 <= i <= |s|
      invariant forall j :: 0 <= j < i ==> !IsRuneReserved(s[j])
    {
      if IsRuneReserved(s[i]) {
        return s[i], i;
      }
      i := i + 1;
    }
    return RuneError, -1;
  }

  // ---------------------------------------------------------------------------
  // lookBehindCheck

  /** The last byte of a non-empty sequence. */
  function Last(s: seq<byte>): byte
    requires s != []
  {
    s[|s| - 1]
  }

  /** lookBehindCheck (reserved.go:60-79): whether the control rune `current` may follow
      the text `before`. The source assumes `current` is a control rune; the model
      asks for an ASCII one, for which comparing it with the last byte of `before`
      is the same as comparing it with the last decoded rune. Against the reserved
      table: after empty text any control rune is legal, and otherwise it is legal
      exactly when the previous rune is reserved, is not `]` and differs from it. */
  function LookBehindCheck(before: seq<byte>, current: int): (ok: bool)
    requires 0 <= current < 0x80
    ensures before == [] ==> ok
    ensures before != [] ==>
      (ok <==> IsRuneReserved(Last(before)) && Last(before) != RBracket && Last(before) != current)
  {
    if before == [] then true
    else if Last(before) == current then false
    else
      var prev := Last(before);
      prev == Space || prev == LBracket || prev == Quote || prev == Minus || prev == Plus
  }

  // ---------------------------------------------------------------------------
  // indexNonPhraseRune

  /** The number of quotation marks in `s`. */
  function QuoteCount(s: seq<byte>): nat
  {
    if s == [] then 0
    else QuoteCount(s[..|s| - 1]) + (if Last(s) == Quote then 1 else 0)
  }

  /** Position `k` of `s` holds `r` outside every phrase literal: an even number of
      quotation marks precede it. */
  predicate MatchOutsidePhrase(s: seq<byte>, r: int, k: int)
    requires 0 <= k < |s|
  {
    s[k] == r && QuoteCount(s[..k]) % 2 == 0
  }

  /** The least `k >= from` at which `r` occurs outside a phrase literal, or -1. */
  function FirstOutsidePhrase(s: seq<byte>, r: int, from: nat): (k: int)
    requires from <= |s|
    ensures k == -1 || from <= k < |s|
    ensures k == -1 <==> forall j :: from <= j < |s| ==> !MatchOutsidePhrase(s, r, j)
    ensures k != -1 ==> MatchOutsidePhrase(s, r, k) && forall j :: from <= j < k ==> !MatchOutsidePhrase(s, r, j)
    decreases |s| - from
  {
    if from == |s| then -1
    else if MatchOutsidePhrase(s, r, from) then from
    else FirstOutsidePhrase(s, r, from + 1)
  }

  /** The index the parser uses to find the end of a subquery. */
  function IndexNonPhrase(s: seq<byte>, r: int): int
  {
    FirstOutsidePhrase(s, r, 0)
  }

  /** indexNonPhraseRune (reserved.go:86-100): the index of the first `r` not inside a
      phrase literal, tracking literals with a flag that every quotation mark toggles.
      The model covers ASCII target runes (the parser asks for `[`). */
  method IndexNonPhraseRune(s: seq<byte>, r: int) returns (k: int)
    requires 0 <= r < 0x80
    ensures k == IndexNonPhrase(s, r)
    ensures k == -1 <==> forall j :: 0 <= j < |s| ==> !MatchOutsidePhrase(s, r, j)
    ensures k != -1 ==> 0 <= k < |s| && MatchOutsidePhrase(s, r, k)
    ensures k != -1 ==> forall j :: 0 <= j < k ==> !MatchOutsidePhrase(s, r, j)
  {
    var inLiteral := false;
    var i := 0;
    while i < |s|
      invariant 0 <= i <= |s|
      invariant inLiteral <==> QuoteCount(s[..i]) % 2 == 1
      invariant forall j :: 0 <= j < i ==> !MatchOutsidePhrase(s, r, j)
    {
      if !inLiteral && s[i] == r {
        assert MatchOutsidePhrase(s, r, i);
        return i;
      }
      if s[i] == Quote {
        inLiteral := !inLiteral;
      }
      assert s[..i + 1][..i] == s[..i];
      i := i + 1;
    }
    return -1;
  }

  /** With `r` the quotation mark the match is tested before the flag toggles, so the
      first quotation mark of `s` is found. */
  lemma {:induction false} IndexNonPhraseOfQuote(s: seq<byte>, k: nat)
    requires k < |s| && s[k] == Quote
    requires forall j :: 0 <= j < k ==> s[j] != Quote
    ensures IndexNonPhrase(s, Quote) == k
  {
    QuoteFreePrefix(s, k);
    assert MatchOutsidePhrase(s, Quote, k);
  }

  /** A prefix without quotation marks counts none. */
  lemma {:induction false} QuoteFreePrefix(s: seq<byte>, k: nat)
    requires k <= |s|
    requires forall j :: 0 <= j < k ==> s[j] != Quote
    ensures QuoteCount(s[..k]) == 0
  {
    if k > 0 {
      assert s[..k][..k - 1] == s[..k - 1];
      QuoteFreePrefix(s, k - 1);
    }
  }

  /** A rune found at the very start of `s` is found at index 0. */
  lemma IndexNonPhraseAtStart(s: seq<byte>, r: int)
    requires s != [] && s[0] == r
    ensures IndexNonPhrase(s, r) == 0
  {
    assert s[..0] == [];
    assert MatchOutsidePhrase(s, r, 0);
  }
}
