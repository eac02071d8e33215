/** Concrete queries, written as their bytes: the error cases of parse_test.go:14-24
    (the empty query of line 13 is `Parser.EmptyQueryFails`) and queries that show how
    verbs, words and phrases combine. */
module Cases {
  import opened Reserved
  import opened Errors
  import opened Parser

  /** `+"`: the quotation mark is the last byte (parse_test.go:15). */
  lemma MarkerThenQuote()
    ensures Parsed([Plus, Quote]) == Failure(UnpairedQuotation)
  {
    var s := [Plus, Quote];
    VerbStep(s, 0);
    ScanSkip(s, 0, Should, []);
    UnpairedQuote(s, 1, Plus);
    ScanStops(s, 1, Plus, []);
  }

  /** `+-word`: a second marker while one is pending (parse_test.go:18). */
  lemma TwoMarkers()
    ensures Parsed([Plus, Minus, 0x77, 0x6f, 0x72, 0x64]) == Failure(UnexpectedVerbMarker)
  {
    var s := [Plus, Minus, 0x77, 0x6f, 0x72, 0x64];
    VerbStep(s, 0);
    ScanSkip(s, 0, Should, []);
    RepeatedVerbFails(s, 1, Plus);
    ScanStops(s, 1, Plus, []);
  }

  /** `++[word]`: the second `+` fails before the subquery is reached (parse_test.go:19). */
  lemma TwoMarkersThenSubquery()
    ensures Parsed([Plus, Plus, LBracket, 0x77, 0x6f, 0x72, 0x64, RBracket]) == Failure(UnexpectedVerbMarker)
  {
    var s := [Plus, Plus, LBracket, 0x77, 0x6f, 0x72, 0x64, RBracket];
    VerbStep(s, 0);
    ScanSkip(s, 0, Should, []);
    RepeatedVerbFails(s, 1, Plus);
    ScanStops(s, 1, Plus, []);
  }

  /** `\ "no closing quotation` */
  const NoClosingQuery: seq<byte> :=
    [Escape, Space, Quote, 0x6e, 0x6f, Space, 0x63, 0x6c, 0x6f, 0x73, 0x69, 0x6e, 0x67,
     Space, 0x71, 0x75, 0x6f, 0x74, 0x61, 0x74, 0x69, 0x6f, 0x6e]

  /** `\ "no closing quotation`: the word `\` is accepted, then the opening quotation mark
      has no partner (parse_test.go:14). */
  lemma NoClosingQuote()
    ensures Parsed(NoClosingQuery) == Failure(UnpairedQuotation)
  {
    var s := NoClosingQuery;
    var t := Term(Should, s[0..1], []);
    WordUpTo(s, 0, 1, Should);
    ScanNext(s, 0, Should, []);
    assert [] + [t] == [t];
    NoClosingAfterWord(s[0..1]);
  }

  /** After the word `\` of that query: the space, then the unpaired quotation mark. */
  lemma NoClosingAfterWord(w: seq<byte>)
    ensures Scan(NoClosingQuery, 2, Should, [Term(Should, w, [])]) == Failure(UnpairedQuotation)
  {
    var s := NoClosingQuery;
    NoClosingMark();
    ScanStops(s, 2, Should, [Term(Should, w, [])]);
  }

  /** The quotation mark of that query has no partner. */
  lemma NoClosingMark()
    ensures StepAt(NoClosingQuery, 2, Should) == Stop(UnpairedQuotation)
  {
    var s := NoClosingQuery;
    forall k | 3 <= k < |s| ensures s[k] != Quote {
    }
    assert Quote !in s[3..];
    UnpairedQuote(s, 2, Should);
  }

  /** `[` and `[]`: the subquery fails (parse_test.go:16, 21). */
  lemma LoneSubquery()
    ensures Parsed([LBracket]) == Failure(MalformedQuery)
    ensures Parsed([LBracket, RBracket]) == Failure(MalformedQuery)
  {
    BracketFails([LBracket], 0, Should, []);
    BracketFails([LBracket, RBracket], 0, Should, []);
  }

  /** `+[]` and `-[]`: a marker, then a subquery (parse_test.go:22-23). */
  lemma MarkerThenEmptySubquery()
    ensures Parsed([Plus, LBracket, RBracket]) == Failure(MalformedQuery)
    ensures Parsed([Minus, LBracket, RBracket]) == Failure(MalformedQuery)
  {
    var p, m := [Plus, LBracket, RBracket], [Minus, LBracket, RBracket];
    VerbStep(p, 0);
    ScanSkip(p, 0, Should, []);
    BracketFails(p, 1, Plus, []);
    VerbStep(m, 0);
    ScanSkip(m, 0, Should, []);
    BracketFails(m, 1, Minus, []);
  }

  /** `-[+]`: a marker, then a subquery (parse_test.go:24). */
  lemma MarkerThenSubquery()
    ensures Parsed([Minus, LBracket, Plus, RBracket]) == Failure(MalformedQuery)
  {
    var s := [Minus, LBracket, Plus, RBracket];
    VerbStep(s, 0);
    ScanSkip(s, 0, Should, []);
    BracketFails(s, 1, Minus, []);
  }

  /** `+` and `-`: a lone marker adds no child (parse_test.go:17, 20). */
  lemma LoneMarker()
    ensures Parsed([Plus]) == Failure(MalformedQuery)
    ensures Parsed([Minus]) == Failure(MalformedQuery)
  {
    TrailingMarkerAddsNothing([Plus], 0, []);
    NoChildFails([Plus]);
    TrailingMarkerAddsNothing([Minus], 0, []);
    NoChildFails([Minus]);
  }

  /** `a b ` */
  const TwoWordQuery: seq<byte> := [0x61, Space, 0x62, Space]
  /** `+a b ` */
  const MarkedWordsQuery: seq<byte> := [Plus, 0x61, Space, 0x62, Space]
  /** `+"a" b ` */
  const MarkedPhraseQuery: seq<byte> := [Plus, Quote, 0x61, Quote, Space, 0x62, Space]
  /** `"x y"` */
  const PhraseQuery: seq<byte> := [Quote, 0x78, Space, 0x79, Quote]

  /** `a b `: two words, each followed by a space, become two Should leaves. */
  lemma TwoWords()
    ensures Parsed(TwoWordQuery) ==
      Success(Term(Should, [], [Term(Should, [0x61], []), Term(Should, [0x62], [])]))
  {
    var s := TwoWordQuery;
    var a, b := Term(Should, [0x61], []), Term(Should, [0x62], []);
    assert s[0..1] == [0x61] && s[2..3] == [0x62];
    WordUpTo(s, 0, 1, Should);
    ScanNext(s, 0, Should, []);
    WordUpTo(s, 2, 3, Should);
    ScanNext(s, 2, Should, [a]);
    assert [] + [a] == [a] && [a] + [b] == [a, b];
    ParsedManyLeaves(s, [a, b]);
  }

  /** `+a b `: a word does not reset the pending verb, so both words are Must. */
  lemma WordKeepsVerb()
    ensures Parsed(MarkedWordsQuery) ==
      Success(Term(Should, [], [Term(Must, [0x61], []), Term(Must, [0x62], [])]))
  {
    var s := MarkedWordsQuery;
    VerbStep(s, 0);
    ScanSkip(s, 0, Should, []);
    MarkedWords();
    ParsedManyLeaves(s, [Term(Must, [0x61], []), Term(Must, [0x62], [])]);
  }

  /** The two words after the marker of `+a b `. */
  lemma MarkedWords()
    ensures Scan(MarkedWordsQuery, 1, Must, []) ==
      Success([Term(Must, [0x61], []), Term(Must, [0x62], [])])
  {
    var s := MarkedWordsQuery;
    var a, b := Term(Must, [0x61], []), Term(Must, [0x62], []);
    assert s[1..2] == [0x61] && s[3..4] == [0x62];
    WordUpTo(s, 1, 2, Must);
    ScanNext(s, 1, Must, []);
    WordUpTo(s, 3, 4, Must);
    ScanNext(s, 3, Must, [a]);
    assert [] + [a] == [a] && [a] + [b] == [a, b];
  }

  /** `+"a" b `: a phrase does reset the verb, so the word after it is Should. */
  lemma PhraseResetsVerb()
    ensures Parsed(MarkedPhraseQuery) ==
      Success(Term(Should, [], [Term(Must, [0x61], []), Term(Should, [0x62], [])]))
  {
    var s := MarkedPhraseQuery;
    VerbStep(s, 0);
    ScanSkip(s, 0, Should, []);
    MarkedPhrase();
    ParsedManyLeaves(s, [Term(Must, [0x61], []), Term(Should, [0x62], [])]);
  }

  /** The phrase of `+"a" b ` takes the pending Must and resets it. */
  lemma MarkedPhrase()
    ensures Scan(MarkedPhraseQuery, 1, Must, []) ==
      Success([Term(Must, [0x61], []), Term(Should, [0x62], [])])
  {
    var s := MarkedPhraseQuery;
    var a := Term(Must, [0x61], []);
    assert s[2..3] == [0x61];
    PhraseStep(s, 1, 3, Must);
    ScanNext(s, 1, Must, []);
    assert [] + [a] == [a];
    WordAfterPhrase();
  }

  /** The Should word after the phrase of `+"a" b `. */
  lemma WordAfterPhrase()
    ensures Scan(MarkedPhraseQuery, 4, Should, [Term(Must, [0x61], [])]) ==
      Success([Term(Must, [0x61], []), Term(Should, [0x62], [])])
  {
    var s := MarkedPhraseQuery;
    var a, b := Term(Must, [0x61], []), Term(Should, [0x62], []);
    SpaceStep(s, 4, Should);
    ScanSkip(s, 4, Should, [a]);
    assert s[5..6] == [0x62];
    WordUpTo(s, 5, 6, Should);
    ScanNext(s, 5, Should, [a]);
    assert [a] + [b] == [a, b];
  }

  /** `"x y"`: a single phrase is collapsed into a leaf root. */
  lemma SinglePhrase()
    ensures Parsed(PhraseQuery) == Success(Term(Should, [0x78, Space, 0x79], []))
  {
    var s := PhraseQuery;
    var t := Term(Should, [0x78, Space, 0x79], []);
    assert s[1..4] == [0x78, Space, 0x79];
    PhraseStep(s, 0, 4, Should);
    ScanNext(s, 0, Should, []);
    assert [] + [t] == [t];
    ParsedOneLeaf(s, t);
  }

  /** `+a -b`: after a marked word the verb is still pending, so a second marker fails. */
  lemma MarkerAfterMarkedWord()
    ensures Parsed([Plus, 0x61, Space, Minus, 0x62]) == Failure(UnexpectedVerbMarker)
  {
    var s := [Plus, 0x61, Space, Minus, 0x62];
    VerbStep(s, 0);
    ScanSkip(s, 0, Should, []);
    WordUpTo(s, 1, 2, Must);
    ScanNext(s, 1, Must, []);
    RepeatedVerbFails(s, 3, Must);
    ScanStops(s, 3, Must, [Term(Must, s[1..2], [])]);
  }

  /** `]`: a closing bracket starts a word and is itself the reserved rune that ends it. */
  lemma LoneClosingBracket()
    ensures Parsed([RBracket]) == Failure(UnexpectedReservedRune)
  {
    WordWithoutSpaceFails([RBracket], 0, Should);
    ScanStops([RBracket], 0, Should, []);
  }

  /** `"" a `: an empty phrase followed by more text is accepted, so a valid root can
      hold an invalid leaf: the validity check looks at the root only. */
  lemma EmptyPhraseThenWord()
    ensures Parsed([Quote, Quote, Space, 0x61, Space]) ==
      Success(Term(Should, [], [Term(Should, [], []), Term(Should, [0x61], [])]))
    ensures !ValidTerm(Term(Should, [], []))
  {
    var s := [Quote, Quote, Space, 0x61, Space];
    var a, b := Term(Should, [], []), Term(Should, [0x61], []);
    assert s[1..1] == [] && s[3..4] == [0x61];
    PhraseStep(s, 0, 1, Should);
    ScanNext(s, 0, Should, []);
    SpaceStep(s, 2, Should);
    ScanSkip(s, 2, Should, [a]);
    WordUpTo(s, 3, 4, Should);
    ScanNext(s, 3, Should, [a]);
    assert [] + [a] == [a] && [a] + [b] == [a, b];
    ParsedManyLeaves(s, [a, b]);
  }

  /** `w`: a word that ends the query is not followed by a space. */
  lemma TrailingWord()
    ensures Parsed([0x77]) == Failure(UnexpectedReservedRune)
  {
    WordWithoutSpaceFails([0x77], 0, Should);
    ScanStops([0x77], 0, Should, []);
  }

  /** `""`: a phrase needs at least two bytes after its opening mark. */
  lemma EmptyPhraseAlone()
    ensures Parsed([Quote, Quote]) == Failure(UnpairedQuotation)
  {
    UnpairedQuote([Quote, Quote], 0, Should);
    ScanStops([Quote, Quote], 0, Should, []);
  }

  // The package's own examples (doc.go and parse.go:13-15), which the code rejects.

  /** `"data science" +[math -hype]` (doc.go:19) */
  const DataScienceQuery: seq<byte> :=
    [Quote, 0x64, 0x61, 0x74, 0x61, Space, 0x73, 0x63, 0x69, 0x65, 0x6e, 0x63, 0x65, Quote,
     Space, Plus, LBracket, 0x6d, 0x61, 0x74, 0x68, Space, Minus, 0x68, 0x79, 0x70, 0x65,
     RBracket]
  /** `"machine learning" +[math data -hype]` (doc.go:56) */
  const MachineLearningQuery: seq<byte> :=
    [Quote, 0x6d, 0x61, 0x63, 0x68, 0x69, 0x6e, 0x65, Space, 0x6c, 0x65, 0x61, 0x72, 0x6e,
     0x69, 0x6e, 0x67, Quote, Space, Plus, LBracket, 0x6d, 0x61, 0x74, 0x68, Space, 0x64,
     0x61, 0x74, 0x61, Space, Minus, 0x68, 0x79, 0x70, 0x65, RBracket]
  /** `+programming +"c++"` (doc.go:36) */
  const ProgrammingQuery: seq<byte> :=
    [Plus, 0x70, 0x72, 0x6f, 0x67, 0x72, 0x61, 0x6d, 0x6d, 0x69, 0x6e, 0x67, Space, Plus,
     Quote, 0x63, Plus, Plus, Quote]
  /** `x y z` (doc.go:48) */
  const DisjunctionQuery: seq<byte> := [0x78, Space, 0x79, Space, 0x7a]
  /** `[[golang]]` (parse.go:13-15) */
  const NestedQuery: seq<byte> :=
    [LBracket, LBracket, 0x67, 0x6f, 0x6c, 0x61, 0x6e, 0x67, RBracket, RBracket]

  /** A phrase closed at `j`, a space, a marker and then a subquery: the phrase is
      accepted and the subquery fails. */
  lemma PhraseThenMarkedSubquery(s: seq<byte>, j: nat)
    requires 1 < j && j + 3 < |s| && s[0] == Quote && s[j] == Quote && Quote !in s[1..j]
    requires s[j + 1] == Space && (s[j + 2] == Plus || s[j + 2] == Minus)
    requires s[j + 3] == LBracket
    ensures Parsed(s) == Failure(MalformedQuery)
  {
    var t := Term(Should, s[1..j], []);
    PhraseStep(s, 0, j, Should);
    ScanNext(s, 0, Should, []);
    assert [] + [t] == [t];
    SpaceStep(s, j + 1, Should);
    ScanSkip(s, j + 1, Should, [t]);
    VerbStep(s, j + 2);
    ScanSkip(s, j + 2, Should, [t]);
    BracketFails(s, j + 3, s[j + 2], [t]);
  }

  /** `"data science" +[math -hype]` is rejected at its subquery (doc.go:19). */
  lemma DataScienceFails()
    ensures Parsed(DataScienceQuery) == Failure(MalformedQuery)
  {
    var s := DataScienceQuery;
    forall k | 1 <= k < 13 ensures s[k] != Quote {
    }
    assert Quote !in s[1..13];
    PhraseThenMarkedSubquery(s, 13);
  }

  /** `"machine learning" +[math data -hype]` is rejected at its subquery (doc.go:56). */
  lemma MachineLearningFails()
    ensures Parsed(MachineLearningQuery) == Failure(MalformedQuery)
  {
    var s := MachineLearningQuery;
    forall k | 1 <= k < 17 ensures s[k] != Quote {
    }
    assert Quote !in s[1..17];
    PhraseThenMarkedSubquery(s, 17);
  }

  /** `+programming +"c++"` is rejected: after the word the `+` is still pending, so the
      second `+` fails before the phrase is reached (doc.go:36). */
  lemma ProgrammingFails()
    ensures Parsed(ProgrammingQuery) == Failure(UnexpectedVerbMarker)
  {
    var s := ProgrammingQuery;
    var t := Term(Must, s[1..12], []);
    VerbStep(s, 0);
    ScanSkip(s, 0, Should, []);
    ProgrammingWord();
    ScanNext(s, 1, Must, []);
    assert [] + [t] == [t];
    RepeatedVerbFails(s, 13, Must);
    ScanStops(s, 13, Must, [t]);
  }

  /** The word `programming` of that query, ended by a space, under the pending `+`. */
  lemma ProgrammingWord()
    ensures StepAt(ProgrammingQuery, 1, Must) ==
      Next(13, Must, [Term(Must, ProgrammingQuery[1..12], [])])
  {
    var s := ProgrammingQuery;
    forall k | 1 <= k < 12 ensures !IsRuneReserved(s[k]) {
    }
    WordUpTo(s, 1, 12, Must);
  }

  /** `c++` is rejected, as doc.go:39-40 says: the word `c` ends at a `+`, not a space. */
  lemma MarkerInsideWord()
    ensures Parsed([0x63, Plus, Plus]) == Failure(UnexpectedReservedRune)
  {
    var s := [0x63, Plus, Plus];
    FirstReservedIs(s[0..], 1);
    WordWithoutSpaceFails(s, 0, Should);
    ScanStops(s, 0, Should, []);
  }

  /** `x y z` is rejected: its last word has no space after it (doc.go:48). */
  lemma DisjunctionFails()
    ensures Parsed(DisjunctionQuery) == Failure(UnexpectedReservedRune)
  {
    var s := DisjunctionQuery;
    var a, b := Term(Should, s[0..1], []), Term(Should, s[2..3], []);
    WordUpTo(s, 0, 1, Should);
    ScanNext(s, 0, Should, []);
    WordUpTo(s, 2, 3, Should);
    ScanNext(s, 2, Should, [a]);
    assert [] + [a] == [a] && [a] + [b] == [a, b];
    assert s[4..] == [0x7a];
    WordWithoutSpaceFails(s, 4, Should);
    ScanStops(s, 4, Should, [a, b]);
  }

  /** `[[golang]]` is rejected, so the collapse to `golang` that parse.go:13-15 describes
      never happens. */
  lemma NestedSubqueryFails()
    ensures Parsed(NestedQuery) == Failure(MalformedQuery)
  {
    BracketFails(NestedQuery, 0, Should, []);
  }
}
