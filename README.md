# gossip query parser, modelled in Dafny

This project models the search-query recognizer of the Go package `gossip` and the
small tree it builds. A query such as `+golang "generic types" ` is scanned once, left
to right:
- A quoted phrase becomes a leaf.
- `+` and `-` set a pending modal verb (Must, MustNot).
- `[` starts a subquery.
- Spaces are skipped.
- Any other byte starts a bare word, which runs to the next reserved rune; that rune
  must be a space.

Every leaf is appended to one root node. A root whose only child is a leaf is replaced
by that leaf, and an invalid root is rejected.

The modules follow the Go files:

- `Reserved` (reserved.go).
  - The verb codes and special runes.
  - The reserved-rune table.
  - `lookBehindCheck`, characterised against the reserved table.
  - `nextReserved` and `indexNonPhraseRune`, as loops proved against recursive reference
    functions.
- `Verbs` (verb.go): the two verb name tables and their lookups.
- `Nodes` (node.go).
  - `Node` is a class with the parent link, child list, verb, phrase and source text.
  - `AddChild`, `NewChild` and `NewSibling` update the links in place.
  - Go's nil receivers are explicit `Node?` parameters.
  - `Depth` follows parent links and is measured by a ghost ancestor chain.
- `Trees` (tree.go): `Tree` is a class. `Root`, `String`, `Leaves` and `Height` take a
  `Tree?`; `CollectLeaves` is the recursive collector behind `Leaves`.
- `Errors` (error.go and parse.go:60,82): the error kinds and a `Result` type.
- `Parser` (parse.go).
  - `Parse` is the imperative scan loop over the bytes. It builds the root node in
    place, and the collapse step re-parents and re-sources that node.
  - `StepAt`, `Scan` and `Parsed` say on values what the loop computes, one dispatch at
    a time.
  - `Parse` is proved to fail exactly when `Parsed` does, with the same error. On
    success its tree mirrors the value `Parsed` returns.
- `Cases`: concrete queries. These are the error cases of parse_test.go, except the
  empty query, which is `Parser.EmptyQueryFails`, plus queries that show how verbs,
  words and phrases combine.

The query is modelled as the bytes of its UTF-8 encoding. Every reserved rune is ASCII,
and UTF-8 never puts an ASCII byte inside a multi-byte sequence. So byte-level scanning
finds the same indices as Go's rune decoding, and a non-ASCII rune lands in the bare-word
case in both.

The model keeps the code's sharp edges:
- Every subquery fails. `indexNonPhraseRune(s[i:], '[')` finds the `[` itself at offset
  0, so the sub-parse is of the empty string, which is rejected.
- A bare word must be followed by a space.
- A word does not reset the pending verb, while a phrase does.
- An empty phrase `""` is kept as a leaf. When the query has another child, the root is
  valid and the invalid empty leaf stays under it (`Cases.EmptyPhraseThenWord`).

Where the package documentation and the code disagree, the model follows the code:
- `"data science" +[math -hype]` (doc.go:19) and `"machine learning" +[math data -hype]`
  (doc.go:56) are documented as valid queries. Both fail at the subquery with the
  malformed-query error (`Cases.DataScienceFails`, `Cases.MachineLearningFails`).
- `[[golang]]` (parse.go:13-15) is said to collapse into `golang`. It fails at its first
  `[`, because subqueries always fail (`Cases.NestedSubqueryFails`).
- `+programming +"c++"` (doc.go:36) is documented as a valid query. After the word the
  `+` is still pending, so the second `+` fails with the "unexpected + or -" error
  (`Cases.ProgrammingFails`).
- `x y z` (doc.go:48) is documented as a disjunction of three terms. The last word has no
  space after it, so the query fails with the unexpected-reserved-rune error
  (`Cases.DisjunctionFails`).
- doc.go:44-45 gives `|` as the marker of Should. The code has no such marker.

Two declared error kinds are never produced:
- error.go:8 declares `ErrorVerbSequence`, but nothing returns it. A second marker, as in
  `++word` or `+-word`, fails with the "unexpected + or -" error of parse.go:60
  (`UnexpectedVerbMarker`).
- parse.go:70-72 returns `ErrorUnpairedBracket` (error.go:7) only when no `[` is found
  from the `[` already seen, which cannot happen. So `[` alone fails with the
  malformed-query error of the empty sub-parse, and `]` alone with the
  unexpected-reserved-rune error.

## Model

| member | source | states |
|---|---|---|
| Reserved.ReservedTable | reserved.go:29-41 | a rune is reserved exactly when it is space, `"`, `+`, `-`, `[` or `]`; `@`, `(`, `)` and `\` are declared but not reserved |
| Reserved.IsRuneReserved | reserved.go:38-41 | membership in the lookup table; every reserved rune is below 0x80 |
| Reserved.VerbCodesDistinct | reserved.go:6-11 | Should 0, Must 43 (`+`), MustNot 45 (`-`) and VerbError -2 are pairwise distinct |
| Reserved.FirstReserved | reserved.go:46-53 | -1 exactly when no byte is reserved; otherwise the index of a reserved byte with none before it |
| Reserved.FirstReservedIs | reserved.go:46-51 | a reserved byte with no reserved byte before it is the one found |
| Reserved.NextReserved | reserved.go:46-53 | the loop returns the first reserved rune and its index, or (RuneError, -1) exactly when there is none |
| Reserved.LookBehindCheck | reserved.go:60-79 | after empty text any control rune is legal; otherwise it is legal exactly when the previous rune is reserved, is not `]` and differs from it |
| Reserved.FirstOutsidePhrase | reserved.go:86-100 | the least index from `from` on holding `r` with an even number of quotation marks before it, or -1 exactly when there is none |
| Reserved.IndexNonPhraseRune | reserved.go:86-100 | the toggling-flag loop returns the least index of `r` outside every phrase literal, or -1 exactly when there is none |
| Reserved.IndexNonPhraseOfQuote | reserved.go:88-96 | with `r` the quotation mark, the first quotation mark is returned, since the match is tested before the flag toggles |
| Reserved.QuoteFreePrefix | reserved.go:94-96 | a prefix without quotation marks leaves the flag cleared |
| Reserved.IndexNonPhraseAtStart | reserved.go:88-92 | a rune at index 0 is found at index 0 |
| Verbs.VerbString | verb.go:19-30 | Must is `+`, MustNot is `-`, Should is empty, VerbError is `_error_`, and any other code is empty |
| Verbs.VerbStringHuman | verb.go:12-37 | `must`, `must not`, `should` and `_error_` for the four codes, and empty for any other |
| Verbs.VerbUnknownIsVerbError | verb.go:4-6 | VerbUnknown repeats the previous constant, so it is VerbError, -2 |
| Verbs.MarkerIsVerbCode | verb.go:8-21 | for Must and MustNot the marker is the one-character string whose code is the verb |
| Verbs.EmptyMarker | verb.go:19-30 | the marker is empty exactly for Should and for unknown codes |
| Verbs.HumanNamesDistinct | verb.go:12-17 | human names are empty exactly for unknown codes and tell the known verbs apart |
| Verbs.MarkersDistinct | verb.go:19-24 | markers tell the known verbs apart |
| Nodes.Node.constructor | node.go:7-13 | a node literal: the given verb, phrase and source, no parent and no children |
| Nodes.Parent | node.go:79-84 | nil for nil, the parent link otherwise |
| Nodes.Children | node.go:87-92 | no children for nil, the child list otherwise |
| Nodes.ValidityCases | node.go:25-44 | nil is an invalid leaf; a childless node is valid exactly when it has a phrase; a node with children is valid whatever its phrase |
| Nodes.IsLeaf | node.go:42-44 | a node is a leaf exactly when it is nil or has no children |
| Nodes.IsValid | node.go:25-33 | a node is valid exactly when it is present and has children or a phrase |
| Nodes.Verb | node.go:96-101 | the stored verb of a valid node, VerbError for an invalid one |
| Nodes.VerbErrorIffInvalid | node.go:96-101 | for a node whose stored verb is not VerbError, Verb is VerbError exactly when the node is invalid, and the stored verb when it is valid |
| Nodes.AddChild | node.go:47-57 | a nil child changes nothing; otherwise the child is appended to the children, its parent is the node, and nothing else changes; a nil receiver links the child below a fresh Should node with no phrase and no source |
| Nodes.NewChild | node.go:60-67 | a fresh Should leaf with no phrase and no source, now the last child of the node, whose other fields are unchanged; a nil receiver gets a fresh Should parent with the leaf as its only child |
| Nodes.NewSibling | node.go:71-76 | fails exactly for nil or a root; otherwise the parent gains exactly one fresh Should leaf with no phrase and no source as its last child, and its own parent, verb, phrase and source are unchanged |
| Nodes.AncestryOfParent | node.go:16-21 | the parent's ancestor chain is the rest of the child's |
| Nodes.DepthFrom | node.go:16-21 | the walk up the parent links returns `k` plus the number of links |
| Nodes.Depth | node.go:36-38 | the number of parent links from the node to its root |
| Nodes.AncestryUnique | node.go:16-21 | the ancestor chain is unique, so Depth does not depend on the ghost argument |
| Nodes.DepthOfRoot | node.go:16-19 | a root has depth 0 |
| Nodes.DepthOfChild | node.go:16-21 | a child is one deeper than its parent |
| Trees.Tree.constructor | tree.go:4-7 | a tree literal holding the root and the source |
| Trees.Root | tree.go:9-14 | nil for a nil tree, the root otherwise |
| Trees.String | tree.go:17-22 | the empty string for a nil tree, otherwise the stored source text, not a rendering of the nodes |
| Trees.CollectLeaves | tree.go:25-39 | for an all-leaf input, `current` followed by the input in order, and `current` itself for no input |
| Trees.Leaves | tree.go:41-43 | the children of the root in order; none for a nil tree or a childless root |
| Trees.Height | tree.go:45-53 | at least 0 and at least every leaf's depth, and either 0 or the depth of some leaf |
| Trees.HeightOfFlatTree | tree.go:45-53 | a tree whose leaves hang directly below the root has height 1, or 0 without leaves |
| Parser.IndexByte | parse.go:36 | -1 exactly when the byte is absent; otherwise an index holding it with no earlier occurrence |
| Parser.IndexByteIs | parse.go:36 | the first occurrence is the index found |
| Parser.ValidTerm | node.go:25-33 | IsValid on a term: valid exactly when it has children or a phrase |
| Parser.TermVerb | node.go:96-101 | Verb on a term: the verb of a valid term, VerbError for an invalid one |
| Parser.Scan | parse.go:23-109 | the children at the end of the loop from index `i`, or the first error; a successful scan keeps the children it started with as a prefix |
| Parser.Parsed | parse.go:16-128 | Parse on values: a successful result is valid; a failing scan's error is the result; with a successful scan, the only error left is the malformed-query error of the final validity check |
| Parser.EmptyQueryFails | parse.go:113-121 | the empty query fails with the malformed-query error (parse_test.go:13) |
| Parser.StepAt | parse.go:23-108 | every dispatch that goes on advances the index strictly and stays within the query |
| Parser.UnpairedQuote | parse.go:27-40 | a quotation mark with at most one byte after it, or with no closing mark, gives the unpaired-quotation error |
| Parser.PhraseStep | parse.go:36-55 | the phrase is exactly the bytes between the two marks, its leaf takes the pending verb, and the verb resets to Should |
| Parser.VerbStep | parse.go:57-63 | a marker while no verb is pending becomes the pending verb and adds nothing |
| Parser.RepeatedVerbFails | parse.go:57-61 | a marker while a verb is pending fails at once |
| Parser.SubqueryFails | parse.go:65-77 | the subquery search finds index 0, and the dispatch fails with the malformed-query error of the empty sub-parse |
| Parser.SpaceStep | parse.go:90-91 | a space is skipped |
| Parser.WordStep | parse.go:93-107 | a word ended by a space becomes a leaf with the pending verb, which stays pending |
| Parser.WordUpTo | parse.go:93-107 | the same step, stated by the space that ends the word |
| Parser.WordWithoutSpaceFails | parse.go:93-104 | a word running to the end, or to a reserved rune other than a space, gives the unexpected-reserved-rune error |
| Parser.StepLeaves | parse.go:23-108 | a dispatch that goes on adds at most one leaf, with verb Should, Must or MustNot; none fails with the verb-combination error |
| Parser.ScanStops | parse.go:23-108 | a dispatch that stops makes the scan fail with its error |
| Parser.ScanNext | parse.go:23-108 | a dispatch that goes on hands over to the next one with its leaves appended |
| Parser.ScanSkip | parse.go:23-108 | a dispatch that appends nothing keeps the children found so far |
| Parser.ScanLeaves | parse.go:23-109 | a successful scan only appends leaves with verbs Should, Must or MustNot, and no scan fails with the verb-combination error |
| Parser.ParsedShape | parse.go:113-128 | a successful parse is either a leaf with a phrase and a leaf verb, or a Should root without phrase over at least two leaves with leaf verbs (Should, Must, MustNot), possibly without phrase; the result is valid |
| Parser.NeverVerbCombination | parse.go:79-83 | no query fails with the verb-combination error |
| Parser.NoChildFails | parse.go:113-121 | a query that adds no child fails with the malformed-query error |
| Parser.ParsedManyLeaves | parse.go:113-128 | a root with several children is kept as a Should root without phrase |
| Parser.ParsedOneLeaf | parse.go:113-121 | a single leaf child replaces the root, and is rejected when it has no phrase |
| Parser.SpacesAddNothing | parse.go:90-91 | spaces append nothing |
| Parser.OnlySpacesFail | parse.go:113-121 | the empty query and a query of spaces fail with the malformed-query error |
| Parser.TrailingMarkerAddsNothing | parse.go:57-63 | a marker followed only by spaces appends nothing |
| Parser.BracketFails | parse.go:65-77 | any query whose scan reaches `[` fails with the malformed-query error |
| Parser.MirrorsValidity | node.go:25-33 | a node and the term it mirrors agree on validity and on their verb |
| Parser.AppendLeaf | parse.go:47-51 | the root gains one leaf with the given verb and phrase, and its own fields are unchanged |
| Parser.Dispatch | parse.go:23-108 | one pass of the loop body does what StepAt says and appends its leaves to the root |
| Parser.Parse | parse.go:16-129 | fails exactly when Parsed does, with the same error; on success a fresh tree and root, the root parentless, valid, with source `s`, mirroring Parsed's result |
| Cases.MarkerThenQuote | parse_test.go:15 | `+"` gives the unpaired-quotation error |
| Cases.TwoMarkers | parse_test.go:18 | `+-word` gives the unexpected-marker error |
| Cases.TwoMarkersThenSubquery | parse_test.go:19 | `++[word]` gives the unexpected-marker error before the subquery is reached |
| Cases.NoClosingQuote | parse_test.go:14 | `\ "no closing quotation` gives the unpaired-quotation error after accepting the word `\` |
| Cases.NoClosingAfterWord | parse_test.go:14 | after that word the scan fails at the quotation mark |
| Cases.NoClosingMark | parse.go:36-40 | the quotation mark of that query has no partner |
| Cases.LoneSubquery | parse_test.go:16-21 | `[` and `[]` give the malformed-query error |
| Cases.MarkerThenEmptySubquery | parse_test.go:22-23 | `+[]` and `-[]` give the malformed-query error |
| Cases.MarkerThenSubquery | parse_test.go:24 | `-[+]` gives the malformed-query error |
| Cases.LoneMarker | parse_test.go:17-20 | `+` and `-` give the malformed-query error |
| Cases.TwoWords | parse.go:93-107 | `a b ` gives a root over two Should leaves |
| Cases.WordKeepsVerb | parse.go:105-107 | `+a b ` gives two Must leaves |
| Cases.MarkedWords | parse.go:105-107 | both words after `+` take Must |
| Cases.PhraseResetsVerb | parse.go:47-54 | `+"a" b ` gives a Must phrase and a Should word |
| Cases.MarkedPhrase | parse.go:47-54 | the phrase takes the pending Must and resets it |
| Cases.WordAfterPhrase | parse.go:90-107 | the word after the phrase is Should |
| Cases.SinglePhrase | parse.go:113-117 | `"x y"` collapses into a single leaf root |
| Cases.MarkerAfterMarkedWord | parse.go:57-61 | `+a -b` gives the unexpected-marker error |
| Cases.LoneClosingBracket | parse.go:93-104 | `]` gives the unexpected-reserved-rune error |
| Cases.EmptyPhraseThenWord | parse.go:27-55 | `"" a ` is accepted: a valid root over an invalid empty-phrase leaf and a word |
| Cases.PhraseThenMarkedSubquery | parse.go:27-77 | a phrase, a space, a marker and then `[` are accepted up to the `[`, where the query fails with the malformed-query error |
| Cases.DataScienceFails | doc.go:19 | `"data science" +[math -hype]` gives the malformed-query error |
| Cases.MachineLearningFails | doc.go:56 | `"machine learning" +[math data -hype]` gives the malformed-query error |
| Cases.ProgrammingFails | doc.go:36 | `+programming +"c++"` gives the unexpected-marker error |
| Cases.ProgrammingWord | parse.go:93-107 | the word `programming`, ended by a space, becomes a Must leaf and leaves Must pending |
| Cases.MarkerInsideWord | doc.go:38-40 | `c++` gives the unexpected-reserved-rune error, the parse error that the documentation predicts |
| Cases.DisjunctionFails | doc.go:46-49 | `x y z` gives the unexpected-reserved-rune error |
| Cases.NestedSubqueryFails | parse.go:13-15 | `[[golang]]` gives the malformed-query error |
| Cases.TrailingWord | parse.go:96-104 | a word that ends the query gives the unexpected-reserved-rune error |
| Cases.EmptyPhraseAlone | parse.go:30-32 | `""` gives the unpaired-quotation error |

## Left out

- Logging: the `log.Println` calls of parse.go:44-45 are output with no effect on the result.
- pretty.go and json.go: they only declare serialisation structs. The functions their tests call are not part of this model.
- doc.go: the `|` marker it documents is not implemented by the code.
- The functions that only the tests name (`IsTripleValid`, `IsPairValid`, `checkReserved`, `NextReserved`, `Node.Equals`, `SetRoot`, `NewTree`, `NewTreeFromRoot`, the `Verb` type): the code does not define them.
- Tests that contradict the code:
  - tree_test.go:91-124 expects a rendered string, but `String` returns the source.
  - node_test.go:17-28 expects an internal node with a phrase to be invalid.
  - tree_test.go:77 expects a leaf root to list itself.
- The constants `at`, `lparen`, `rparen` and `escape` are kept in `Reserved`, but the code does not use them. The commented-out `RemoveEscapes` (reserved.go:102-118) is not code.
- The error message texts of error.go: errors are kinds, not strings.
- The duplicate verb constants of verb.go:4-10: `Verbs` uses the values of reserved.go:6-11, which agree with them.
- UTF-8 decoding: queries are bytes, which finds the same indices for the ASCII reserved runes.
- Reserved.LookBehindCheck: covers ASCII `current` runes only, compared with the last byte rather than the last decoded rune.
- Reserved.IndexNonPhraseRune: covers ASCII target runes only. The parser only asks for `[`.
- Nodes.Depth: requires the finite ancestor chain that exists whenever Go's walk ends. On a cycle of parent links the Go walk does not end, and the model has no such input.
- Trees.CollectLeaves: requires every element to be a leaf. On any other input Go's recursion passes the same non-leaves again and never ends.
- Trees.Leaves: for the same reason, it is modelled for trees whose root has only leaf children. Parse only builds such trees.
- Trees.Height: calls Leaves, so the same restriction applies.
- Parser.Dispatch: the subquery branch after a successful sub-parse (parse.go:79-88) is reached by no input. The method proves that and stops there. `StepAt` still states on values what that branch would do.
- Parser.Parse: the loop body is the separate method `Dispatch`. The branches and the order of their checks are those of parse.go:25-107.
