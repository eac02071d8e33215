/** The query parser (parse.go).

    `Parse` is the scan loop of parse.go:16-129 over the bytes of the query. `Scan` and
    `Parsed` state, on values, what the loop computes: `Scan` follows the loop one
    dispatch at a time, carrying the byte index, the pending verb and the children
    appended to the root so far, and `Parsed` adds the collapse step and the final
    validity check. `Term` is the value form of a node. */
module Parser {
  import opened Reserved
  import opened Errors
  import opened Nodes
  import opened Trees

  /** A node as a value: its verb, its phrase and its children. */
  datatype Term = Term(verb: int, phrase: seq<byte>, children: seq<Term>)

  /** IsValid (node.go:25-33) on a term. */
  predicate ValidTerm(t: Term)
    ensures ValidTerm(t) <==> t.children != [] || t.phrase != []
  {
    !(t.children == [] && t.phrase == [])
  }

  /** Verb (node.go:96-101) on a term. */
  function TermVerb(t: Term): (v: int)
    ensures ValidTerm(t) ==> v == t.verb
    ensures !ValidTerm(t) ==> v == VerbError
  {
    if ValidTerm(t) then t.verb else VerbError
  }

  /** strings.Index(s, `"`) for a one-byte pattern: the index of the first `b` in `s`, or -1. */
  function IndexByte(s: seq<byte>, b: int): (k: int)
    ensures -1 <= k < |s|
    ensures k == -1 <==> b !in s
    ensures k >= 0 ==> s[k] == b && b !in s[..k]
  {
    if s == [] then -1
    else if s[0] == b then 0
    else
      var k := IndexByte(s[1..], b);
      assert s == [s[0]] + s[1..];
      if k == -1 then -1
      else
        assert s[..k + 1] == [s[0]] + s[1..][..k];
        k + 1
  }

  /** The first `b` of `s` is the only index with `b` and no `b` before it. */
  lemma IndexByteIs(s: seq<byte>, b: int, k: nat)
    requires k < |s| && s[k] == b && b !in s[..k]
    ensures IndexByte(s, b) == k
  {
    assert s[k] in s;
  }

  /** What one dispatch of the loop does: continue at byte index `next` with pending verb
      `verb` after appending `leaves` to the root, or stop with `error`. */
  datatype Step = Next(next: nat, verb: int, leaves: seq<Term>) | Stop(error: ParseError)

  /** One dispatch of the loop of parse.go:23-109 at byte index `i`, with pending verb
      `verb`. Every dispatch that continues consumes at least one byte. */
  function StepAt(s: seq<byte>, i: nat, verb: int): (st: Step)
    requires i < |s|
    ensures st.Next? ==> i < st.next <= |s|
    decreases |s|, 0
  {
    if s[i] == Quote then
      // A phrase runs to the next quotation mark (parse.go:27-55).
      var start := i + 1;
      if start >= |s| - 1 then Stop(UnpairedQuotation)
      else
        var j := IndexByte(s[start..], Quote);
        if j == -1 then Stop(UnpairedQuotation)
        else Next(start + j + 1, Should, [Term(verb, s[start..start + j], [])])
    else if s[i] == Plus || s[i] == Minus then
      // A verb marker (parse.go:57-63).
      if verb != Should then Stop(UnexpectedVerbMarker)
      else Next(i + 1, s[i], [])
    else if s[i] == LBracket then
      // A subquery (parse.go:65-88).
      var j := IndexNonPhrase(s[i..], LBracket);
      if j == -1 then Stop(UnpairedBracket)
      else
        match Parsed(s[i..i + j])
        case Failure(e) => Stop(e)
        case Success(sub) =>
          if TermVerb(sub) != Should && TermVerb(sub) != verb then Stop(VerbCombination)
          else Next(i + j + 1, Should, [sub.(verb := verb)])
    else if s[i] == Space then
      Next(i + 1, verb, [])
    else
      // A bare word runs to the next reserved rune, which must be a space (parse.go:93-107).
      var k := FirstReserved(s[i..]);
      var j := if k == -1 then |s| else k + i;
      var r := if k == -1 then RuneError else s[j];
      if r != Space then Stop(UnexpectedReservedRune)
      else Next(j + 1, verb, [Term(verb, s[i..j], [])])
  }

  /** The loop of parse.go:23-109 from byte index `i`, with pending verb `verb` and the
      children `acc` already appended to the root: the children of the root at the end
      of the input, or the first error. */
  function Scan(s: seq<byte>, i: nat, verb: int, acc: seq<Term>): (r: Result<seq<Term>, ParseError>)
    requires i <= |s|
    ensures r.Success? ==> |acc| <= |r.value| && r.value[..|acc|] == acc
    decreases |s|, 1, |s| - i
  {
    if i == |s| then Success(acc)
    else
      match StepAt(s, i, verb)
      case Stop(e) => Failure(e)
      case Next(next, v, leaves) =>
        var r := Scan(s, next, v, acc + leaves);
        assert r.Success? ==> r.value[..|acc|] == (acc + leaves)[..|acc|];
        r
  }

  /** Parse (parse.go:16-129) on values: scan, collapse a root whose only child is a leaf
      into that leaf, and reject an invalid root. */
  function Parsed(s: seq<byte>): (r: Result<Term, ParseError>)
    ensures r.Success? ==> ValidTerm(r.value)
    ensures Scan(s, 0, Should, []).Failure? ==> r == Failure(Scan(s, 0, Should, []).error)
    ensures r.Failure? && Scan(s, 0, Should, []).Success? ==> r.error == MalformedQuery
    decreases |s|, 2
  {
    match Scan(s, 0, Should, [])
    case Failure(e) => Failure(e)
    case Success(children) =>
      var root :=
        if |children| == 1 && children[0].children == [] then children[0]
        else Term(Should, [], children);
      if !ValidTerm(root) then Failure(MalformedQuery) else Success(root)
  }

  /** Node `n` is the node form of `t`, whose children are all leaves: same verb and
      phrase, and one leaf child per child of `t`, in order, each pointing back at `n`. */
  ghost predicate Mirrors(n: Node, t: Term)
    reads n, n.children
  {
    n.verb == t.verb && n.phrase == t.phrase && MirrorsChildren(n, t.children)
  }

  /** The children of `n` are leaves pointing back at `n`, one per leaf term of `kids`,
      with the same verbs and phrases, in order. */
  ghost predicate MirrorsChildren(n: Node, kids: seq<Term>)
    reads n, n.children
  {
    && |n.children| == |kids|
    && forall k :: 0 <= k < |kids| ==>
         && n.children[k].parent == n
         && n.children[k].children == [] && kids[k].children == []
         && n.children[k].verb == kids[k].verb
         && n.children[k].phrase == kids[k].phrase
  }

  /** The empty query fails the final validity check: its root is a leaf without phrase. */
  lemma EmptyQueryFails()
    ensures Parsed([]) == Failure(MalformedQuery)
  {
  }

  // One dispatch of the scan loop, case by case.

  /** A quotation mark with at most one byte after it, or with no closing mark, is
      unpaired (parse.go:27-40). */
  lemma UnpairedQuote(s: seq<byte>, i: nat, verb: int)
    requires i < |s| && s[i] == Quote
    requires i + 1 >= |s| - 1 || Quote !in s[i + 1..]
    ensures StepAt(s, i, verb) == Stop(UnpairedQuotation)
  {
  }

  /** A phrase: for the next quotation mark at `j`, the phrase is exactly the bytes
      strictly between the two marks, taken without interpretation; the pending verb goes
      to the new leaf and is reset to Should (parse.go:36-55). */
  lemma PhraseStep(s: seq<byte>, i: nat, j: nat, verb: int)
    requires i < j < |s| && s[i] == Quote && s[j] == Quote && i + 1 < |s| - 1
    requires Quote !in s[i + 1..j]
    ensures StepAt(s, i, verb) == Next(j + 1, Should, [Term(verb, s[i + 1..j], [])])
  {
    var rest := s[i + 1..];
    assert rest[..j - (i + 1)] == s[i + 1..j];
    IndexByteIs(rest, Quote, j - (i + 1));
  }

  /** A verb marker while no verb is pending becomes the pending verb (parse.go:57-63). */
  lemma VerbStep(s: seq<byte>, i: nat)
    requires i < |s| && (s[i] == Plus || s[i] == Minus)
    ensures StepAt(s, i, Should) == Next(i + 1, s[i], [])
  {
  }

  /** A verb marker while a verb is pending fails at once (parse.go:59-61). */
  lemma RepeatedVerbFails(s: seq<byte>, i: nat, verb: int)
    requires i < |s| && (s[i] == Plus || s[i] == Minus) && verb != Should
    ensures StepAt(s, i, verb) == Stop(UnexpectedVerbMarker)
  {
  }

  /** Reaching `[` always fails: the subquery searched for is the `[` itself, at index 0,
      so the sub-parse is of the empty string (parse.go:69-77). */
  lemma SubqueryFails(s: seq<byte>, i: nat, verb: int)
    requires i < |s| && s[i] == LBracket
    ensures IndexNonPhrase(s[i..], LBracket) == 0
    ensures StepAt(s, i, verb) == Stop(MalformedQuery)
  {
    IndexNonPhraseAtStart(s[i..], LBracket);
    assert s[i..i] == [];
    EmptyQueryFails();
  }

  /** A space is skipped (parse.go:90-91). */
  lemma SpaceStep(s: seq<byte>, i: nat, verb: int)
    requires i < |s| && s[i] == Space
    ensures StepAt(s, i, verb) == Next(i + 1, verb, [])
  {
  }

  /** The bytes the loop takes as the start of a bare word (parse.go:93). */
  predicate StartsWord(b: int) {
    b != Quote && b != Plus && b != Minus && b != LBracket && b != Space
  }

  /** A bare word followed by a space becomes a leaf with the pending verb, and the verb
      stays pending (parse.go:95-107). */
  lemma WordStep(s: seq<byte>, i: nat, verb: int)
    requires i < |s| && StartsWord(s[i])
    requires FirstReserved(s[i..]) != -1 && s[i + FirstReserved(s[i..])] == Space
    ensures var j := i + FirstReserved(s[i..]);
      StepAt(s, i, verb) == Next(j + 1, verb, [Term(verb, s[i..j], [])])
  {
  }

  /** The same step stated by where the word ends: a word of bytes that are not reserved,
      up to the space at `j`, is the phrase of the new leaf. */
  lemma WordUpTo(s: seq<byte>, i: nat, j: nat, verb: int)
    requires i < j < |s| && StartsWord(s[i]) && s[j] == Space
    requires forall k :: i <= k < j ==> !IsRuneReserved(s[k])
    ensures StepAt(s, i, verb) == Next(j + 1, verb, [Term(verb, s[i..j], [])])
  {
    FirstReservedIs(s[i..], j - i);
  }

  /** A bare word that runs to the end of the input, or to a reserved rune other than a
      space, fails (parse.go:96-104). */
  lemma WordWithoutSpaceFails(s: seq<byte>, i: nat, verb: int)
    requires i < |s| && StartsWord(s[i])
    requires FirstReserved(s[i..]) == -1 || s[i + FirstReserved(s[i..])] != Space
    ensures StepAt(s, i, verb) == Stop(UnexpectedReservedRune)
  {
  }

  // What a scan can produce.

  /** The verbs a leaf can carry: Should, or the code of a verb marker. */
  predicate LeafVerb(v: int) {
    v == Should || v == Must || v == MustNot
  }

  /** Leaf terms carrying a leaf verb. */
  predicate PlainLeaves(ts: seq<Term>) {
    forall k :: 0 <= k < |ts| ==> ts[k].children == [] && LeafVerb(ts[k].verb)
  }

  /** A dispatch that goes on appends at most one leaf, with a leaf verb, and leaves a
      leaf verb pending; none of them ends in VerbCombination, because the subquery case
      always fails first. */
  lemma StepLeaves(s: seq<byte>, i: nat, verb: int)
    requires i < |s| && LeafVerb(verb)
    ensures StepAt(s, i, verb).Next? ==>
      && LeafVerb(StepAt(s, i, verb).verb)
      && |StepAt(s, i, verb).leaves| <= 1
      && PlainLeaves(StepAt(s, i, verb).leaves)
    ensures StepAt(s, i, verb) != Stop(VerbCombination)
  {
    if s[i] == LBracket {
      SubqueryFails(s, i, verb);
    }
  }

  /** A dispatch that stops makes the whole scan fail with its error. */
  lemma ScanStops(s: seq<byte>, i: nat, verb: int, acc: seq<Term>)
    requires i < |s| && StepAt(s, i, verb).Stop?
    ensures Scan(s, i, verb, acc) == Failure(StepAt(s, i, verb).error)
  {
  }

  /** A dispatch that goes on hands the rest of the input to the next dispatch. */
  lemma ScanNext(s: seq<byte>, i: nat, verb: int, acc: seq<Term>)
    requires i < |s| && StepAt(s, i, verb).Next?
    ensures var st := StepAt(s, i, verb);
      Scan(s, i, verb, acc) == Scan(s, st.next, st.verb, acc + st.leaves)
  {
  }

  /** A dispatch that appends nothing keeps the children found so far. */
  lemma ScanSkip(s: seq<byte>, i: nat, verb: int, acc: seq<Term>)
    requires i < |s| && StepAt(s, i, verb).Next? && StepAt(s, i, verb).leaves == []
    ensures var st := StepAt(s, i, verb);
      Scan(s, i, verb, acc) == Scan(s, st.next, st.verb, acc)
  {
    assert acc + [] == acc;
  }

  /** A successful scan extends the children it started with by leaves only, each with a
      leaf verb; and no scan fails with VerbCombination. */
  lemma {:induction false} ScanLeaves(s: seq<byte>, i: nat, verb: int, acc: seq<Term>)
    requires i <= |s| && LeafVerb(verb) && PlainLeaves(acc)
    ensures Scan(s, i, verb, acc).Success? ==>
      var kids := Scan(s, i, verb, acc).value;
      |acc| <= |kids| && kids[..|acc|] == acc && PlainLeaves(kids)
    ensures Scan(s, i, verb, acc) != Failure(VerbCombination)
    decreases |s| - i
  {
    if i < |s| {
      var st := StepAt(s, i, verb);
      StepLeaves(s, i, verb);
      if st.Next? {
        var acc' := acc + st.leaves;
        ScanLeaves(s, st.next, st.verb, acc');
        if Scan(s, i, verb, acc).Success? {
          var kids := Scan(s, i, verb, acc).value;
          assert kids[..|acc'|] == acc';
          assert kids[..|acc|] == acc'[..|acc|];
        }
      }
    }
  }

  /** The shape of every successful parse (parse.go:113-128): either a single leaf with
      a non-empty phrase, or a Should root without phrase over at least two leaves; every
      leaf verb is Should, Must or MustNot. */
  lemma ParsedShape(s: seq<byte>)
    ensures Parsed(s).Success? ==>
      var t := Parsed(s).value;
      || (t.children == [] && t.phrase != [] && LeafVerb(t.verb))
      || (t.verb == Should && t.phrase == [] && |t.children| >= 2 && PlainLeaves(t.children))
    ensures Parsed(s).Success? ==> ValidTerm(Parsed(s).value)
  {
    ScanLeaves(s, 0, Should, []);
  }

  /** No query fails with VerbCombination: the check of parse.go:80-83 is never reached. */
  lemma NeverVerbCombination(s: seq<byte>)
    ensures Parsed(s) != Failure(VerbCombination)
  {
    ScanLeaves(s, 0, Should, []);
  }

  /** A query that adds no child to the root, such as "", only spaces or a lone verb
      marker, fails with MalformedQuery: the childless root is a leaf without phrase
      (parse.go:113-121). */
  lemma NoChildFails(s: seq<byte>)
    requires Scan(s, 0, Should, []) == Success([])
    ensures Parsed(s) == Failure(MalformedQuery)
  {
  }

  /** A root with several children is kept, with verb Should and no phrase
      (parse.go:113-128). */
  lemma ParsedManyLeaves(s: seq<byte>, kids: seq<Term>)
    requires Scan(s, 0, Should, []) == Success(kids) && |kids| >= 2
    ensures Parsed(s) == Success(Term(Should, [], kids))
  {
  }

  /** A single leaf child replaces the root, and must carry a phrase (parse.go:113-121). */
  lemma ParsedOneLeaf(s: seq<byte>, t: Term)
    requires Scan(s, 0, Should, []) == Success([t]) && t.children == []
    ensures t.phrase == [] ==> Parsed(s) == Failure(MalformedQuery)
    ensures t.phrase != [] ==> Parsed(s) == Success(t)
  {
  }

  /** Spaces add nothing. */
  lemma {:induction false} SpacesAddNothing(s: seq<byte>, i: nat, verb: int, acc: seq<Term>)
    requires i <= |s|
    requires forall k :: i <= k < |s| ==> s[k] == Space
    ensures Scan(s, i, verb, acc) == Success(acc)
    decreases |s| - i
  {
    if i < |s| {
      SpaceStep(s, i, verb);
      assert acc + [] == acc;
      SpacesAddNothing(s, i + 1, verb, acc);
    }
  }

  /** A query of spaces only, the empty one included, fails with MalformedQuery. */
  lemma OnlySpacesFail(s: seq<byte>)
    requires forall k :: 0 <= k < |s| ==> s[k] == Space
    ensures Parsed(s) == Failure(MalformedQuery)
  {
    SpacesAddNothing(s, 0, Should, []);
  }

  /** A verb marker followed by nothing but spaces adds nothing either. */
  lemma TrailingMarkerAddsNothing(s: seq<byte>, i: nat, acc: seq<Term>)
    requires i < |s| && (s[i] == Plus || s[i] == Minus)
    requires forall k :: i < k < |s| ==> s[k] == Space
    ensures Scan(s, i, Should, acc) == Success(acc)
  {
    VerbStep(s, i);
    assert acc + [] == acc;
    SpacesAddNothing(s, i + 1, s[i], acc);
  }

  /** A query reaching `[` fails with MalformedQuery. */
  lemma BracketFails(s: seq<byte>, i: nat, verb: int, acc: seq<Term>)
    requires i < |s| && s[i] == LBracket
    ensures Scan(s, i, verb, acc) == Failure(MalformedQuery)
  {
    SubqueryFails(s, i, verb);
  }

  /** Node `n` and the term it mirrors agree on validity and on their verb. */
  lemma MirrorsValidity(n: Node, t: Term)
    requires Mirrors(n, t)
    ensures IsValid(n) <==> ValidTerm(t)
    ensures Verb(n) == TermVerb(t)
  {
  }

  /** `root.AddChild(&Node{verb: verb, phrase: phrase})` (parse.go:47-51, 105-106): a new
      leaf appended to `root`, which keeps mirroring its term, now one leaf longer. */
  method AppendLeaf(root: Node, verb: int, phrase: seq<byte>, ghost kids: seq<Term>)
    requires MirrorsChildren(root, kids)
    modifies root
    ensures MirrorsChildren(root, kids + [Term(verb, phrase, [])])
    ensures root.parent == old(root.parent) && root.src == old(root.src)
    ensures root.verb == old(root.verb) && root.phrase == old(root.phrase)
  {
    var q := new Node(verb, phrase, []);
    AddChild(root, q);
  }

  /** The body of the loop of parse.go:23-109 at byte index `i` with pending verb
      `currVerb`: appends the leaf it finds to `root` and reports how the loop goes on. */
  method Dispatch(s: seq<byte>, i: nat, currVerb: int, root: Node, ghost kids: seq<Term>)
    returns (st: Step)
    requires i < |s|
    requires MirrorsChildren(root, kids)
    modifies root
    ensures st == StepAt(s, i, currVerb)
    ensures st.Next? ==> MirrorsChildren(root, kids + st.leaves)
    ensures root.parent == old(root.parent) && root.src == old(root.src)
    ensures root.verb == old(root.verb) && root.phrase == old(root.phrase)
    decreases |s|, 0
  {
    var c := s[i];
    if c == Quote {
      var start := i + 1;
      if start >= |s| - 1 {
        UnpairedQuote(s, i, currVerb);
        return Stop(UnpairedQuotation);
      }
      var j := IndexByte(s[start..], Quote);
      if j == -1 {
        UnpairedQuote(s, i, currVerb);
        return Stop(UnpairedQuotation);
      }
      j := j + start; // point j to the matching quotation mark
      assert s[start..][..j - start] == s[start..j];
      PhraseStep(s, i, j, currVerb);
      AppendLeaf(root, currVerb, s[start..j], kids);
      return Next(j + 1, Should, [Term(currVerb, s[start..j], [])]);
    } else if c == Plus || c == Minus {
      if currVerb != Should {
        RepeatedVerbFails(s, i, currVerb);
        return Stop(UnexpectedVerbMarker);
      }
      VerbStep(s, i);
      return Next(i + 1, c, []);
    } else if c == LBracket {
      var j := IndexNonPhraseRune(s[i..], LBracket);
      if j == -1 {
        return Stop(UnpairedBracket);
      }
      SubqueryFails(s, i, currVerb);
      var sub := Parse(s[i..j + i]);
      if sub.Failure? {
        return Stop(sub.error);
      }
      // The sub-parse is of the empty string and always fails, so parse.go:79-88
      // is never reached.
      assert false;
    } else if c == Space {
      SpaceStep(s, i, currVerb);
      return Next(i + 1, currVerb, []);
    } else {
      var r, j := NextReserved(s[i..]);
      if j == -1 {
        j := |s|;
      } else {
        j := j + i;
      }
      if r != Space {
        WordWithoutSpaceFails(s, i, currVerb);
        return Stop(UnexpectedReservedRune);
      }
      WordStep(s, i, currVerb);
      AppendLeaf(root, currVerb, s[i..j], kids);
      return Next(j + 1, currVerb, [Term(currVerb, s[i..j], [])]);
    }
  }

  /** Parse (parse.go:16-129): the tree of the query `s`, or the first error. */
  method Parse(s: seq<byte>) returns (r: Result<Tree, ParseError>)
    ensures r.Failure? <==> Parsed(s).Failure?
    ensures r.Failure? ==> r.error == Parsed(s).error
    ensures r.Success? ==>
      && fresh(r.value) && r.value.src == s
      && r.value.root != null && fresh(r.value.root)
      && r.value.root.parent == null && r.value.root.src == s
      && IsValid(r.value.root)
      && Mirrors(r.value.root, Parsed(s).value)
    decreases |s|, 1
  {
    var currVerb := Should;
    var i := 0;
    var root := new Node(Should, [], s);
    ghost var acc: seq<Term> := [];

    while i < |s|
      invariant 0 <= i <= |s|
      invariant Scan(s, i, currVerb, acc) == Scan(s, 0, Should, [])
      invariant fresh(root)
      invariant root.parent == null && root.src == s && root.verb == Should && root.phrase == []
      invariant MirrorsChildren(root, acc)
      decreases |s| - i
    {
      var st := Dispatch(s, i, currVerb, root, acc);
      if st.Stop? {
        return Failure(st.error);
      }
      acc := acc + st.leaves;
      i, currVerb := st.next, st.verb;
    }

    // Collapse unnecessary hierarchy (parse.go:113-117).
    if |root.children| == 1 && IsLeaf(root.children[0]) {
      root := root.children[0];
      root.parent := null;
      root.src := s;
    }

    if !IsValid(root) {
      return Failure(MalformedQuery);
    }
    var tree := new Tree(root, s);
    return Success(tree);
  }
}
