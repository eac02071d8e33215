/** Modal verb name tables (verb.go). The verb codes themselves are those of
    reserved.go:6-11, which verb.go:4-10 declares a second time with the same values. */
module Verbs {
  import opened Reserved

  /** verb.go:6 repeats the previous constant expression, so VerbUnknown is VerbError. */
  const VerbUnknown: int := VerbError

  /** verbStringsForHumans (verb.go:12-17). */
  const VerbStringsForHumans: map<int, string> :=
    map[Must := "must", MustNot := "must not", Should := "should", VerbError := "_error_"]

  /** verbStrings (verb.go:19-24). */
  const VerbStrings: map<int, string> :=
    map[Must := "+", MustNot := "-", Should := "", VerbError := "_error_"]

  /** The codes both tables know. */
  predicate KnownVerb(v: int) {
    v == Must || v == MustNot || v == Should || v == VerbError
  }

  /** VerbString (verb.go:28-30): the marker of a verb, as used in query text; the
      lookup of a code missing from the table yields Go's zero value, "". */
  function VerbString(verb: int): (s: string)
    ensures verb == Must ==> s == "+"
    ensures verb == MustNot ==> s == "-"
    ensures verb == Should ==> s == ""
    ensures verb == VerbError ==> s == "_error_"
    ensures !KnownVerb(verb) ==> s == ""
  {
    if verb in VerbStrings then VerbStrings[verb] else ""
  }

  /** VerbStringHuman (verb.go:35-37): the human readable name of a verb, "" for a
      code missing from the table. */
  function VerbStringHuman(verb: int): (s: string)
    ensures verb == Must ==> s == "must"
    ensures verb == MustNot ==> s == "must not"
    ensures verb == Should ==> s == "should"
    ensures verb == VerbError ==> s == "_error_"
    ensures !KnownVerb(verb) ==> s == ""
  {
    if verb in VerbStringsForHumans then VerbStringsForHumans[verb] else ""
  }

  lemma VerbUnknownIsVerbError()
    ensures VerbUnknown == VerbError && VerbUnknown == -2
  {
  }

  /** For Must and MustNot the marker is the one-character string whose code is the verb:
      the verb code is the marker rune that the parser stores. */
  lemma MarkerIsVerbCode(v: int)
    requires v == Must || v == MustNot
    ensures |VerbString(v)| == 1 && VerbString(v)[0] as int == v
  {
  }

  /** A marker is empty exactly for Should and for codes outside the table. */
  lemma EmptyMarker(v: int)
    ensures VerbString(v) == "" <==> v == Should || !KnownVerb(v)
  {
  }

  /** The human readable names tell the known verbs apart, and only unknown codes are nameless. */
  lemma HumanNamesDistinct(v: int, w: int)
    ensures VerbStringHuman(v) == "" <==> !KnownVerb(v)
    ensures KnownVerb(v) && KnownVerb(w) && VerbStringHuman(v) == VerbStringHuman(w) ==> v == w
  {
  }

  /** Markers tell the known verbs apart too. */
  lemma MarkersDistinct(v: int, w: int)
    requires KnownVerb(v) && KnownVerb(w)
    ensures VerbString(v) == VerbString(w) ==> v == w
  {
  }
}
