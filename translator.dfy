/** The natural-language cue translator, `parse_natural_language`: five
    independent cues over the lower-cased, trimmed query, each setting one
    filter field, and a failure when none fires. `Translate` states the
    result field by field; `ParseNaturalLanguage` fills the filter step by
    step as the source does, later cues overwriting earlier ones. */
module Translator {
  import opened Wrappers
  import opened Text
  import opened Services

  /** The `ValueError` raised when no cue fires. */
  datatype ParseError = Unparseable

  /** `query.lower().strip()`. */
  function Normalize(query: string): string
  {
    Strip(LowerAll(query))
  }

  /** The regular expression `lit(cls)` matches `q` at index `i`. */
  predicate MatchAt(q: string, lit: string, cls: char -> bool, i: nat)
  {
    OccursAt(q, lit, i) && i + |lit| < |q| && cls(q[i + |lit|])
  }

  /** `re.search` for `lit(cls)` from index `from` on: the leftmost
      index at which it matches. */
  function Search(q: string, lit: string, cls: char -> bool, from: nat): (r: Option<nat>)
    ensures r.Some? ==> && from <= r.value
                        && MatchAt(q, lit, cls, r.value)
                        && forall k :: from <= k < r.value ==> !MatchAt(q, lit, cls, k)
    ensures r.None? ==> forall k :: from <= k ==> !MatchAt(q, lit, cls, k)
    decreases |q| - from
  {
    if from >= |q| then None
    else if MatchAt(q, lit, cls, from) then Some(from)
    else Search(q, lit, cls, from + 1)
  }

  /** Length of the run of digits starting at index `i`: what the greedy
      `\d+` consumes. */
  function DigitRun(s: string, i: nat): (n: nat)
    requires i <= |s|
    ensures i + n <= |s|
    ensures forall k :: i <= k < i + n ==> IsDigit(s[k])
    ensures i + n == |s| || !IsDigit(s[i + n])
    decreases |s| - i
  {
    if i < |s| && IsDigit(s[i]) then 1 + DigitRun(s, i + 1) else 0
  }

  /** `int(ds)` for a string of decimal digits. */
  function DecimalValue(ds: string): nat
  {
    if ds == [] then 0
    else 10 * DecimalValue(ds[..|ds| - 1]) + (ds[|ds| - 1] as int - '0' as int) % 10
  }

  /** `re.search(r"longer than (\d+)", q)`, with the group as a number. */
  function LongerThan(q: string): Option<nat>
  {
    match Search(q, "longer than ", IsDigit, 0)
    case None => None
    case Some(i) =>
      var start := i + |"longer than "|;
      Some(DecimalValue(q[start..start + DigitRun(q, start)]))
  }

  /** The number is found exactly when "longer than " is followed by a
      digit somewhere in `q`. */
  lemma LongerThanFound(q: string)
    ensures LongerThan(q).Some? <==> exists i: nat :: MatchAt(q, "longer than ", IsDigit, i)
  {
  }

  /** `re.search(r"letter (\w)", q)`, with the group's one character. */
  function LetterAfter(q: string): Option<char>
  {
    match Search(q, "letter ", IsWordChar, 0)
    case None => None
    case Some(i) => Some(q[i + |"letter "|])
  }

  /** The letter is found exactly when "letter " is followed by a word
      character somewhere in `q`, and it is that character. */
  lemma LetterAfterFound(q: string)
    ensures LetterAfter(q).Some? <==> exists i: nat :: MatchAt(q, "letter ", IsWordChar, i)
    ensures LetterAfter(q).Some? ==> IsWordChar(LetterAfter(q).value) && LetterAfter(q).value in q
  {
  }

  /** The filter the cues of the normalized query `q` compose, field by
      field; the first-vowel cue takes precedence for the character. */
  function Cues(q: string): Filter
  {
    Filter(
      isPalindrome :=
        if Contains(q, "palindrom") then Some(true) else None,
      minLength :=
        if Contains(q, "longer than") && LongerThan(q).Some?
        then Some(LongerThan(q).value + 1) else None,
      maxLength := None,
      wordCount :=
        if Contains(q, "single word") || Contains(q, "one word") then Some(1) else None,
      containsCharacter :=
        if Contains(q, "first vowel") then Some("a")
        else if Contains(q, "containing the letter") && LetterAfter(q).Some?
        then Some([LetterAfter(q).value])
        else None)
  }

  /** `parse_natural_language` as a function: the composed filter, or a
      failure when it is empty. */
  function Translate(query: string): Result<Filter, ParseError>
  {
    var f := Cues(Normalize(query));
    if f == NoFilter then Failure(Unparseable) else Success(f)
  }

  /** `parse_natural_language`, block by block: the query is normalized
      once, the cue blocks fill the filter, and an empty filter is refused. */
  method ParseNaturalLanguage(query: string) returns (r: Result<Filter, ParseError>)
    ensures r == Translate(query)
  {
    var q := Normalize(query);
    var filters := ComposeCues(q);
    if filters == NoFilter {
      return Failure(Unparseable);
    }
    return Success(filters);
  }

  /** The cue blocks of `parse_natural_language` in their order, each
      assigning one field; the first-vowel block runs after the letter block
      and so overwrites it. The substring tests are side-effect free, so
      they are evaluated up front. */
  method ComposeCues(q: string) returns (filters: Filter)
    ensures filters == Cues(q)
  {
    var palindrom := Contains(q, "palindrom");
    var word := Contains(q, "single word") || Contains(q, "one word");
    var longer := Contains(q, "longer than");
    var letter := Contains(q, "containing the letter");
    var vowel := Contains(q, "first vowel");
    filters := NoFilter;
    if palindrom {
      filters := filters.(isPalindrome := Some(true));
    }
    assert filters.isPalindrome == Cues(q).isPalindrome;
    if word {
      filters := filters.(wordCount := Some(1));
    }
    assert filters.wordCount == Cues(q).wordCount;
    if longer {
      var m := LongerThan(q);
      if m.Some? {
        filters := filters.(minLength := Some(m.value + 1));
      }
    }
    assert filters.minLength == Cues(q).minLength;
    if letter {
      var m := LetterAfter(q);
      if m.Some? {
        filters := filters.(containsCharacter := Some([m.value]));
      }
    }
    if vowel {
      filters := filters.(containsCharacter := Some("a"));
    }
    assert filters.containsCharacter == Cues(q).containsCharacter;
  }

  // ---------------------------------------------------------------------
  // Properties of the translation
  // ---------------------------------------------------------------------

  /** Cues are found case-insensitively: the query and its lower-cased
      form translate alike. */
  lemma CaseInsensitive(query: string)
    ensures Translate(LowerAll(query)) == Translate(query)
  {
    LowerAllIdempotent(query);
    assert Normalize(LowerAll(query)) == Normalize(query);
  }

  /** The normalized query has no upper-case letter and no surrounding
      space. */
  lemma NormalizedShape(query: string)
    ensures forall c :: c in Normalize(query) ==> !IsUpper(c)
    ensures var q := Normalize(query); q == [] || (!IsSpace(q[0]) && !IsSpace(q[|q| - 1]))
  {
    var l := LowerAll(query);
    forall c | c in Strip(l)
      ensures !IsUpper(c)
    {
      assert c in l;
      var i :| 0 <= i < |l| && l[i] == c;
    }
  }

  /** A query with no upper-case letter and no surrounding space is left
      as it is by normalization. */
  lemma NormalFixpoint(q: string)
    requires forall c :: c in q ==> !IsUpper(c)
    requires q == [] || (!IsSpace(q[0]) && !IsSpace(q[|q| - 1]))
    ensures Normalize(q) == q
  {
    forall i | 0 <= i < |q|
      ensures LowerAll(q)[i] == q[i]
    {
      assert q[i] in q;
    }
    assert LowerAll(q) == q;
    assert LStrip(q) == q && RStrip(q) == q;
  }

  /** Normalizing twice is normalizing once. */
  lemma NormalizeIdempotent(query: string)
    ensures Normalize(Normalize(query)) == Normalize(query)
  {
    NormalizedShape(query);
    NormalFixpoint(Normalize(query));
  }

  /** `min_length` is set exactly when "longer than " is followed by a
      digit, and then it is one more than the number, so at least 1. */
  lemma MinLengthCue(q: string)
    ensures Cues(q).minLength.Some? <==> exists i: nat :: MatchAt(q, "longer than ", IsDigit, i)
    ensures Cues(q).minLength.Some? ==> Cues(q).minLength.value >= 1
  {
    LongerThanFound(q);
    if LongerThan(q).Some? {
      var i :| MatchAt(q, "longer than ", IsDigit, i);
      PrefixOccurs(q, "longer than ", 11, i);
      assert "longer than "[..11] == "longer than";
      ContainsIffOccurs(q, "longer than");
    }
  }

  /** The cues never bound the length from above; "first vowel" always
      wins over "containing the letter"; otherwise an extracted letter is
      one word character of the query. */
  lemma CueShape(q: string)
    ensures Cues(q).maxLength.None?
    ensures Contains(q, "first vowel") ==> Cues(q).containsCharacter == Some("a")
    ensures !Contains(q, "first vowel") && Cues(q).containsCharacter.Some? ==>
              var s := Cues(q).containsCharacter.value;
              |s| == 1 && IsWordChar(s[0]) && s[0] in q
  {
    LetterAfterFound(q);
  }

  /** A successful translation is a non-empty filter with no upper length
      bound whose extracted letter, if any, is one lower-case word character
      of the query. */
  lemma ParsedFilterShape(query: string)
    requires Translate(query).Success?
    ensures var f := Translate(query).value;
            && f != NoFilter
            && f.maxLength.None?
            && (f.containsCharacter.Some? ==>
                  var s := f.containsCharacter.value;
                  |s| == 1 && IsWordChar(s[0]) && !IsUpper(s[0]))
  {
    var q := Normalize(query);
    CueShape(q);
    NormalizedShape(query);
  }

  /** A query that mentions palindromes and a single word and has neither
      an 'h' nor an 'f' (so none of "longer than", "containing the letter"
      and "first vowel") asks for single-word palindromes and nothing else. */
  lemma PalindromeWordCues(q: string)
    requires Contains(q, "palindrom") && Contains(q, "single word")
    requires 'h' !in q && 'f' !in q
    ensures Cues(q) == NoFilter.(isPalindrome := Some(true), wordCount := Some(1))
  {
    MissingCharacter(q, "longer than", 'h');
    MissingCharacter(q, "first vowel", 'f');
    MissingCharacter(q, "containing the letter", 'h');
  }

  // The example lemmas below take their literal query as a parameter fixed
  // by a `requires`, which keeps the literal out of the other proofs' context.

  lemma TestQueryIsNormal(query: string)
    requires query == "all single word palindromic strings"
    ensures Normalize(query) == query
  {
    assert forall i :: 0 <= i < |query| ==> !IsUpper(query[i]);
    assert LowerAll(query) == query;
    assert !IsSpace(query[0]) && !IsSpace(query[|query| - 1]);
  }

  lemma TestQueryCues(query: string)
    requires query == "all single word palindromic strings"
    ensures Contains(query, "palindrom") && Contains(query, "single word")
  {
    OccursByCharacters(query, "palindrom", 16);
    OccursByCharacters(query, "single word", 4);
    ContainsIffOccurs(query, "palindrom");
    ContainsIffOccurs(query, "single word");
  }

  lemma TestQueryLetters(query: string)
    requires query == "all single word palindromic strings"
    ensures 'h' !in query && 'f' !in query
  {
  }

  /** The natural-language query of the API tests. */
  lemma TranslateTestQuery(query: string)
    requires query == "all single word palindromic strings"
    ensures Translate(query) == Success(NoFilter.(isPalindrome := Some(true), wordCount := Some(1)))
  {
    TestQueryIsNormal(query);
    TestQueryCues(query);
    TestQueryLetters(query);
    PalindromeWordCues(query);
  }

  /** A match preceded by no occurrence of the pattern's first character
      is the one `re.search` reports. */
  lemma LeftmostMatch(q: string, lit: string, cls: char -> bool, i: nat)
    requires lit != [] && MatchAt(q, lit, cls, i)
    requires forall k :: 0 <= k < i ==> q[k] != lit[0]
    ensures Search(q, lit, cls, 0) == Some(i)
  {
  }

  lemma LengthQueryIsNormal(query: string)
    requires query == "strings longer than 5"
    ensures Normalize(query) == query
  {
    assert forall i :: 0 <= i < |query| ==> !IsUpper(query[i]);
    assert LowerAll(query) == query;
    assert !IsSpace(query[0]) && !IsSpace(query[|query| - 1]);
  }

  lemma LengthQueryCue(query: string)
    requires query == "strings longer than 5"
    ensures Contains(query, "longer than")
  {
    OccursByCharacters(query, "longer than", 8);
    ContainsIffOccurs(query, "longer than");
  }

  lemma LengthQueryMatch(query: string)
    requires query == "strings longer than 5"
    ensures Search(query, "longer than ", IsDigit, 0) == Some(8)
  {
    OccursByCharacters(query, "longer than ", 8);
    assert forall k :: 0 <= k < 8 ==> query[k] != 'l';
    LeftmostMatch(query, "longer than ", IsDigit, 8);
  }

  lemma LengthQueryNumber(query: string)
    requires query == "strings longer than 5"
    ensures LongerThan(query) == Some(5)
  {
    LengthQueryMatch(query);
    assert DigitRun(query, 20) == 1;
    assert query[20..21] == "5";
    assert "5"[..0] == [];
    assert DecimalValue("5") == 5;
  }

  lemma LengthQueryLetters(query: string)
    requires query == "strings longer than 5"
    ensures 'p' !in query && 'w' !in query && 'f' !in query && 'c' !in query
  {
  }

  /** "longer than N" asks for a minimum length of N + 1 and nothing else. */
  lemma TranslateLengthQuery(query: string)
    requires query == "strings longer than 5"
    ensures Translate(query) == Success(NoFilter.(minLength := Some(6)))
  {
    LengthQueryIsNormal(query);
    LengthQueryCue(query);
    LengthQueryNumber(query);
    LengthQueryLetters(query);
    MissingCharacter(query, "palindrom", 'p');
    MissingCharacter(query, "single word", 'w');
    MissingCharacter(query, "one word", 'w');
    MissingCharacter(query, "first vowel", 'f');
    MissingCharacter(query, "containing the letter", 'c');
  }

  /** A query with none of the letters 'p', 'w', 'h' and 'f' carries no
      cue at all. */
  lemma NoCueLetters(q: string)
    requires 'p' !in q && 'w' !in q && 'h' !in q && 'f' !in q
    ensures Cues(q) == NoFilter
  {
    MissingCharacter(q, "palindrom", 'p');
    MissingCharacter(q, "single word", 'w');
    MissingCharacter(q, "one word", 'w');
    MissingCharacter(q, "longer than", 'h');
    MissingCharacter(q, "first vowel", 'f');
    MissingCharacter(q, "containing the letter", 'h');
  }

  /** A query with no cue is refused. */
  lemma TranslateUnparseableQuery(query: string)
    requires query == "banana"
    ensures Translate(query) == Failure(Unparseable)
  {
    assert LowerAll(query) == query;
    assert LStrip(query) == query && RStrip(query) == query;
    NoCueLetters(query);
  }
}
