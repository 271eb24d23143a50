/** The string property analyzer, `analyze_string`: a pure function from a
    string to its property bundle. SHA-256 is code this model cannot see,
    so the digest function is a parameter (`sha256`). */
module Analyzer {
  import opened Text

  /** The bundle `analyze_string` returns. */
  datatype Properties = Properties(
    length: nat,
    isPalindrome: bool,
    uniqueCharacters: nat,
    wordCount: nat,
    sha256Hash: string,
    characterFrequency: map<char, nat>)

  // ---------------------------------------------------------------------
  // word_count: len(re.findall(r'\S+', value))
  // ---------------------------------------------------------------------

  predicate IsWord(w: string)
  {
    w != [] && forall k :: 0 <= k < |w| ==> !IsSpace(w[k])
  }

  /** End of the maximal run of non-space characters that starts at `i`. */
  function WordEnd(s: string, i: nat): (j: nat)
    requires i <= |s|
    ensures i <= j <= |s|
    ensures forall k :: i <= k < j ==> !IsSpace(s[k])
    ensures j == |s| || IsSpace(s[j])
    decreases |s| - i
  {
    if i == |s| || IsSpace(s[i]) then i else WordEnd(s, i + 1)
  }

  /** The maximal non-space runs of `s` from index `i` on, left to right. */
  function TokensFrom(s: string, i: nat): (ws: seq<string>)
    requires i <= |s|
    ensures forall w :: w in ws ==> IsWord(w)
    decreases |s| - i
  {
    if i == |s| then []
    else if IsSpace(s[i]) then TokensFrom(s, i + 1)
    else
      var j := WordEnd(s, i);
      [s[i..j]] + TokensFrom(s, j)
  }

  /** `re.findall(r'\S+', s)`. */
  function Tokens(s: string): seq<string>
  {
    TokensFrom(s, 0)
  }

  /** A word begins at index `i`: a non-space character that is first or
      follows a space. */
  predicate StartsWord(s: string, i: nat)
    requires i < |s|
  {
    !IsSpace(s[i]) && (i == 0 || IsSpace(s[i - 1]))
  }

  /** Number of word beginnings at indices `i` and beyond: the reference
      definition of a word count, independent of how the words are cut. */
  function StartsFrom(s: string, i: nat): nat
    decreases |s| - i
  {
    if i >= |s| then 0
    else (if StartsWord(s, i) then 1 else 0) + StartsFrom(s, i + 1)
  }

  function WordStarts(s: string): nat
  {
    StartsFrom(s, 0)
  }

  /** Inside a word (every index from `a - 1` up to `b` is non-space) no
      new word begins. */
  lemma {:induction false} NoStartsInsideWord(s: string, a: nat, b: nat)
    requires 0 < a <= b <= |s|
    requires forall k :: a - 1 <= k < b ==> !IsSpace(s[k])
    ensures StartsFrom(s, a) == StartsFrom(s, b)
    decreases b - a
  {
    if a < b {
      assert !StartsWord(s, a);
      NoStartsInsideWord(s, a + 1, b);
    }
  }

  lemma {:induction false} CountTokensFrom(s: string, i: nat)
    requires i <= |s|
    requires i == 0 || i == |s| || IsSpace(s[i - 1]) || IsSpace(s[i])
    ensures |TokensFrom(s, i)| == StartsFrom(s, i)
    decreases |s| - i
  {
    if i < |s| {
      if IsSpace(s[i]) {
        CountTokensFrom(s, i + 1);
      } else {
        var j := WordEnd(s, i);
        NoStartsInsideWord(s, i + 1, j);
        CountTokensFrom(s, j);
      }
    }
  }

  /** The number of `\S+` matches is the number of word beginnings. */
  lemma TokensCountWordStarts(s: string)
    ensures |Tokens(s)| == WordStarts(s)
  {
    CountTokensFrom(s, 0);
  }

  lemma {:induction false} AllSpaceFrom(s: string, i: nat)
    requires i <= |s|
    requires forall k :: i <= k < |s| ==> IsSpace(s[k])
    ensures TokensFrom(s, i) == []
    decreases |s| - i
  {
    if i < |s| {
      AllSpaceFrom(s, i + 1);
    }
  }

  /** Empty or all-space input has no words. */
  lemma AllSpaceHasNoWords(s: string)
    requires forall k :: 0 <= k < |s| ==> IsSpace(s[k])
    ensures |Tokens(s)| == 0
  {
    AllSpaceFrom(s, 0);
  }

  lemma WordCountSpaced()
    ensures |Tokens("  a   b  ")| == 2
  {
    var s := "  a   b  ";
    AllSpaceFrom(s, 7);
    assert WordEnd(s, 6) == 7 && s[6..7] == "b";
    assert |TokensFrom(s, 6)| == 1;
    assert |TokensFrom(s, 3)| == 1;
    assert WordEnd(s, 2) == 3;
  }

  lemma WordCountSingleWord()
    ensures |Tokens("madam")| == 1
  {
    assert WordEnd("madam", 0) == 5;
  }

  lemma WordCountTwoWords()
    ensures |Tokens("hello world")| == 2
  {
    var s := "hello world";
    assert WordEnd(s, 6) == 11;
    assert WordEnd(s, 0) == 5;
  }

  // ---------------------------------------------------------------------
  // is_palindrome: value.casefold() == value[::-1].casefold()
  // ---------------------------------------------------------------------

  predicate IsPalindrome(s: string)
  {
    LowerAll(s) == LowerAll(Reverse(s))
  }

  /** Each character folds to the same as its mirror image. */
  predicate Mirrored(s: string)
  {
    forall i :: 0 <= i < |s| ==> Lower(s[i]) == Lower(s[|s| - 1 - i])
  }

  /** The folded string reads the same from both ends. */
  lemma PalindromeMirror(s: string)
    ensures IsPalindrome(s) <==> Mirrored(s)
  {
    if Mirrored(s) {
      assert LowerAll(s) == LowerAll(Reverse(s));
    }
  }

  lemma ShortStringsArePalindromes(s: string)
    requires |s| <= 1
    ensures IsPalindrome(s)
  {
    PalindromeMirror(s);
  }

  /** A string and its reversal are palindromes alike. */
  lemma ReversePreservesPalindrome(s: string)
    ensures IsPalindrome(Reverse(s)) == IsPalindrome(s)
  {
    PalindromeMirror(s);
    PalindromeMirror(Reverse(s));
    ReverseMirrored(s);
  }

  /** Folding the case first does not change the verdict. */
  lemma FoldPreservesPalindrome(s: string)
    ensures IsPalindrome(LowerAll(s)) == IsPalindrome(s)
  {
    var t := LowerAll(s);
    PalindromeMirror(s);
    PalindromeMirror(t);
    if Mirrored(s) {
      forall i | 0 <= i < |t|
        ensures Lower(t[i]) == Lower(t[|t| - 1 - i])
      {
        assert t[i] == Lower(s[i]) && t[|t| - 1 - i] == Lower(s[|s| - 1 - i]);
      }
    }
    if Mirrored(t) {
      forall i | 0 <= i < |s|
        ensures Lower(s[i]) == Lower(s[|s| - 1 - i])
      {
        assert Lower(t[i]) == Lower(t[|t| - 1 - i]);
      }
    }
  }

  lemma ReverseMirrored(s: string)
    ensures Mirrored(Reverse(s)) == Mirrored(s)
  {
    var r := Reverse(s);
    if Mirrored(s) {
      forall i | 0 <= i < |r|
        ensures Lower(r[i]) == Lower(r[|r| - 1 - i])
      {
        assert r[i] == s[|s| - 1 - i] && r[|r| - 1 - i] == s[i];
      }
    }
    if Mirrored(r) {
      forall i | 0 <= i < |s|
        ensures Lower(s[i]) == Lower(s[|s| - 1 - i])
      {
        assert r[|s| - 1 - i] == s[i] && r[i] == s[|s| - 1 - i];
      }
    }
  }

  lemma MadamIsPalindrome()
    ensures IsPalindrome("madam")
  {
    assert Reverse("madam") == "madam";
  }

  lemma RacecarIsPalindrome()
    ensures IsPalindrome("Racecar")
  {
    PalindromeMirror("Racecar");
    assert Lower('R') == 'r';
  }

  lemma HelloWorldIsNotPalindrome()
    ensures !IsPalindrome("hello world")
  {
    assert LowerAll(Reverse("hello world"))[0] == 'd';
  }

  // ---------------------------------------------------------------------
  // unique_characters: len(set(value));  character_frequency_map: Counter
  // ---------------------------------------------------------------------

  function CharSet(s: string): set<char>
  {
    set c | c in s
  }

  /** Occurrences of `c` in `s`. */
  function Count(s: seq<char>, c: char): (n: nat)
    ensures n <= |s|
    ensures n > 0 <==> c in s
  {
    if s == [] then 0 else (if s[0] == c then 1 else 0) + Count(s[1..], c)
  }

  /** The distinct characters of `s` in order of first occurrence (the key
      order of `dict(Counter(s))`). */
  function Distinct(s: string): (d: seq<char>)
    ensures NoDuplicates(d)
    ensures forall c :: c in d <==> c in s
    ensures |d| <= |s|
  {
    if s == [] then []
    else
      var d := Distinct(s[..|s| - 1]);
      assert forall c :: c in s <==> c in s[..|s| - 1] || c == s[|s| - 1];
      if s[|s| - 1] in d then d else d + [s[|s| - 1]]
  }

  /** `dict(Counter(s))`. */
  function FrequencyMap(s: string): (m: map<char, nat>)
    ensures forall c :: c in m <==> c in s
    ensures forall c :: c in m ==> m[c] >= 1
  {
    map c | c in s :: Count(s, c)
  }

  /** Sum of the values of `m` at `keys`. */
  function SumAt(m: map<char, nat>, keys: seq<char>): nat
    requires forall c :: c in keys ==> c in m
  {
    if keys == [] then 0 else m[keys[0]] + SumAt(m, keys[1..])
  }

  /** Sum over `keys` of the occurrences of each key in `s`. */
  function TotalCount(keys: seq<char>, s: string): nat
  {
    if keys == [] then 0 else Count(s, keys[0]) + TotalCount(keys[1..], s)
  }

  lemma {:induction false} TotalCountOfEmpty(keys: seq<char>)
    ensures TotalCount(keys, []) == 0
  {
    if keys != [] {
      TotalCountOfEmpty(keys[1..]);
    }
  }

  /** Taking the first character off `s` takes one occurrence off the
      total for each time that character is listed in `keys`. */
  lemma {:induction false} TotalCountStep(keys: seq<char>, s: string)
    requires s != []
    ensures TotalCount(keys, s) == TotalCount(keys, s[1..]) + Count(keys, s[0])
  {
    if keys != [] {
      TotalCountStep(keys[1..], s);
    }
  }

  lemma {:induction false} CountOfDistinct(d: seq<char>, c: char)
    requires NoDuplicates(d) && c in d
    ensures Count(d, c) == 1
  {
    if d[0] != c {
      CountOfDistinct(d[1..], c);
    } else {
      assert c !in d[1..];
    }
  }

  lemma {:induction false} TotalCountCovers(keys: seq<char>, s: string)
    requires NoDuplicates(keys)
    requires forall c :: c in s ==> c in keys
    ensures TotalCount(keys, s) == |s|
  {
    if s == [] {
      TotalCountOfEmpty(keys);
    } else {
      TotalCountStep(keys, s);
      CountOfDistinct(keys, s[0]);
      TotalCountCovers(keys, s[1..]);
    }
  }

  lemma {:induction false} SumAtIsTotalCount(s: string, keys: seq<char>)
    requires forall c :: c in keys ==> c in s
    ensures SumAt(FrequencyMap(s), keys) == TotalCount(keys, s)
  {
    if keys != [] {
      SumAtIsTotalCount(s, keys[1..]);
    }
  }

  /** The frequencies, one per distinct character, add up to the length. */
  lemma FrequenciesSumToLength(s: string)
    ensures SumAt(FrequencyMap(s), Distinct(s)) == |s|
  {
    SumAtIsTotalCount(s, Distinct(s));
    TotalCountCovers(Distinct(s), s);
  }

  lemma {:induction false} DistinctCardinality(d: seq<char>)
    requires NoDuplicates(d)
    ensures |set c | c in d| == |d|
  {
    if d != [] {
      DistinctCardinality(d[1..]);
      assert (set c | c in d) == (set c | c in d[1..]) + {d[0]};
      assert d[0] !in d[1..];
    }
  }

  /** The number of distinct characters is the number of frequency keys,
      and no more than the length. */
  lemma UniqueCharactersBound(s: string)
    ensures |CharSet(s)| == |FrequencyMap(s)| == |Distinct(s)| <= |s|
  {
    var d := Distinct(s);
    DistinctCardinality(d);
    assert CharSet(s) == (set c | c in d);
    assert FrequencyMap(s).Keys == CharSet(s);
  }

  // ---------------------------------------------------------------------
  // analyze_string
  // ---------------------------------------------------------------------

  /** `analyze_string`: every property computed from `value` alone, the
      digest by the given `sha256`. */
  function Analyze(value: string, sha256: string -> string): Properties
  {
    Properties(
      length := |value|,
      isPalindrome := IsPalindrome(value),
      uniqueCharacters := |CharSet(value)|,
      wordCount := |Tokens(value)|,
      sha256Hash := sha256(value),
      characterFrequency := FrequencyMap(value))
  }

  /** What each property of `analyze_string` means: the length; the count
      of maximal non-space runs; mirror equality after folding; the
      frequency map's keys are the characters of the value, each with its
      number of occurrences, and those numbers add up to the length; the
      number of distinct characters; the digest of the value. */
  lemma AnalyzeMeetsSpec(value: string, sha256: string -> string)
    ensures var p := Analyze(value, sha256);
      && p.length == |value|
      && p.wordCount == WordStarts(value)
      && (p.isPalindrome <==> Mirrored(value))
      && (forall c :: c in p.characterFrequency <==> c in value)
      && (forall c :: c in p.characterFrequency ==> p.characterFrequency[c] == Count(value, c) >= 1)
      && SumAt(p.characterFrequency, Distinct(value)) == p.length
      && p.uniqueCharacters == |p.characterFrequency| <= p.length
      && p.sha256Hash == sha256(value)
  {
    TokensCountWordStarts(value);
    PalindromeMirror(value);
    FrequenciesSumToLength(value);
    UniqueCharactersBound(value);
  }
}
