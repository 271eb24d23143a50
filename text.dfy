/** Character classes and string operations that the analyzer and the
    natural-language translator build on: Python's `\s`, `\d`, `\w`,
    `str.lower`/`str.casefold`, `str.strip`, slicing `[::-1]` and the
    substring test `pat in s`; and the no-duplicates predicate on sequences. */
module Text {

  /** Python's `str.isspace`, which is also what `\s` matches in a `str`
      pattern and what `str.strip()` removes. */
  predicate IsSpace(c: char)
  {
    if c <= ' ' then
      ('\t' <= c <= '\r') || '\U{001C}' <= c
    else if c < '\U{0085}' then
      false
    else
      || c == '\U{0085}' || c == '\U{00A0}' || c == '\U{1680}'
      || ('\U{2000}' <= c <= '\U{200A}')
      || c == '\U{2028}' || c == '\U{2029}' || c == '\U{202F}'
      || c == '\U{205F}' || c == '\U{3000}'
  }

  /** `\d`, restricted to the ASCII decimal digits. */
  predicate IsDigit(c: char)
  {
    '0' <= c <= '9'
  }

  predicate IsUpper(c: char)
  {
    'A' <= c <= 'Z'
  }

  /** `\w`, restricted to ASCII letters, digits and the underscore. */
  predicate IsWordChar(c: char)
  {
    ('a' <= c <= 'z') || IsUpper(c) || IsDigit(c) || c == '_'
  }

  /** The per-character fold that stands for both `str.lower` and
      `str.casefold` (ASCII letters only). */
  function Lower(c: char): (d: char)
    ensures !IsUpper(d)
    ensures IsUpper(c) ==> d as int == c as int + 32
    ensures !IsUpper(c) ==> d == c
  {
    if IsUpper(c) then (c as int + 32) as char else c
  }

  /** `s.lower()`: every character folded, none of them upper case. */
  function LowerAll(s: string): (r: string)
    ensures |r| == |s|
    ensures forall i :: 0 <= i < |s| ==> r[i] == Lower(s[i])
  {
    seq(|s|, i requires 0 <= i < |s| => Lower(s[i]))
  }

  lemma LowerAllIdempotent(s: string)
    ensures LowerAll(LowerAll(s)) == LowerAll(s)
  {
  }

  /** `s[::-1]`. */
  function Reverse(s: string): (r: string)
    ensures |r| == |s|
    ensures forall i :: 0 <= i < |s| ==> r[i] == s[|s| - 1 - i]
  {
    if s == [] then [] else Reverse(s[1..]) + [s[0]]
  }

  /** `s.lstrip()`: the suffix left after every leading space is dropped. */
  function LStrip(s: string): (r: string)
    ensures |r| <= |s| && r == s[|s| - |r|..]
    ensures forall k :: 0 <= k < |s| - |r| ==> IsSpace(s[k])
    ensures r == [] || !IsSpace(r[0])
  {
    if s != [] && IsSpace(s[0]) then LStrip(s[1..]) else s
  }

  /** `s.rstrip()`: the prefix left after every trailing space is dropped. */
  function RStrip(s: string): (r: string)
    ensures |r| <= |s| && r == s[..|r|]
    ensures forall k :: |r| <= k < |s| ==> IsSpace(s[k])
    ensures r == [] || !IsSpace(r[|r| - 1])
  {
    if s != [] && IsSpace(s[|s| - 1]) then RStrip(s[..|s| - 1]) else s
  }

  /** `r` is the piece of `s` starting at `a`, and everything of `s`
      before and after that piece is space. */
  predicate TrimmedAt(s: string, r: string, a: nat)
  {
    && a + |r| <= |s| && r == s[a..a + |r|]
    && (forall k :: 0 <= k < a ==> IsSpace(s[k]))
    && (forall k :: a + |r| <= k < |s| ==> IsSpace(s[k]))
  }

  /** `s.strip()`: a contiguous piece of `s` that neither starts nor ends
      with a space, and everything cut away is space. */
  function Strip(s: string): (r: string)
    ensures exists a: nat :: TrimmedAt(s, r, a)
    ensures r == [] || (!IsSpace(r[0]) && !IsSpace(r[|r| - 1]))
    ensures forall c :: c in r ==> c in s
  {
    var l := LStrip(s);
    var r := RStrip(l);
    assert TrimmedAt(s, r, |s| - |l|);
    r
  }

  predicate NoDuplicates<T(==)>(d: seq<T>)
  {
    forall i, j :: 0 <= i < j < |d| ==> d[i] != d[j]
  }

  /** `pat` occurs in `s` starting at index `i`. */
  predicate OccursAt(s: string, pat: string, i: nat)
  {
    i + |pat| <= |s| && s[i..i + |pat|] == pat
  }

  /** Python's `pat in s`: `pat` is a prefix of `s` or of one of its
      suffixes. */
  predicate Contains(s: string, pat: string)
  {
    if pat <= s then true
    else if s == [] then false
    else Contains(s[1..], pat)
  }

  /** `pat in s` holds exactly when `pat` occurs at some index of `s`. */
  lemma {:induction false} ContainsIffOccurs(s: string, pat: string)
    ensures Contains(s, pat) <==> exists i: nat :: OccursAt(s, pat, i)
  {
    if pat <= s {
      assert OccursAt(s, pat, 0);
    } else if s != [] {
      ContainsIffOccurs(s[1..], pat);
      assert forall i: nat :: OccursAt(s[1..], pat, i) <==> OccursAt(s, pat, i + 1);
      assert forall i: nat :: OccursAt(s, pat, i) && i > 0 ==> OccursAt(s[1..], pat, i - 1);
    }
  }

  /** A pattern with a character that `s` lacks does not occur in `s`. */
  lemma {:induction false} MissingCharacter(s: string, pat: string, c: char)
    requires c in pat && c !in s
    ensures !Contains(s, pat)
  {
    if s != [] {
      assert c !in s[1..];
      MissingCharacter(s[1..], pat, c);
    }
  }

  /** `pat` occurs at `i` when it matches there character by character. */
  lemma OccursByCharacters(s: string, pat: string, i: nat)
    requires i + |pat| <= |s|
    requires forall k :: 0 <= k < |pat| ==> s[i + k] == pat[k]
    ensures OccursAt(s, pat, i)
  {
    assert s[i..i + |pat|] == pat;
  }

  /** Where a pattern occurs, so does each of its prefixes. */
  lemma PrefixOccurs(s: string, pat: string, n: nat, i: nat)
    requires n <= |pat| && OccursAt(s, pat, i)
    ensures OccursAt(s, pat[..n], i)
  {
    assert s[i..i + n] == s[i..i + |pat|][..n];
  }
}
