# String analyzer service — a Dafny model

This project models the core of a small string-analysis web service. A
client posts a string. The service computes a bundle of properties:

- its length;
- its word count;
- whether it is a palindrome;
- its number of distinct characters;
- a character frequency map;
- a SHA-256 digest.

The service then stores the string in an in-memory dictionary keyed by
that digest. Stored strings can be fetched, deleted and listed under a
conjunctive filter. The filter can also be written as an English
sentence ("all single word palindromic strings"), which a small cue-based
translator turns into filter fields.

The model has these modules:

- `Text` (`text.dfy`): the character classes and string operations the
  program relies on:
  - Python's whitespace (`str.isspace`), `\d`, `\w`;
  - a per-character lower-casing fold;
  - reversal, `strip` and substring search.
- `Analyzer` (`analyzer.dfy`): `analyze_string`. It is a pure function
  over `seq<char>`. Reference definitions and lemmas state what each
  property means.
- `Translator` (`translator.dfy`): `parse_natural_language`.
  - `Cues`/`Translate` are the pure specification.
  - `ParseNaturalLanguage`/`ComposeCues` fill the filter block by block,
    as the source does, and are proved equal to it.
- `Services` (`services.dfy`): the store as a class.
  - It holds a `map` from digest to item and the dictionary's insertion
    order as a sequence of keys.
  - `create_string` and `delete_string` are methods; `get_string` and
    `list_strings` are functions.
  - The inner `matches` of `list_strings` is the predicate `Matches`.
- `Controller` (`controller.dfy`): the HTTP layer's guards:
  - the empty-body check;
  - the 404 answers of get and delete;
  - the one-character limit on `contains_character`;
  - the non-negative length check;
  - the parse and `min_length > max_length` conflict checks of the
    natural-language endpoint;
  - the dispatch of `GET` requests to the first registered route that
    fits. As registered, the item route shadows the natural-language
    route (see "## Findings"); `GetRoutes` is the corrected order.
- `Scenarios` (`scenarios.dfy`): the request sequences of the API tests,
  and the double create and double delete, each on a fresh store. The
  natural-language test is shown under both route tables.
- `Wrappers` (`wrappers.dfy`): `Option` and `Result`, standing for
  Python's `None` and raised exceptions.

The SHA-256 digest is a function parameter (`sha256`, held by the store
as `hash`). Create, get and delete all derive their key through that one
function, so the keys of the three operations provably agree. Where a
property needs the digest to tell values apart, the member states that
assumption explicitly, in one of three forms:
- `ExistsMeansStored` requires `Injective(hash)`;
- `Store.Get` promises the value equality only under an `Injective(hash) ==>`
  antecedent in its `ensures`;
- `Scenarios.NaturalLanguageFilterAsRegistered` requires only that the two
  strings it involves have different digests.

## Model

| member | source | states |
|---|---|---|
| Analyzer.Analyze | utils/utils.py:6-21 | the property bundle of `analyze_string`, field by field; what each field means is stated by `AnalyzeMeetsSpec` |
| Analyzer.AnalyzeMeetsSpec | utils/utils.py:6-21 | length is the character count; word count is the number of word beginnings; palindrome iff every character folds like its mirror image; the frequency map's keys are exactly the value's characters, each mapped to its occurrence count ≥ 1, summing to the length; unique characters is the number of keys and ≤ length; the digest is the digest of the value |
| Analyzer.WordEnd | utils/utils.py:9 | the end of the maximal non-space run starting at an index: every character before it is non-space and it is the end or a space |
| Analyzer.Tokens | utils/utils.py:9 | `re.findall(r'\S+', value)`: the maximal non-space runs, left to right; their number is stated by `TokensCountWordStarts` |
| Analyzer.TokensFrom | utils/utils.py:9 | every match of `\S+` is a non-empty run of non-space characters |
| Analyzer.TokensCountWordStarts | utils/utils.py:9 | the number of `\S+` matches equals the number of indices where a word begins (a non-space character that is first or follows a space) |
| Analyzer.AllSpaceHasNoWords | utils/utils.py:9 | an empty or all-whitespace value has word count 0 |
| Analyzer.WordCountSpaced | utils/utils.py:9 | "  a   b  " has two words |
| Analyzer.WordCountSingleWord | utils/utils.py:9 | "madam" has one word |
| Analyzer.WordCountTwoWords | utils/utils.py:9 | "hello world" has two words |
| Analyzer.IsPalindrome | utils/utils.py:10 | `value.casefold() == value[::-1].casefold()`; its meaning is stated by `PalindromeMirror` |
| Analyzer.PalindromeMirror | utils/utils.py:10 | the folded value equals its folded reversal iff each character folds like its mirror image |
| Analyzer.ShortStringsArePalindromes | utils/utils.py:10 | every value of length 0 or 1 is a palindrome |
| Analyzer.ReversePreservesPalindrome | utils/utils.py:10 | a value and its reversal are palindromes alike |
| Analyzer.FoldPreservesPalindrome | utils/utils.py:10 | folding the case first does not change the palindrome verdict |
| Analyzer.ReverseMirrored | utils/utils.py:10 | the mirror property holds of a value iff it holds of its reversal |
| Analyzer.MadamIsPalindrome | tests/test_api.py:7-10 | "madam" is a palindrome |
| Analyzer.RacecarIsPalindrome | utils/utils.py:10 | "Racecar" is a palindrome: the fold ignores case |
| Analyzer.HelloWorldIsNotPalindrome | utils/utils.py:10 | "hello world" is not a palindrome |
| Analyzer.CharSet | utils/utils.py:11 | `set(value)`: the characters of the value; its size is stated by `UniqueCharactersBound` |
| Analyzer.Count | utils/utils.py:13 | the occurrence count of a character is at most the length and positive iff the character occurs |
| Analyzer.Distinct | utils/utils.py:13 | the keys of `dict(Counter(value))` in first-occurrence order: no duplicates, exactly the value's characters, no more of them than the length |
| Analyzer.FrequencyMap | utils/utils.py:13 | the map's keys are exactly the value's characters, each with a count ≥ 1 |
| Analyzer.FrequenciesSumToLength | utils/utils.py:13 | the frequencies, one per distinct character, add up to the length |
| Analyzer.UniqueCharactersBound | utils/utils.py:11-13 | the size of the character set equals the number of frequency keys and of distinct characters, and is at most the length |
| Text.IsSpace | utils/utils.py:9 | `\s` and `strip()`'s whitespace: the characters `str.isspace` accepts |
| Text.IsDigit | utils/utils.py:36 | `\d`, restricted to the ASCII decimal digits |
| Text.IsWordChar | utils/utils.py:40 | `\w`, restricted to the ASCII letters, digits and underscore |
| Text.Lower | utils/utils.py:10 | the fold maps an upper-case ASCII letter to its lower-case letter and leaves every other character alone |
| Text.LowerAll | utils/utils.py:28 | `lower()`/`casefold()` keeps the length and folds each character in place |
| Text.LowerAllIdempotent | utils/utils.py:28 | folding twice is folding once |
| Text.Reverse | utils/utils.py:10 | `value[::-1]` keeps the length and puts at index i the character at index n-1-i |
| Text.Strip | utils/utils.py:28 | `strip()` returns a contiguous piece of its input that neither starts nor ends with whitespace, everything cut away being whitespace |
| Text.Contains | utils/utils.py:31-43 | `pat in s`, by trying each start of `s`; its meaning is stated by `ContainsIffOccurs` |
| Text.ContainsIffOccurs | utils/utils.py:31 | `pat in s` holds iff the pattern occurs at some index of s |
| Text.MissingCharacter | utils/utils.py:31-44 | a pattern containing a character the query lacks is not in the query |
| Translator.Normalize | utils/utils.py:28 | `query.lower().strip()`; its properties are `NormalizedShape`, `NormalFixpoint` and `NormalizeIdempotent` |
| Translator.LongerThan | utils/utils.py:36-38 | the number after "longer than " at the leftmost match, or nothing; stated by `LongerThanFound` and `MinLengthCue` |
| Translator.LetterAfter | utils/utils.py:40-42 | the word character after "letter " at the leftmost match, or nothing; stated by `LetterAfterFound` |
| Translator.Cues | utils/utils.py:29-45 | the filter the cue blocks compose from a normalized query; stated by `MinLengthCue`, `CueShape` and `PalindromeWordCues` |
| Translator.Translate | utils/utils.py:24-49 | the cue filter of the normalized query, or the parse error when it is empty; stated by `ParsedFilterShape`, `CaseInsensitive` and the example translations |
| Translator.Search | utils/utils.py:36 | `re.search` for a literal followed by one character of a class returns the leftmost matching index, or nothing when no index matches |
| Translator.LeftmostMatch | utils/utils.py:36 | a match with no earlier occurrence of the pattern's first character is the one `re.search` reports |
| Translator.DecimalValue | utils/utils.py:38 | `int(match.group(1))` on a run of ASCII digits, read most significant digit first |
| Translator.DigitRun | utils/utils.py:36 | the greedy `\d+` takes the whole run of digits at the index |
| Translator.LongerThanFound | utils/utils.py:36-37 | the "longer than (\d+)" group is found iff "longer than " is followed by a digit somewhere in the query |
| Translator.LetterAfterFound | utils/utils.py:40-41 | the "letter (\w)" group is found iff "letter " is followed by a word character somewhere, and it is that character of the query |
| Translator.ParseNaturalLanguage | utils/utils.py:24-49 | the query is lower-cased and stripped, the cue blocks fill the filter, and an empty filter is refused; the result equals `Translate` |
| Translator.ComposeCues | utils/utils.py:29-44 | the sequential cue blocks, the first-vowel block overwriting the letter block, compute exactly `Cues` |
| Translator.CaseInsensitive | utils/utils.py:28 | a query and its lower-cased form translate alike |
| Translator.NormalizedShape | utils/utils.py:28 | the normalized query has no upper-case letter and no surrounding whitespace |
| Translator.NormalFixpoint | utils/utils.py:28 | a query with no upper-case letter and no surrounding whitespace is its own normal form |
| Translator.NormalizeIdempotent | utils/utils.py:28 | normalizing twice is normalizing once |
| Translator.MinLengthCue | utils/utils.py:35-38 | `min_length` is set iff "longer than " followed by a digit occurs, and it is then at least 1; "longer than" without digits sets nothing |
| Translator.CueShape | utils/utils.py:39-44 | `max_length` is never set; with "first vowel" present the character is "a" whatever the letter cue says; otherwise the character is one word character of the query |
| Translator.ParsedFilterShape | utils/utils.py:46-49 | a successful translation is never the empty filter and never sets `max_length`; its character, if any, is one lower-case word character |
| Translator.PalindromeWordCues | utils/utils.py:31-34 | a query with the palindrome and single-word cues and neither 'h' nor 'f' yields exactly `is_palindrome = true, word_count = 1` |
| Translator.TranslateTestQuery | tests/test_api.py:25-31 | "all single word palindromic strings" translates to `is_palindrome = true, word_count = 1` |
| Translator.TranslateLengthQuery | utils/utils.py:35-38 | "strings longer than 5" translates to `min_length = 6` and nothing else |
| Translator.NoCueLetters | utils/utils.py:31-47 | a query lacking 'p', 'w', 'h' and 'f' fires no cue |
| Translator.TranslateUnparseableQuery | utils/utils.py:46-47 | "banana" is refused as unparseable |
| Services.Matches | services/services.py:49-61 | the inner `matches`: every supplied constraint holds, the length bounds inclusive and an empty `contains_character` imposing nothing (`EmptyCharacterIsAbsent`) |
| Services.Select | services/services.py:49-63 | the comprehension keeps exactly the matching items, in their order (a subsequence of the input), each as often as it occurs |
| Services.SelectKeepsAll | services/services.py:63 | when every item matches, nothing is dropped |
| Services.NoFilterSelectsAll | services/services.py:40-63 | with no constraint supplied, every item is returned |
| Services.EmptyCharacterIsAbsent | services/services.py:59 | `contains_character=""` filters exactly as an absent one, since the test is by truthiness |
| Services.SelectNarrows | services/services.py:49-63 | a filter whose matches imply another's selects a subsequence of the other's selection |
| Services.ValuesOf | services/services.py:47 | `list(string_store.values())` holds only stored items and every item stored under a listed key |
| Services.Remove | services/services.py:36 | deleting a key drops exactly that key from the insertion order and keeps it free of duplicates |
| Services.Store.constructor | services/services.py:7 | the store starts empty and valid |
| Services.Store.Create | services/services.py:10-22 | on a new digest, adds exactly one entry keyed by the digest, with that id, the value verbatim and its analysis, appends the key to the order, and `get_string` then returns it; on a known digest, fails with "exists" and changes nothing; the store stays valid |
| Services.Store.Get | services/services.py:25-28 | returns an item iff the value's digest is a key; the item carries that digest as its id and the analysis of its value; with an injective digest it holds the very value asked for |
| Services.Store.Delete | services/services.py:31-37 | returns true iff the digest was a key, removes only that key from the map and the order, and `get_string` then returns nothing; the store stays valid |
| Services.Store.Values | services/services.py:47 | the snapshot holds exactly the stored items, each once |
| Services.Store.List | services/services.py:40-63 | returns exactly the stored items satisfying every supplied constraint, in store order |
| Services.Store.OneRecordPerValue | services/services.py:12-21 | two entries never hold the same value |
| Services.Store.ExistsMeansStored | services/services.py:12-13 | with an injective digest, "exists" is reported exactly when the same value is already stored |
| Controller.Dispatch | controller/controllers.py:111-170 | the router hands a request path to the first registered route whose template fits it, or to none when none fits |
| Controller.NaturalLanguageShadowed | controller/controllers.py:111-170 | as registered, no path reaches the natural-language handler: `/strings/filter-by-natural-language` goes to the item route |
| Controller.RoutesReachTheirHandlers | controller/controllers.py:111-170 | with the fixed path registered first, that path reaches the natural-language handler, every other value reaches the item route and `/strings` the listing |
| Controller.ParametersWellFormed | controller/controllers.py:130 | `Query(None, max_length=1)`: a supplied `contains_character` has at most one character |
| Controller.LengthsNonNegative | controller/controllers.py:134-142 | neither length bound is negative |
| Controller.Conflicting | controller/controllers.py:180-184 | both bounds are given and the lower exceeds the upper |
| Controller.Status | controller/controllers.py:86-219 | every error is sent with a 4xx code, and with 400 exactly for the bad body, a negative bound and an unparseable query |
| Controller.CreateString | controller/controllers.py:86-106 | an empty value is refused with 400 and the store left alone; otherwise the store's create, "exists" becoming 409 |
| Controller.GetString | controller/controllers.py:111-118 | 404 exactly when the value's digest is not a key, else the stored item |
| Controller.DeleteString | controller/controllers.py:211-219 | success iff the digest was a key, else 404; only that key is removed, from the map and from the insertion order |
| Controller.ListStrings | controller/controllers.py:124-163 | a `contains_character` longer than one character is refused with 422; a negative length bound is refused with 400; otherwise exactly the matching stored items |
| Controller.FilterByNaturalLanguage | controller/controllers.py:169-206 | an unparseable query gives 400; a successful answer carries the parsed filter and exactly the stored items it matches |
| Controller.NaturalLanguageNeverConflicts | controller/controllers.py:180-188 | the conflict check never fires, because the parser never sets `max_length`: the endpoint fails iff the query is unparseable |
| Controller.ParsedFiltersAreValid | controller/controllers.py:134-142 | every parsed filter passes the checks of `GET /strings`: non-negative bounds and at most one character |
| Scenarios.CreateAndGet | tests/test_api.py:6-13 | "madam" is created as a palindrome and then fetched |
| Scenarios.ListAndDelete | tests/test_api.py:15-23 | "hello world" is listed under `word_count=2` and then deleted |
| Scenarios.NaturalLanguageFilter | tests/test_api.py:25-31 | under the corrected route table: after "racecar" is created, the test path reaches the natural-language handler, and the test query is answered and selects it |
| Scenarios.NaturalLanguageFilterAsRegistered | tests/test_api.py:25-31 | under the routes as registered, the same request is taken by the item route and, when "filter-by-natural-language" and "racecar" have different digests, answered 404 |
| Scenarios.CreateTwice | services/services.py:11-13 | creating a value twice succeeds once, then reports "exists", leaving one entry |
| Scenarios.DeleteTwice | services/services.py:31-37 | deleting a stored value twice returns true, then false, leaving the store empty |

## Left out

- SHA-256 itself and its hex rendering: the digest is a function parameter. `ExistsMeansStored` and the value equality in `Get` are proved only under an explicit injectivity assumption.
- `value.encode("utf-8")` raises `UnicodeEncodeError`, a `ValueError`, for a lone surrogate, and create then answers 422. Dafny's `char` cannot hold a surrogate, so the model cannot show this path.
- Unicode semantics:
  - `casefold`/`lower` are a per-character fold of the ASCII letters only. Real `casefold` can change the length ('ß' becomes "ss").
  - `\d` is the ASCII digits and `\w` the ASCII letters, digits and underscore.
  - Whitespace follows the full `str.isspace` list.
- Translator.LongerThan: Python's default limit on converting a string of digits to an `int` (4300 digits, which `sys.set_int_max_str_digits` can change) is not modelled. With it, a "longer than" number of more than 4300 digits makes `int()` raise `ValueError`, and the natural-language endpoint answers 400. The model returns the number, so such a query translates to a filter.
- `datetime.utcnow()`: the creation time is a parameter.
- Concurrency: the module-level dictionary has no locking, and the model is sequential.
- Route dispatch is modelled for `GET` only, as path segments fitted against templates; query-string parsing and the other methods' routes are not modelled. The scenarios other than the natural-language one call their handlers directly.
- HTTP transport, JSON rendering and the response bodies (`count`, `filters_applied`, `interpreted_query`): only the answers and error codes are modelled.
- Pydantic request and response models: `models/models.py` is not part of this model. Its field names appear in `Item` and `Properties`.
- The controller's 422 for a `ValueError` other than "exists" in create, and its 400 for a `ValueError` in `list_strings`: in the model no other error can arise.
- Analyzer determinism: `Analyze` is a function, so equal inputs give equal bundles by construction, and no lemma states it.
- The key order of `character_frequency_map`: the map is unordered. `Distinct` gives the first-occurrence order of its keys.
- `/me`, Redis and rate limiting (tests/test_me_endpoint.py) and the application bootstrap (main.py): not part of the core.

## Findings

| source | as written | input that shows it | evidently intended | confidence | as-written member | corrected member |
|---|---|---|---|---|---|---|
| controller/controllers.py:111-170 | the item route `/strings/{string_value}` is registered before `/strings/filter-by-natural-language`, and the router takes the first route that fits, so the natural-language handler is unreachable | `GET /strings/filter-by-natural-language?query=all single word palindromic strings` (tests/test_api.py:27-30) is a lookup of the string "filter-by-natural-language" and is answered 404, where the test expects 200 | the fixed path registered ahead of the item route, so that it reaches `filter_by_nl` | not executed; high (follows from first-match routing) | Controller.NaturalLanguageShadowed | Controller.RoutesReachTheirHandlers |
