/** The API tests' request sequences, each run against a fresh store with
    an arbitrary digest function, and what each request answers. Requests
    are handed straight to their handlers, except in the natural-language
    test, which also shows which handler the router picks. Each example
    takes its literal input as a parameter fixed by a `requires`: this
    keeps the string literal out of the rest of the proof context. */
module Scenarios {
  import opened Wrappers
  import opened Text
  import opened Analyzer
  import opened Services
  import opened Controller
  import Translator

  /** `test_create_and_get`: "madam" is created as a palindrome and can
      then be fetched. */
  method CreateAndGet(hash: string -> string, value: string)
      returns (created: Result<Item, ApiError>, fetched: Result<Item, ApiError>)
    requires value == "madam"
    ensures created.Success? && created.value.properties.isPalindrome
    ensures fetched == Success(created.value)
  {
    var s := new Store(hash);
    created := CreateString(s, value, 0);
    MadamIsPalindrome();
    fetched := GetString(s, value);
  }

  lemma TwoWordsAnalyzed(value: string, hash: string -> string)
    requires value == "hello world"
    ensures Analyze(value, hash).wordCount == 2
  {
    WordCountTwoWords();
  }

  /** `test_list_and_delete`: "hello world" is listed under
      `word_count=2` and then deleted. */
  method ListAndDelete(hash: string -> string, value: string)
      returns (listed: Result<seq<Item>, ApiError>, deleted: Result<(), ApiError>)
    requires value == "hello world"
    ensures listed.Success? && |listed.value| > 0
    ensures deleted.Success?
  {
    var s := new Store(hash);
    var created := CreateString(s, value, 0);
    TwoWordsAnalyzed(value, hash);
    var f := NoFilter.(wordCount := Some(2));
    assert Matches(f, created.value);
    assert created.value in s.items.Values by {
      assert s.items[hash(value)] == created.value;
    }
    listed := ListStrings(s, f);
    assert created.value in listed.value;
    deleted := DeleteString(s, value);
  }

  lemma RacecarIsPalindromic(value: string)
    requires value == "racecar"
    ensures IsPalindrome(value)
  {
    PalindromeMirror("racecar");
  }

  lemma RacecarIsOneWord(value: string)
    requires value == "racecar"
    ensures |Tokens(value)| == 1
  {
    assert WordEnd("racecar", 0) == 7;
  }

  lemma ParsedAnswer(s: Store, query: string, f: Filter)
    requires s.Valid() && Translator.Translate(query) == Success(f) && !Conflicting(f)
    ensures FilterByNaturalLanguage(s, query) == Success((f, s.List(f)))
  {
  }

  /** `test_natural_language_filter` with the corrected route table:
      after "racecar" is created, the request path reaches the
      natural-language handler, the query "all single word palindromic
      strings" is answered, and "racecar" is among the items it selects. */
  method NaturalLanguageFilter(hash: string -> string, value: string, query: string, path: seq<string>)
      returns (route: Option<GetHandler>, answer: Result<(Filter, seq<Item>), ApiError>)
    requires value == "racecar"
    requires query == "all single word palindromic strings"
    requires path == ["strings", "filter-by-natural-language"]
    ensures route == Some(ByNaturalLanguage)
    ensures answer.Success?
    ensures exists x :: x in answer.value.1 && x.value == value
  {
    var s := new Store(hash);
    var created := CreateString(s, value, 0);
    RoutesReachTheirHandlers(path[1]);
    route := Dispatch(GetRoutes, path);
    RacecarIsPalindromic(value);
    RacecarIsOneWord(value);
    var f := NoFilter.(isPalindrome := Some(true), wordCount := Some(1));
    Translator.TranslateTestQuery(query);
    ParsedAnswer(s, query, f);
    assert Matches(f, created.value);
    assert created.value in s.items.Values by {
      assert s.items[hash(value)] == created.value;
    }
    answer := FilterByNaturalLanguage(s, query);
    assert created.value in answer.value.1;
  }

  /** The same test under the routes as registered: the path is taken by
      the item route as the string "filter-by-natural-language", which is
      not stored, so the request is answered 404 where the test expects
      200. The two strings are assumed to have different digests, so that
      the stored "racecar" does not sit under the looked-up key. */
  method NaturalLanguageFilterAsRegistered(hash: string -> string, value: string, path: seq<string>)
      returns (route: Option<GetHandler>, answer: Result<Item, ApiError>)
    requires value == "racecar"
    requires path == ["strings", "filter-by-natural-language"]
    requires hash(path[1]) != hash(value)
    ensures route == Some(GetOne)
    ensures answer == Failure(NotFound)
  {
    var s := new Store(hash);
    var created := CreateString(s, value, 0);
    TestPathFits(path);
    NaturalLanguageShadowed(path);
    route := Dispatch(RegisteredGetRoutes, path);
    answer := GetString(s, path[1]);
  }

  /** The test's path fits the natural-language template. */
  lemma TestPathFits(path: seq<string>)
    requires path == ["strings", "filter-by-natural-language"]
    ensures Fits(NaturalLanguagePath, path)
  {
  }

  /** Creating the same value twice succeeds once and then reports that it
      exists; the store then holds the one entry. */
  method CreateTwice(hash: string -> string, value: string)
      returns (first: Result<Item, StoreError>, second: Result<Item, StoreError>, stored: map<string, Item>)
    ensures first.Success? && second == Failure(Exists)
    ensures stored == map[hash(value) := first.value]
  {
    var s := new Store(hash);
    first := s.Create(value, 0);
    second := s.Create(value, 1);
    stored := s.items;
  }

  /** Deleting a stored value twice removes it once and then reports that
      nothing was there; the store is then empty. */
  method DeleteTwice(hash: string -> string, value: string)
      returns (first: bool, second: bool, stored: map<string, Item>)
    ensures first && !second
    ensures stored == map[]
  {
    var s := new Store(hash);
    var created := s.Create(value, 0);
    first := s.Delete(value);
    second := s.Delete(value);
    stored := s.items;
  }
}
