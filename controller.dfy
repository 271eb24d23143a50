/** The request guards of the HTTP layer: the empty-body check of
    `POST /strings`, the not-found answers of get and delete, the parameter
    and non-negative length checks of `GET /strings` and the parse and
    conflict checks of the natural-language endpoint, and the router's
    choice of a `GET` handler. Each endpoint answers with a value or with
    one of the errors below. */
module Controller {
  import opened Wrappers
  import opened Analyzer
  import opened Services
  import Translator

  /** The `HTTPException`s the endpoints raise, one per `detail`. */
  datatype ApiError =
    | InvalidBody        // missing or empty "value"
    | AlreadyExists      // the value is stored already
    | NotFound           // no entry for the value
    | InvalidParameter   // a parameter breaking its declared constraint
    | InvalidFilter      // a negative length bound
    | Unparseable        // no cue in the natural-language query
    | ConflictingFilter  // parsed bounds with min_length > max_length

  /** A segment of a route's path template: fixed text, or a
      `{parameter}`, which takes any one non-empty segment. */
  datatype Segment = Fixed(text: string) | Parameter

  /** The handlers registered for `GET`. */
  datatype GetHandler = GetOne | ListAll | ByNaturalLanguage

  datatype Route = Route(template: seq<Segment>, handler: GetHandler)

  /** A request path, split at its slashes, fits a template. */
  predicate Fits(template: seq<Segment>, path: seq<string>)
  {
    && |template| == |path|
    && forall i :: 0 <= i < |path| ==>
         if template[i].Fixed? then path[i] == template[i].text else path[i] != []
  }

  /** The router tries the routes in registration order and hands the
      request to the first one whose template fits. */
  function Dispatch(routes: seq<Route>, path: seq<string>): (h: Option<GetHandler>)
    ensures h.None? <==> forall i :: 0 <= i < |routes| ==> !Fits(routes[i].template, path)
    ensures h.Some? ==>
              exists i :: && 0 <= i < |routes| && routes[i].handler == h.value
                          && Fits(routes[i].template, path)
                          && forall j :: 0 <= j < i ==> !Fits(routes[j].template, path)
  {
    if routes == [] then None
    else if Fits(routes[0].template, path) then Some(routes[0].handler)
    else
      var h := Dispatch(routes[1..], path);
      assert h.Some? ==> exists i :: && 0 <= i < |routes[1..]| && routes[1..][i].handler == h.value
                          && Fits(routes[1..][i].template, path)
                          && forall j :: 0 <= j < i ==> !Fits(routes[1..][j].template, path);
      h
  }

  const ItemPath := [Fixed("strings"), Parameter]
  const NaturalLanguagePath := [Fixed("strings"), Fixed("filter-by-natural-language")]

  /** The `GET` routes in the order the module registers them: the item
      route comes before the natural-language route. */
  const RegisteredGetRoutes :=
    [Route(ItemPath, GetOne), Route([Fixed("strings")], ListAll),
     Route(NaturalLanguagePath, ByNaturalLanguage)]

  /** The `GET` routes with the fixed natural-language path ahead of the
      item route, as the API tests expect. */
  const GetRoutes :=
    [Route([Fixed("strings")], ListAll), Route(NaturalLanguagePath, ByNaturalLanguage),
     Route(ItemPath, GetOne)]

  /** As registered, the natural-language handler is never reached: every
      path that fits its template also fits the item route before it, so
      `/strings/filter-by-natural-language` is a lookup of that string. */
  lemma NaturalLanguageShadowed(path: seq<string>)
    ensures Dispatch(RegisteredGetRoutes, path) != Some(ByNaturalLanguage)
    ensures Fits(NaturalLanguagePath, path) ==> Dispatch(RegisteredGetRoutes, path) == Some(GetOne)
  {
    if Fits(NaturalLanguagePath, path) {
      assert Fits(ItemPath, path) by {
        assert path[1] == "filter-by-natural-language";
      }
    }
  }

  /** With the fixed path first, the natural-language path reaches its
      handler and every other string value still reaches the item route. */
  lemma RoutesReachTheirHandlers(v: string)
    requires v != []
    ensures v == "filter-by-natural-language" ==>
              Dispatch(GetRoutes, ["strings", v]) == Some(ByNaturalLanguage)
    ensures v != "filter-by-natural-language" ==>
              Dispatch(GetRoutes, ["strings", v]) == Some(GetOne)
    ensures Dispatch(GetRoutes, ["strings"]) == Some(ListAll)
  {
    assert !Fits([Fixed("strings")], ["strings", v]);
    if v != "filter-by-natural-language" {
      assert !Fits(NaturalLanguagePath, ["strings", v]) by {
        assert ["strings", v][1] == v;
      }
      assert Fits(ItemPath, ["strings", v]);
      assert Dispatch(GetRoutes[2..], ["strings", v]) == Some(GetOne);
    }
  }

  /** The status code each error is sent with. */
  function Status(e: ApiError): (code: int)
    ensures 400 <= code < 500
    ensures code == 400 <==> e in {InvalidBody, InvalidFilter, Unparseable}
  {
    match e
    case InvalidBody => 400
    case AlreadyExists => 409
    case NotFound => 404
    case InvalidParameter => 422
    case InvalidFilter => 400
    case Unparseable => 400
    case ConflictingFilter => 422
  }

  /** Neither length bound is negative. */
  predicate LengthsNonNegative(f: Filter)
  {
    && (f.minLength.None? || f.minLength.value >= 0)
    && (f.maxLength.None? || f.maxLength.value >= 0)
  }

  /** `contains_character` is declared with `max_length=1`. */
  predicate ParametersWellFormed(f: Filter)
  {
    f.containsCharacter.None? || |f.containsCharacter.value| <= 1
  }

  /** Both length bounds are given and the lower exceeds the upper. */
  predicate Conflicting(f: Filter)
  {
    f.minLength.Some? && f.maxLength.Some? && f.minLength.value > f.maxLength.value
  }

  /** `POST /strings`: an empty value is refused before the store is
      consulted; otherwise the store's answer, "exists" becoming a 409. */
  method CreateString(s: Store, value: string, createdAt: int) returns (r: Result<Item, ApiError>)
    requires s.Valid()
    modifies s
    ensures s.Valid()
    ensures value == [] ==> r == Failure(InvalidBody) && unchanged(s)
    ensures value != [] && s.hash(value) in old(s.items) ==>
              r == Failure(AlreadyExists) && s.items == old(s.items) && s.order == old(s.order)
    ensures value != [] && s.hash(value) !in old(s.items) ==>
              && r == Success(Item(s.hash(value), value, Analyze(value, s.hash), createdAt))
              && s.items == old(s.items)[s.hash(value) := r.value]
              && s.order == old(s.order) + [s.hash(value)]
  {
    if value == [] {
      return Failure(InvalidBody);
    }
    var created := s.Create(value, createdAt);
    match created
    case Failure(_) => r := Failure(AlreadyExists);
    case Success(item) => r := Success(item);
  }

  /** `GET /strings/{string_value}`: the stored item, or 404. */
  function GetString(s: Store, value: string): (r: Result<Item, ApiError>)
    reads s
    requires s.Valid()
    ensures r.Failure? <==> s.hash(value) !in s.items
    ensures r.Failure? ==> r.error == NotFound
    ensures r.Success? ==> s.Get(value) == Some(r.value)
  {
    match s.Get(value)
    case None => Failure(NotFound)
    case Some(item) => Success(item)
  }

  /** `DELETE /strings/{string_value}`: 204 when an entry was removed,
      otherwise 404. */
  method DeleteString(s: Store, value: string) returns (r: Result<(), ApiError>)
    requires s.Valid()
    modifies s
    ensures s.Valid()
    ensures r.Success? <==> s.hash(value) in old(s.items)
    ensures r.Failure? ==> r.error == NotFound
    ensures s.items == old(s.items) - {s.hash(value)}
    ensures s.order == Remove(old(s.order), s.hash(value))
  {
    var removed := s.Delete(value);
    if !removed {
      return Failure(NotFound);
    }
    return Success(());
  }

  /** `GET /strings`: a `contains_character` longer than one character is
      refused by the declared parameter constraint before the handler runs;
      the handler refuses a negative bound; anything else is handed to
      `list_strings`. */
  function ListStrings(s: Store, f: Filter): (r: Result<seq<Item>, ApiError>)
    reads s
    requires s.Valid()
    ensures r.Success? <==> ParametersWellFormed(f) && LengthsNonNegative(f)
    ensures !ParametersWellFormed(f) ==> r == Failure(InvalidParameter)
    ensures ParametersWellFormed(f) && !LengthsNonNegative(f) ==> r == Failure(InvalidFilter)
    ensures r.Success? ==> forall x :: x in r.value <==> x in s.items.Values && Matches(f, x)
  {
    if !ParametersWellFormed(f) then Failure(InvalidParameter)
    else if !LengthsNonNegative(f) then Failure(InvalidFilter)
    else Success(s.List(f))
  }

  /** `GET /strings/filter-by-natural-language`: the parsed filter and the
      items it selects, an unparseable query, or conflicting bounds. */
  function FilterByNaturalLanguage(s: Store, query: string): (r: Result<(Filter, seq<Item>), ApiError>)
    reads s
    requires s.Valid()
    ensures r.Success? ==>
              && Translator.Translate(query) == Success(r.value.0)
              && forall x :: x in r.value.1 <==> x in s.items.Values && Matches(r.value.0, x)
    ensures Translator.Translate(query).Failure? ==> r == Failure(Unparseable)
  {
    match Translator.Translate(query)
    case Failure(_) => Failure(Unparseable)
    case Success(f) =>
      if Conflicting(f) then Failure(ConflictingFilter) else Success((f, s.List(f)))
  }

  /** The parser never sets `max_length`, so the conflict check of the
      natural-language endpoint never fires: the only error it can answer
      with is "unable to parse". */
  lemma NaturalLanguageNeverConflicts(s: Store, query: string)
    requires s.Valid()
    ensures FilterByNaturalLanguage(s, query).Failure? <==> Translator.Translate(query).Failure?
    ensures FilterByNaturalLanguage(s, query).Failure? ==>
              FilterByNaturalLanguage(s, query).error == Unparseable
  {
    if Translator.Translate(query).Success? {
      Translator.ParsedFilterShape(query);
    }
  }

  /** Every filter the parser produces passes the checks of
      `GET /strings`: the lower bound it sets is at least 1 and the
      character it sets is a single one. */
  lemma ParsedFiltersAreValid(query: string)
    requires Translator.Translate(query).Success?
    ensures LengthsNonNegative(Translator.Translate(query).value)
    ensures ParametersWellFormed(Translator.Translate(query).value)
  {
    Translator.ParsedFilterShape(query);
    Translator.MinLengthCue(Translator.Normalize(query));
  }
}
