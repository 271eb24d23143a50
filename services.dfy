/** The in-memory content-addressed store of `services.py`: a dictionary
    from digest to item, with create (check, then insert), get, delete and
    the conjunctive filter `list_strings`. The dictionary's iteration order
    (insertion order) is kept as a sequence of keys beside the map. */
module Services {
  import opened Wrappers
  import opened Text
  import opened Analyzer

  /** `StringItem`: the stored record. */
  datatype Item = Item(id: string, value: string, properties: Properties, createdAt: int)

  /** The `ValueError("exists")` that `create_string` raises. */
  datatype StoreError = Exists

  /** The keyword arguments of `list_strings`; `None` means "not supplied". */
  datatype Filter = Filter(
    isPalindrome: Option<bool>,
    minLength: Option<int>,
    maxLength: Option<int>,
    wordCount: Option<int>,
    containsCharacter: Option<string>)

  const NoFilter := Filter(None, None, None, None, None)

  /** The inner `matches` of `list_strings`: every supplied constraint
      holds. Length bounds are inclusive; `contains_character` is checked by
      truthiness, so the empty string imposes nothing. */
  predicate Matches(f: Filter, x: Item)
  {
    var p := x.properties;
    && (f.isPalindrome.None? || p.isPalindrome == f.isPalindrome.value)
    && (f.minLength.None? || p.length >= f.minLength.value)
    && (f.maxLength.None? || p.length <= f.maxLength.value)
    && (f.wordCount.None? || p.wordCount == f.wordCount.value)
    && (f.containsCharacter.None? || f.containsCharacter.value == []
        || Contains(x.value, f.containsCharacter.value))
  }

  /** `r` is `xs` with some elements left out, the rest in their order. */
  predicate IsSubsequence<T(==)>(r: seq<T>, xs: seq<T>)
  {
    if r == [] then true
    else if xs == [] then false
    else if r[0] == xs[0] then IsSubsequence(r[1..], xs[1..])
    else IsSubsequence(r, xs[1..])
  }

  /** The list comprehension `[x for x in results if matches(x)]`. */
  function Select(f: Filter, xs: seq<Item>): (r: seq<Item>)
    ensures IsSubsequence(r, xs)
    ensures forall x :: x in r <==> x in xs && Matches(f, x)
    ensures forall x :: multiset(r)[x] == if Matches(f, x) then multiset(xs)[x] else 0
  {
    if xs == [] then []
    else
      assert xs == [xs[0]] + xs[1..];
      if Matches(f, xs[0]) then [xs[0]] + Select(f, xs[1..])
      else Select(f, xs[1..])
  }

  /** When every element satisfies the filter, nothing is dropped. */
  lemma {:induction false} SelectKeepsAll(f: Filter, xs: seq<Item>)
    requires forall x :: x in xs ==> Matches(f, x)
    ensures Select(f, xs) == xs
  {
    if xs != [] {
      SelectKeepsAll(f, xs[1..]);
    }
  }

  /** With no constraint supplied, `list_strings` returns every item. */
  lemma NoFilterSelectsAll(xs: seq<Item>)
    ensures Select(NoFilter, xs) == xs
  {
    SelectKeepsAll(NoFilter, xs);
  }

  /** `contains_character=""` filters exactly like an absent one. */
  lemma {:induction false} EmptyCharacterIsAbsent(f: Filter, xs: seq<Item>)
    ensures Select(f.(containsCharacter := Some([])), xs) == Select(f.(containsCharacter := None), xs)
  {
    if xs != [] {
      EmptyCharacterIsAbsent(f, xs[1..]);
    }
  }

  /** Adding constraints only narrows the result, which stays in order. */
  lemma {:induction false} SelectNarrows(f: Filter, g: Filter, xs: seq<Item>)
    requires forall x :: Matches(g, x) ==> Matches(f, x)
    ensures IsSubsequence(Select(g, xs), Select(f, xs))
  {
    if xs != [] {
      SelectNarrows(f, g, xs[1..]);
      if !Matches(g, xs[0]) && Matches(f, xs[0]) {
        SkipHead(Select(g, xs[1..]), xs[0], Select(f, xs[1..]));
      }
    }
  }

  /** A subsequence of `ys` stays one when an element is put in front. */
  lemma {:induction false} SkipHead<T>(r: seq<T>, y: T, ys: seq<T>)
    requires IsSubsequence(r, ys)
    ensures IsSubsequence(r, [y] + ys)
    decreases |ys|, 1
  {
    assert ([y] + ys)[1..] == ys;
    if r != [] && r[0] == y {
      DropFirst(r, ys);
    }
  }

  /** Dropping the first element of a subsequence leaves a subsequence. */
  lemma {:induction false} DropFirst<T>(r: seq<T>, ys: seq<T>)
    requires r != [] && IsSubsequence(r, ys)
    ensures IsSubsequence(r[1..], ys)
    decreases |ys|, 0
  {
    assert [ys[0]] + ys[1..] == ys;
    if r[0] != ys[0] {
      DropFirst(r, ys[1..]);
    }
    SkipHead(r[1..], ys[0], ys[1..]);
  }

  /** The items stored under `keys`, in the order of `keys`:
      `list(string_store.values())`. */
  function ValuesOf(keys: seq<string>, m: map<string, Item>): (vs: seq<Item>)
    ensures forall x :: x in vs ==> x in m.Values
    ensures forall i :: 0 <= i < |keys| && keys[i] in m ==> m[keys[i]] in vs
    ensures (forall k :: k in m ==> m[k].id == k) ==> forall x :: x in vs ==> x.id in keys
    ensures (forall k :: k in m ==> m[k].id == k) && NoDuplicates(keys) ==> NoDuplicates(vs)
  {
    if keys == [] then []
    else
      var rest := ValuesOf(keys[1..], m);
      assert NoDuplicates(keys) ==> keys[0] !in keys[1..] && NoDuplicates(keys[1..]);
      (if keys[0] in m then [m[keys[0]]] else []) + rest
  }

  /** `keys` without `k`, the rest in their order. */
  function Remove(keys: seq<string>, k: string): (r: seq<string>)
    ensures forall x :: x in r <==> x in keys && x != k
    ensures NoDuplicates(keys) ==> NoDuplicates(r)
    ensures k !in keys ==> r == keys
  {
    if keys == [] then []
    else if keys[0] == k then Remove(keys[1..], k)
    else
      var rest := Remove(keys[1..], k);
      assert NoDuplicates(keys) ==> keys[0] !in keys[1..] && NoDuplicates(keys[1..]);
      [keys[0]] + rest
  }

  ghost predicate Injective(h: string -> string)
  {
    forall a, b :: h(a) == h(b) ==> a == b
  }

  /** `string_store` with its insertion order. `hash` is the single digest
      function through which create, get and delete all derive keys. */
  class Store {
    const hash: string -> string
    var items: map<string, Item>
    var order: seq<string>

    /** Every entry is keyed by the digest of its own value, carries that
        digest as its id and the analysis of its value as its properties;
        `order` lists every key exactly once. */
    ghost predicate Valid()
      reads this
    {
      && (forall k :: k in items ==> Keyed(k, items[k]))
      && NoDuplicates(order)
      && (forall k :: k in items <==> k in order)
    }

    /** `x` is what `create_string` stores under key `k`. */
    predicate Keyed(k: string, x: Item)
    {
      x.id == k && hash(x.value) == k && x.properties == Analyze(x.value, hash)
    }

    constructor (hash: string -> string)
      ensures Valid()
      ensures this.hash == hash && items == map[] && order == []
    {
      this.hash := hash;
      items := map[];
      order := [];
    }

    /** `create_string`. */
    method Create(value: string, createdAt: int) returns (r: Result<Item, StoreError>)
      requires Valid()
      modifies this
      ensures Valid()
      ensures hash(value) in old(items) ==>
                r == Failure(Exists) && items == old(items) && order == old(order)
      ensures hash(value) !in old(items) ==>
                && r == Success(Item(hash(value), value, Analyze(value, hash), createdAt))
                && items == old(items)[hash(value) := r.value]
                && order == old(order) + [hash(value)]
                && Get(value) == Some(r.value)
    {
      var props := Analyze(value, hash);
      if props.sha256Hash in items {
        return Failure(Exists);
      }
      var item := Item(props.sha256Hash, value, props, createdAt);
      assert Keyed(item.id, item);
      assert item.id !in order;
      items := items[item.id := item];
      order := order + [item.id];
      assert Valid();
      r := Success(item);
    }

    /** `get_string`: a lookup under the same digest that create uses. */
    function Get(value: string): (r: Option<Item>)
      reads this
      requires Valid()
      ensures r.Some? <==> hash(value) in items
      ensures r.Some? ==> && r.value.id == hash(value)
                          && hash(r.value.value) == hash(value)
                          && r.value.properties == Analyze(r.value.value, hash)
      ensures r.Some? && Injective(hash) ==> r.value.value == value
    {
      if hash(value) in items then Some(items[hash(value)]) else None
    }

    /** `delete_string`. */
    method Delete(value: string) returns (removed: bool)
      requires Valid()
      modifies this
      ensures Valid()
      ensures removed <==> hash(value) in old(items)
      ensures items == old(items) - {hash(value)}
      ensures order == Remove(old(order), hash(value))
      ensures Get(value) == None
    {
      var key := hash(value);
      if key !in items {
        return false;
      }
      items := items - {key};
      order := Remove(order, key);
      assert Valid();
      removed := true;
    }

    /** `list(string_store.values())`. */
    function Values(): (vs: seq<Item>)
      reads this
      requires Valid()
      ensures forall x :: x in vs <==> x in items.Values
      ensures NoDuplicates(vs)
    {
      ValuesOf(order, items)
    }

    /** `list_strings`: exactly the stored items satisfying every supplied
        constraint, in store order. */
    function List(f: Filter): (r: seq<Item>)
      reads this
      requires Valid()
      ensures IsSubsequence(r, Values())
      ensures forall x :: x in r <==> x in items.Values && Matches(f, x)
    {
      Select(f, Values())
    }

    /** Two entries never hold the same value. */
    lemma OneRecordPerValue(k1: string, k2: string)
      requires Valid()
      requires k1 in items && k2 in items && items[k1].value == items[k2].value
      ensures k1 == k2
    {
    }

    /** With an injective digest, `create_string` reports "exists" exactly
        when the same value is already stored. */
    lemma ExistsMeansStored(value: string)
      requires Valid() && Injective(hash)
      ensures hash(value) in items <==> exists k :: k in items && items[k].value == value
    {
    }
  }
}
