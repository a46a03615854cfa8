/**
 * `MockLocalStorage` (packages/dom-evaluator/src/mock-local-storage.ts): the
 * `Storage` interface over a private object `#storage`. The object is an
 * ordinary JavaScript object, so the model keeps two facts about it that the
 * code relies on without saying so: `Object.keys` lists array-index keys
 * first, in ascending numeric order, and then the other keys in the order
 * they were created; and the object inherits the properties of
 * `Object.prototype`.
 */
module MockStorage {
  import opened Wrappers

  /** The names `Object.prototype` provides to every ordinary object. */
  const ObjectPrototypeNames: set<string> := {
    "constructor", "hasOwnProperty", "isPrototypeOf", "propertyIsEnumerable",
    "toLocaleString", "toString", "valueOf", "__proto__",
    "__defineGetter__", "__defineSetter__", "__lookupGetter__", "__lookupSetter__"
  }

  predicate IsDigit(c: char) {
    '0' <= c <= '9'
  }

  /** The decimal value of a numeral; a character that is not a digit counts as 0. */
  function NumericValue(s: string): nat {
    if s == [] then 0
    else 10 * NumericValue(s[..|s| - 1]) + (if IsDigit(s[|s| - 1]) then s[|s| - 1] as int - '0' as int else 0)
  }

  /** A canonical array index: `"0"` or a decimal numeral without a leading zero, below 2^32 - 1. */
  predicate IsArrayIndex(k: string) {
    |k| > 0 && (forall i :: 0 <= i < |k| ==> IsDigit(k[i]))
    && (k[0] != '0' || k == "0") && NumericValue(k) < 0xFFFF_FFFF
  }

  /** Index keys compare by their numeric value. */
  predicate Ascending(ks: seq<string>) {
    forall i, j :: 0 <= i < j < |ks| ==> NumericValue(ks[i]) <= NumericValue(ks[j])
  }

  predicate AtLeast(ks: seq<string>, b: nat) {
    forall i :: 0 <= i < |ks| ==> b <= NumericValue(ks[i])
  }

  function IndexKeys(keys: seq<string>): (r: seq<string>)
    ensures |r| <= |keys|
    ensures forall k | k in r :: IsArrayIndex(k)
  {
    if keys == [] then []
    else (if IsArrayIndex(keys[0]) then [keys[0]] else []) + IndexKeys(keys[1..])
  }

  function NameKeys(keys: seq<string>): (r: seq<string>)
    ensures forall k | k in r :: !IsArrayIndex(k)
  {
    if keys == [] then []
    else (if IsArrayIndex(keys[0]) then [] else [keys[0]]) + NameKeys(keys[1..])
  }

  function InsertByValue(k: string, sorted: seq<string>): (r: seq<string>)
    ensures multiset(r) == multiset(sorted) + multiset{k}
  {
    if sorted == [] then [k]
    else if NumericValue(k) <= NumericValue(sorted[0]) then [k] + sorted
    else
      assert sorted == [sorted[0]] + sorted[1..];
      [sorted[0]] + InsertByValue(k, sorted[1..])
  }

  lemma {:induction false} InsertByValueAtLeast(k: string, sorted: seq<string>, b: nat)
    requires AtLeast(sorted, b) && b <= NumericValue(k)
    ensures AtLeast(InsertByValue(k, sorted), b)
  {
    if sorted != [] && NumericValue(k) > NumericValue(sorted[0]) {
      InsertByValueAtLeast(k, sorted[1..], b);
    }
  }
  lemma {:induction false} InsertByValueAscending(k: string, sorted: seq<string>)
    requires Ascending(sorted)
    ensures Ascending(InsertByValue(k, sorted))
  {
    if sorted != [] {
      var s0 := sorted[0];
      assert AtLeast(sorted[1..], NumericValue(s0));
      if NumericValue(k) <= NumericValue(s0) {
        assert AtLeast(sorted, NumericValue(k));
      } else {
        InsertByValueAscending(k, sorted[1..]);
        InsertByValueAtLeast(k, sorted[1..], NumericValue(s0));
      }
    }
  }

  function SortByValue(ks: seq<string>): (r: seq<string>)
    ensures multiset(r) == multiset(ks)
  {
    if ks == [] then []
    else
      assert ks == [ks[0]] + ks[1..];
      InsertByValue(ks[0], SortByValue(ks[1..]))
  }

  lemma {:induction false} SortByValueAscending(ks: seq<string>)
    ensures Ascending(SortByValue(ks))
  {
    if ks != [] {
      SortByValueAscending(ks[1..]);
      InsertByValueAscending(ks[0], SortByValue(ks[1..]));
    }
  }

  /** `Object.keys` of an object whose own keys were created in the order `order`. */
  function ObjectKeys(order: seq<string>): (r: seq<string>)
    ensures multiset(r) == multiset(order) && |r| == |order|
    ensures Ascending(r[..|IndexKeys(order)|]) && forall k | k in r[..|IndexKeys(order)|] :: IsArrayIndex(k)
    ensures multiset(r[..|IndexKeys(order)|]) == multiset(IndexKeys(order))
    ensures r[|IndexKeys(order)|..] == NameKeys(order)
  {
    FilterPermutation(order);
    SortByValueAscending(IndexKeys(order));
    var sorted := SortByValue(IndexKeys(order));
    assert |sorted| == |IndexKeys(order)| by {
      assert |multiset(sorted)| == |multiset(IndexKeys(order))|;
    }
    forall k | k in sorted
      ensures IsArrayIndex(k)
    {
      assert k in multiset(IndexKeys(order));
    }
    assert (sorted + NameKeys(order))[..|sorted|] == sorted;
    assert (sorted + NameKeys(order))[|sorted|..] == NameKeys(order);
    assert |sorted + NameKeys(order)| == |multiset(sorted + NameKeys(order))| == |multiset(order)|;
    sorted + NameKeys(order)
  }

  /** Filtering keeps the creation order: the other keys of `a + b` are those of `a`, then those of `b`. */
  lemma {:induction false} NameKeysAppend(a: seq<string>, b: seq<string>)
    ensures NameKeys(a + b) == NameKeys(a) + NameKeys(b)
  {
    if a == [] {
      assert a + b == b;
    } else {
      assert (a + b)[0] == a[0] && (a + b)[1..] == a[1..] + b;
      NameKeysAppend(a[1..], b);
    }
  }

  lemma {:induction false} IndexKeysAppend(a: seq<string>, b: seq<string>)
    ensures IndexKeys(a + b) == IndexKeys(a) + IndexKeys(b)
  {
    if a == [] {
      assert a + b == b;
    } else {
      assert (a + b)[0] == a[0] && (a + b)[1..] == a[1..] + b;
      IndexKeysAppend(a[1..], b);
    }
  }

  /** A key that is not an array index, created last, is listed last. */
  lemma ObjectKeysAppendName(order: seq<string>, k: string)
    requires !IsArrayIndex(k)
    ensures ObjectKeys(order + [k]) == ObjectKeys(order) + [k]
  {
    IndexKeysAppend(order, [k]);
    NameKeysAppend(order, [k]);
    assert IndexKeys([k]) == [] && NameKeys([k]) == [k];
    assert IndexKeys(order + [k]) == IndexKeys(order);
    var r := ObjectKeys(order);
    var r' := ObjectKeys(order + [k]);
    var n := |IndexKeys(order)|;
    assert r == r[..n] + r[n..];
    assert r' == r'[..n] + r'[n..];
    assert r'[..n] == SortByValue(IndexKeys(order)) == r[..n];
  }

  lemma {:induction false} FilterPermutation(keys: seq<string>)
    ensures multiset(IndexKeys(keys)) + multiset(NameKeys(keys)) == multiset(keys)
  {
    if keys != [] {
      var k, rest := keys[0], keys[1..];
      FilterPermutation(rest);
      assert keys == [k] + rest;
      var here := if IsArrayIndex(k) then [k] else [];
      var there := if IsArrayIndex(k) then [] else [k];
      assert IndexKeys(keys) == here + IndexKeys(rest);
      assert NameKeys(keys) == there + NameKeys(rest);
      assert multiset(here) + multiset(there) == multiset{k};
    }
  }

  /** Without index-like keys, `Object.keys` is the insertion order. */
  lemma {:induction false} ObjectKeysInsertionOrder(order: seq<string>)
    requires forall i :: 0 <= i < |order| ==> !IsArrayIndex(order[i])
    ensures ObjectKeys(order) == order
  {
    NoIndexKeys(order);
  }

  lemma {:induction false} NoIndexKeys(order: seq<string>)
    requires forall i :: 0 <= i < |order| ==> !IsArrayIndex(order[i])
    ensures IndexKeys(order) == [] && NameKeys(order) == order
  {
    if order != [] {
      NoIndexKeys(order[1..]);
    }
  }

  /** Index-like keys jump ahead: keys created as `b`, `1`, `a`, `0` are listed `0`, `1`, `b`, `a`. */
  lemma ObjectKeysIndexFirst()
    ensures ObjectKeys(["b", "1", "a", "0"]) == ["0", "1", "b", "a"]
  {
    ExampleKeysSplit();
    ExampleIndexKeysSorted();
  }

  lemma ExampleKeysSplit()
    ensures IndexKeys(["b", "1", "a", "0"]) == ["1", "0"]
    ensures NameKeys(["b", "1", "a", "0"]) == ["b", "a"]
  {
    var order := ["b", "1", "a", "0"];
    assert !IsDigit("a"[0]) && !IsDigit("b"[0]);
    assert !IsArrayIndex("a") && !IsArrayIndex("b");
    assert "1"[..0] == "" && "0"[..0] == "";
    assert NumericValue("1") == 1 && IsArrayIndex("1");
    assert NumericValue("0") == 0 && IsArrayIndex("0");
    assert order[1..] == ["1", "a", "0"] && order[1..][1..] == ["a", "0"] && order[1..][1..][1..] == ["0"];
  }

  lemma ExampleIndexKeysSorted()
    ensures SortByValue(["1", "0"]) == ["0", "1"]
  {
    assert "1"[..0] == "" && "0"[..0] == "";
    assert NumericValue("1") == 1 && NumericValue("0") == 0;
    assert ["1", "0"][1..] == ["0"];
    assert SortByValue(["0"]) == ["0"];
    assert InsertByValue("1", []) == ["1"];
  }

  predicate Distinct(s: seq<string>) {
    forall i, j :: 0 <= i < j < |s| ==> s[i] != s[j]
  }

  lemma {:induction false} DistinctCardinality(s: seq<string>)
    requires Distinct(s)
    ensures |set k | k in s| == |s|
  {
    if s != [] {
      var rest := s[1..];
      DistinctCardinality(rest);
      assert (set k | k in s) == (set k | k in rest) + {s[0]};
      assert s[0] !in rest;
    }
  }

  /** `order` with every occurrence of `key` removed. */
  function Without(order: seq<string>, key: string): (r: seq<string>)
    ensures forall k :: k in r <==> k in order && k != key
    ensures Distinct(order) ==> Distinct(r)
  {
    if order == [] then []
    else
      var rest := Without(order[1..], key);
      assert Distinct(order) ==> Distinct(order[1..]) && order[0] !in order[1..];
      (if order[0] == key then [] else [order[0]]) + rest
  }

  /** What `this.#storage[key]` reads: an own value, an inherited member, or `undefined`. */
  datatype Property = Own(value: string) | Inherited(name: string) | Undefined

  class MockLocalStorage {
    /** The own string-valued properties of `#storage`. */
    var storage: map<string, string>
    /** The own keys, in the order they were created. */
    var order: seq<string>

    ghost predicate Valid()
      reads this
    {
      (forall k :: k in storage <==> k in order) && Distinct(order) && "__proto__" !in storage
    }

    constructor()
      ensures Valid() && storage == map[] && order == []
    {
      storage := map[];
      order := [];
    }

    /** `get length()`: the number of own keys. */
    function Length(): (n: nat)
      requires Valid()
      reads this
      ensures n == |storage|
    {
      DistinctCardinality(order);
      assert storage.Keys == set k | k in order;
      var keys := ObjectKeys(order);
      assert |keys| == |multiset(keys)| == |multiset(order)| == |order|;
      |keys|
    }

    /**
     * `this.#storage[key] = value`. Assigning to `__proto__` goes to the
     * inherited setter, which ignores a string: nothing is stored.
     */
    method SetItem(key: string, value: string)
      requires Valid()
      modifies this
      ensures Valid()
      ensures key == "__proto__" ==> storage == old(storage) && order == old(order)
      ensures key != "__proto__" ==> storage == old(storage)[key := value]
      ensures key != "__proto__" ==> order == if key in old(storage) then old(order) else old(order) + [key]
    {
      if key != "__proto__" {
        if key !in storage {
          order := order + [key];
        }
        storage := storage[key := value];
      }
    }

    /** `key(index)`: the `index`-th key `Object.keys` lists, or `null`. */
    function Key(index: int): (r: Option<string>)
      requires Valid()
      reads this
      ensures r.Some? <==> 0 <= index < |storage|
      ensures r.Some? ==> r.value in storage && index < |ObjectKeys(order)| && r.value == ObjectKeys(order)[index]
    {
      var keys := ObjectKeys(order);
      assert |keys| == Length() == |storage|;
      assert forall i :: 0 <= i < |keys| ==> keys[i] in multiset(order);
      if 0 <= index < |keys| then Some(keys[index]) else None
    }

    /** `this.#storage[key] ?? null`, where `null` is `Undefined`. */
    function GetItem(key: string): (r: Property)
      reads this
      ensures key in storage ==> r == Own(storage[key])
      ensures key !in storage && key in ObjectPrototypeNames ==> r == Inherited(key)
      ensures key !in storage && key !in ObjectPrototypeNames ==> r == Undefined
    {
      if key in storage then Own(storage[key])
      else if key in ObjectPrototypeNames then Inherited(key)
      else Undefined
    }

    /**
     * `getItem` as the `Storage` interface means it: an own value or `null`
     * (`None`). Reading only own properties drops the inherited members.
     */
    function GetOwnItem(key: string): (r: Option<string>)
      reads this
      ensures r.Some? <==> key in storage
      ensures r.Some? ==> r.value == storage[key]
    {
      if key in storage then Some(storage[key]) else None
    }

    /** `delete this.#storage[key]`: deleting a missing own key does nothing. */
    method RemoveItem(key: string)
      requires Valid()
      modifies this
      ensures Valid()
      ensures storage == old(storage) - {key}
      ensures order == Without(old(order), key)
    {
      storage := storage - {key};
      order := Without(order, key);
    }

    /** `this.#storage = {}`. */
    method Clear()
      modifies this
      ensures Valid() && storage == map[] && order == []
    {
      storage := map[];
      order := [];
    }
  }

  /** A fresh storage holds nothing: its length is 0 and no key is listed. */
  method FreshIsEmpty(index: int, key: string) returns (length: nat, k: Option<string>, item: Option<string>)
    ensures length == 0 && k == None && item == None
  {
    var s := new MockLocalStorage();
    length := s.Length();
    k := s.Key(index);
    item := s.GetOwnItem(key);
  }

  /** `setItem` then `getItem` returns the value; setting the same key again keeps the length. */
  method SetThenGet(key: string, v1: string, v2: string) returns (first: Option<string>, second: Option<string>, sameLength: bool)
    requires key != "__proto__"
    ensures first == Some(v1) && second == Some(v2) && sameLength
  {
    var s := new MockLocalStorage();
    s.SetItem(key, v1);
    first := s.GetOwnItem(key);
    var before := s.Length();
    s.SetItem(key, v2);
    second := s.GetOwnItem(key);
    sameLength := s.Length() == before;
  }

  /** An empty string is stored and returned as such, not as `null`. */
  method EmptyStringIsKept(key: string) returns (item: Option<string>)
    requires key != "__proto__"
    ensures item == Some("")
  {
    var s := new MockLocalStorage();
    s.SetItem(key, "");
    item := s.GetOwnItem(key);
  }

  /** `removeItem` deletes only its key, and `clear` deletes every key. */
  method RemoveThenClear(k1: string, k2: string, v1: string, v2: string)
    returns (removed: Option<string>, kept: Option<string>, lengthAfterClear: nat, afterClear: Option<string>)
    requires k1 != k2 && k1 != "__proto__" && k2 != "__proto__"
    ensures removed == None && kept == Some(v2) && lengthAfterClear == 0 && afterClear == None
  {
    var s := new MockLocalStorage();
    s.SetItem(k1, v1);
    s.SetItem(k2, v2);
    s.RemoveItem(k1);
    removed := s.GetOwnItem(k1);
    kept := s.GetOwnItem(k2);
    s.Clear();
    lengthAfterClear := s.Length();
    afterClear := s.GetOwnItem(k2);
  }

  /** Without index-like keys, `key(i)` is the `i`-th key in creation order. */
  lemma KeyFollowsOrder(st: MockLocalStorage, i: int)
    requires st.Valid()
    requires forall j :: 0 <= j < |st.order| ==> !IsArrayIndex(st.order[j])
    ensures st.Key(i) == if 0 <= i < |st.order| then Some(st.order[i]) else None
  {
    SameSize(st.storage, st.order);
    ObjectKeysInsertionOrder(st.order);
  }

  /** The own keys and the creation order list the same keys, so there are as many of each. */
  lemma SameSize(storage: map<string, string>, order: seq<string>)
    requires (forall k :: k in storage <==> k in order) && Distinct(order)
    ensures |storage| == |order|
  {
    DistinctCardinality(order);
    assert storage.Keys == set k | k in order;
  }

  /**
   * Keys created as `b`, `1`, `a` are listed `1`, `b`, `a`: the index-like
   * key comes first, and the others keep their creation order.
   */
  method KeyAfterIndexKey(v: string) returns (k0: Option<string>, k1: Option<string>, k2: Option<string>)
    ensures k0 == Some("1") && k1 == Some("b") && k2 == Some("a")
  {
    var s := new MockLocalStorage();
    s.SetItem("b", v);
    s.SetItem("1", v);
    s.SetItem("a", v);
    assert s.order == ["b", "1"] + ["a"];
    ObjectKeysTwo();
    assert !IsDigit("a"[0]);
    ObjectKeysAppendName(["b", "1"], "a");
    k0 := s.Key(0);
    k1 := s.Key(1);
    k2 := s.Key(2);
  }

  lemma ObjectKeysTwo()
    ensures ObjectKeys(["b", "1"]) == ["1", "b"]
  {
    assert !IsDigit("b"[0]) && !IsArrayIndex("b");
    assert "1"[..0] == "";
    assert NumericValue("1") == 1 && IsArrayIndex("1");
    assert ["b", "1"][1..] == ["1"];
    assert IndexKeys(["b", "1"]) == ["1"] && NameKeys(["b", "1"]) == ["b"];
  }

  method KeysInInsertionOrder(k1: string, k2: string, v: string) returns (first: Option<string>, second: Option<string>, third: Option<string>)
    requires k1 != k2 && k1 != "__proto__" && k2 != "__proto__"
    requires !IsArrayIndex(k1) && !IsArrayIndex(k2)
    ensures first == Some(k1) && second == Some(k2) && third == None
  {
    var s := new MockLocalStorage();
    s.SetItem(k1, v);
    s.SetItem(k2, v);
    s.SetItem(k1, v);
    assert s.order == [k1, k2];
    KeyFollowsOrder(s, 0);
    KeyFollowsOrder(s, 1);
    KeyFollowsOrder(s, 2);
    first := s.Key(0);
    second := s.Key(1);
    third := s.Key(2);
  }

  /**
   * `getItem` of a name that `Object.prototype` provides does not give
   * `null` on a fresh storage: `getItem("toString")` yields the inherited
   * function, and `setItem("__proto__", v)` stores nothing.
   */
  method InheritedNamesLeak(v: string) returns (item: Property, protoItem: Property, length: nat)
    ensures item == Inherited("toString") && protoItem == Inherited("__proto__") && length == 0
  {
    var s := new MockLocalStorage();
    item := s.GetItem("toString");
    s.SetItem("__proto__", v);
    protoItem := s.GetItem("__proto__");
    length := s.Length();
  }
}
