/** `Collection`: the ordered item list behind `Ads`, `Creatives` and `MediaFiles`. Items are
    kept sorted by their `sequence()`, with a stable sort, after every addition. */
module Collections {
  import opened Strs
  import opened Js
  import opened Schemas
  import opened SchemaQueries

  /** `item.sequence()` of an Ad or a Creative: `None` for the `false` it returns when
      `$sequence` is falsy, otherwise `parseInt($sequence)`. */
  function SequenceOf(item: Value): (r: Option<Number>)
    ensures r.None? <==> !Truthy(Prop(item, "$sequence"))
  {
    var raw := Prop(item, "$sequence");
    if !Truthy(raw) then None else Some(ParseIntValue(raw))
  }

  /** The number the comparator of `sortBySequence` subtracts: `false` counts as 0; an item
      without a `sequence` method compares equal to everything. */
  function SortKey(item: Value): int {
    if item.Obj? && (item.cls == AdClass || item.cls == CreativeClass) then
      match SequenceOf(item)
      case None => 0
      case Some(NaN) => 0
      case Some(Int(i)) => i
    else 0
  }

  // ---------------------------------------------------------------- stable sort

  predicate Sorted(s: seq<Value>, key: Value -> int) {
    forall i, j :: 0 <= i < j < |s| ==> key(s[i]) <= key(s[j])
  }

  /** `x` placed after every element whose key is not greater than its own. */
  function Insert(s: seq<Value>, x: Value, key: Value -> int): (r: seq<Value>)
    ensures |r| == |s| + 1
  {
    if |s| == 0 then [x]
    else if key(s[|s| - 1]) <= key(x) then s + [x]
    else Insert(s[..|s| - 1], x, key) + [s[|s| - 1]]
  }

  /** The stable sort of `s` by `key` (what `Array.prototype.sort` guarantees since
      ECMAScript 2019 for a consistent comparator). */
  function Sort(s: seq<Value>, key: Value -> int): (r: seq<Value>)
    ensures |r| == |s|
  {
    if |s| == 0 then [] else Insert(Sort(s[..|s| - 1], key), s[|s| - 1], key)
  }

  /** The elements with key `k`, in order. */
  function WithKey(s: seq<Value>, key: Value -> int, k: int): seq<Value> {
    if |s| == 0 then [] else WithKey(s[..|s| - 1], key, k) + (if key(s[|s| - 1]) == k then [s[|s| - 1]] else [])
  }

  lemma {:induction false} InsertMultiset(s: seq<Value>, x: Value, key: Value -> int)
    ensures multiset(Insert(s, x, key)) == multiset(s) + multiset{x}
  {
    if |s| > 0 && key(s[|s| - 1]) > key(x) {
      var init := s[..|s| - 1];
      InsertMultiset(init, x, key);
      assert s == init + [s[|s| - 1]];
    }
  }

  lemma {:induction false} InsertSorted(s: seq<Value>, x: Value, key: Value -> int)
    requires Sorted(s, key)
    ensures Sorted(Insert(s, x, key), key)
  {
    if |s| == 0 {
    } else if key(s[|s| - 1]) <= key(x) {
      var r := s + [x];
      forall i, j | 0 <= i < j < |r| ensures key(r[i]) <= key(r[j]) {
        if j == |r| - 1 && i < |s| - 1 { assert key(s[i]) <= key(s[|s| - 1]); }
      }
    } else {
      var init := s[..|s| - 1];
      var last := s[|s| - 1];
      assert Sorted(init, key);
      InsertSorted(init, x, key);
      forall i | 0 <= i < |init| ensures key(init[i]) <= key(last) {
        assert key(s[i]) <= key(s[|s| - 1]);
      }
      InsertBelow(init, x, key, key(last));
    }
  }

  /** Inserting keeps every key under a bound that all keys already respect. */
  lemma {:induction false} InsertBelow(s: seq<Value>, x: Value, key: Value -> int, b: int)
    requires key(x) <= b && forall i :: 0 <= i < |s| ==> key(s[i]) <= b
    ensures forall i :: 0 <= i < |Insert(s, x, key)| ==> key(Insert(s, x, key)[i]) <= b
  {
    if |s| > 0 && key(s[|s| - 1]) > key(x) {
      InsertBelow(s[..|s| - 1], x, key, b);
    }
  }

  lemma {:induction false} InsertStable(s: seq<Value>, x: Value, key: Value -> int, k: int)
    requires Sorted(s, key)
    ensures WithKey(Insert(s, x, key), key, k) == WithKey(s, key, k) + (if key(x) == k then [x] else [])
  {
    if |s| == 0 {
      assert WithKey([x], key, k) == WithKey([], key, k) + (if key(x) == k then [x] else []);
    } else if key(s[|s| - 1]) <= key(x) {
      WithKeySnoc(s, x, key, k);
    } else {
      var init := s[..|s| - 1];
      assert Sorted(init, key);
      InsertStable(init, x, key, k);
      InsertStableBefore(s, x, key, k);
    }
  }

  /** The step where `x` goes before the last element, whose key is larger. */
  lemma {:induction false} InsertStableBefore(s: seq<Value>, x: Value, key: Value -> int, k: int)
    requires |s| > 0 && key(s[|s| - 1]) > key(x)
    requires WithKey(Insert(s[..|s| - 1], x, key), key, k) == WithKey(s[..|s| - 1], key, k) + (if key(x) == k then [x] else [])
    ensures WithKey(Insert(s, x, key), key, k) == WithKey(s, key, k) + (if key(x) == k then [x] else [])
  {
    var init := s[..|s| - 1];
    var last := s[|s| - 1];
    WithKeySnoc(Insert(init, x, key), last, key, k);
    var mine := if key(x) == k then [x] else [];
    var theirs := if key(last) == k then [last] else [];
    assert mine + theirs == theirs + mine;
  }

  lemma {:induction false} WithKeySnoc(s: seq<Value>, x: Value, key: Value -> int, k: int)
    ensures WithKey(s + [x], key, k) == WithKey(s, key, k) + (if key(x) == k then [x] else [])
  {
    assert (s + [x])[..|s|] == s;
  }

  /** Inserting into a sorted list keeps it sorted, adds exactly the one element, and puts it
      after every element that shares its key. */
  lemma {:induction false} InsertSpec(s: seq<Value>, x: Value, key: Value -> int)
    requires Sorted(s, key)
    ensures Sorted(Insert(s, x, key), key)
    ensures multiset(Insert(s, x, key)) == multiset(s) + multiset{x}
    ensures forall k :: WithKey(Insert(s, x, key), key, k) == WithKey(s, key, k) + (if key(x) == k then [x] else [])
  {
    InsertSorted(s, x, key);
    InsertMultiset(s, x, key);
    forall k ensures WithKey(Insert(s, x, key), key, k) == WithKey(s, key, k) + (if key(x) == k then [x] else []) {
      InsertStable(s, x, key, k);
    }
  }

  /** The sort orders by key, loses and adds nothing, and keeps the relative order of the
      elements that share a key (stability). */
  lemma {:induction false} SortSpec(s: seq<Value>, key: Value -> int)
    ensures Sorted(Sort(s, key), key)
    ensures multiset(Sort(s, key)) == multiset(s)
    ensures forall k :: WithKey(Sort(s, key), key, k) == WithKey(s, key, k)
  {
    if |s| > 0 {
      var init := s[..|s| - 1];
      SortSpec(init, key);
      InsertSpec(Sort(init, key), s[|s| - 1], key);
      assert s == init + [s[|s| - 1]];
      assert multiset(s) == multiset(init) + multiset{s[|s| - 1]};
    }
  }

  /** Sorting what is already sorted changes nothing. */
  lemma {:induction false} SortOfSorted(s: seq<Value>, key: Value -> int)
    requires Sorted(s, key)
    ensures Sort(s, key) == s
  {
    if |s| > 0 {
      var init := s[..|s| - 1];
      assert Sorted(init, key);
      SortOfSorted(init, key);
      assert s == init + [s[|s| - 1]];
    }
  }

  /** When no two elements' keys differ, the sort keeps insertion order. */
  lemma {:induction false} SortConstantKey(s: seq<Value>, key: Value -> int)
    requires forall i, j :: 0 <= i < |s| && 0 <= j < |s| ==> key(s[i]) == key(s[j])
    ensures Sort(s, key) == s
  {
    SortOfSorted(s, key);
  }

  // ---------------------------------------------------------------- the collection

  /** `collection.add(item)`: pushed, then the whole list re-sorted. */
  function Add(items: seq<Value>, item: Value): (r: seq<Value>)
    ensures |r| == |items| + 1
  {
    Sort(items + [item], SortKey)
  }

  /** Adding to a sorted collection places the new item after every item whose sequence is
      not greater, and keeps the others in their order. */
  lemma {:induction false} AddToSorted(items: seq<Value>, item: Value)
    requires Sorted(items, SortKey)
    ensures Add(items, item) == Insert(items, item, SortKey)
    ensures Sorted(Add(items, item), SortKey)
    ensures multiset(Add(items, item)) == multiset(items) + multiset{item}
  {
    assert (items + [item])[..|items|] == items;
    SortOfSorted(items, SortKey);
    InsertSpec(items, item, SortKey);
  }

  /** The items of a collection built by adding one element at a time. */
  function AddAll(items: seq<Value>): (r: seq<Value>)
    ensures |r| == |items|
  {
    if |items| == 0 then [] else Add(AddAll(items[..|items| - 1]), items[|items| - 1])
  }

  /** Adding one at a time, re-sorting after each, is the stable sort of the whole list. */
  lemma {:induction false} AddAllIsSort(items: seq<Value>)
    ensures AddAll(items) == Sort(items, SortKey)
  {
    if |items| > 0 {
      var init := items[..|items| - 1];
      AddAllIsSort(init);
      SortSpec(init, SortKey);
      AddToSorted(AddAll(init), items[|items| - 1]);
    }
  }

  /** `collection.total()` and `collection.isEmpty()` */
  function Total(items: seq<Value>): nat { |items| }

  predicate IsEmpty(items: seq<Value>) { Total(items) == 0 }

  /** `collection.one(condition)`: the first item the condition accepts, or `false`. */
  function One(items: seq<Value>, condition: Value -> bool): (r: Value)
    ensures (forall i :: 0 <= i < |items| ==> !condition(items[i])) ==> r == Bool(false)
    ensures (exists i :: 0 <= i < |items| && condition(items[i])) ==> r in items && condition(r)
  {
    if |items| == 0 then Bool(false)
    else if condition(items[0]) then items[0]
    else One(items[1..], condition)
  }

  /** `one` picks the earliest accepted item. */
  lemma {:induction false} OneFirst(items: seq<Value>, condition: Value -> bool, i: nat)
    requires i < |items| && condition(items[i]) && forall j :: 0 <= j < i ==> !condition(items[j])
    ensures One(items, condition) == items[i]
    decreases i
  {
    if i > 0 {
      OneFirst(items[1..], condition, i - 1);
    }
  }

  /** `collection.byIndex(index)`: the item there, or `false` when there is none (or it is
      falsy). */
  function ByIndex(items: seq<Value>, index: int): (r: Value)
    ensures 0 <= index < |items| && Truthy(items[index]) ==> r == items[index]
    ensures !(0 <= index < |items|) ==> r == Bool(false)
  {
    if 0 <= index < |items| && Truthy(items[index]) then items[index] else Bool(false)
  }

  /** `collection.first()` */
  function First(items: seq<Value>): (r: Value)
    ensures |items| > 0 && Truthy(items[0]) ==> r == items[0]
    ensures |items| == 0 ==> r == Bool(false)
  {
    ByIndex(items, 0)
  }

  /** `collection.replaceByIndex(index, item)`: that position takes (a clone of) the item;
      the list is not re-sorted. An index past the end grows the list to reach it, and
      the positions skipped read as `undefined`. */
  function ReplaceByIndex(items: seq<Value>, index: nat, item: Value): (r: seq<Value>)
    ensures |r| == if index < |items| then |items| else index + 1
    ensures r[index] == item
    ensures forall j :: 0 <= j < |items| && j != index ==> r[j] == items[j]
    ensures forall j :: |items| <= j < index ==> r[j] == Undefined
  {
    if index < |items| then items[index := item]
    else items + seq(index - |items|, _ => Undefined) + [item]
  }

  /** Reading back the replaced position finds the item when it is truthy, and `byIndex`
      of every other position is as before. */
  lemma {:induction false} ReplaceThenByIndex(items: seq<Value>, index: nat, item: Value, j: nat)
    ensures ByIndex(ReplaceByIndex(items, index, item), index) == (if Truthy(item) then item else Bool(false))
    ensures j != index && j < |items| ==> ByIndex(ReplaceByIndex(items, index, item), j) == ByIndex(items, j)
    ensures |items| <= j < index ==> ByIndex(ReplaceByIndex(items, index, item), j) == Bool(false)
  {
  }

  // ---------------------------------------------------------------- withType

  /** What `withType` returns: the live item list when no type is asked for, otherwise a
      sparse array (a `None` is a hole). */
  datatype Typed = Live(items: seq<Value>) | Sparse(slots: seq<Option<Value>>)

  /** `collection.withType(type, condition)`: every item whose type matches,
      case-insensitively, and for which the condition returns something truthy, is stored
      at its own index as what the condition returned. `condition` defaults to the
      identity. */
  function WithType(items: seq<Value>, wanted: Value, condition: (Value, int) -> Value): (r: Result<Typed>)
    ensures !Truthy(wanted) ==> r == Ok(Live(items))
    ensures r.Ok? && Truthy(wanted) ==> r.value.Sparse? && |r.value.slots| <= |items|
  {
    if !Truthy(wanted) then Ok(Live(items))
    else if !wanted.Str? then Err(TypeError)
    else
      var slots :- Matching(items, Lower(wanted.s), condition, 0);
      Ok(Sparse(slots))
  }

  /** The sparse result for the items from `i` on: its length is one past the last filled
      index, as for an array filled by index assignment. */
  function Matching(items: seq<Value>, wanted: string, condition: (Value, int) -> Value, i: nat): (r: Result<seq<Option<Value>>>)
    requires i <= |items|
    ensures r.Ok? ==> |r.value| <= |items| - i
    ensures r.Ok? && |r.value| > 0 ==> r.value[|r.value| - 1].Some?
    decreases |items| - i
  {
    if i == |items| then Ok([])
    else
      var item := items[i];
      var has :- if IsSchema(item) then HasType(item, wanted) else Err(TypeError);
      var result := condition(item, i);
      var rest :- Matching(items, wanted, condition, i + 1);
      if has && Truthy(result) then Ok([Some(result)] + rest)
      else if |rest| == 0 then Ok([])
      else Ok([None] + rest)
  }

  /** Slot `k` of the sparse result holds what the condition returned for item `k` exactly
      when that item has the wanted type and the condition's answer is truthy. */
  lemma {:induction false} MatchingAt(items: seq<Value>, wanted: string, condition: (Value, int) -> Value, i: nat, k: nat)
    requires i <= k < |items| && Matching(items, wanted, condition, i).Ok?
    ensures IsSchema(items[k]) && HasType(items[k], wanted).Ok?
    ensures var slots := Matching(items, wanted, condition, i).value;
      var hit := HasType(items[k], wanted).value && Truthy(condition(items[k], k));
      && (hit ==> k - i < |slots| && slots[k - i] == Some(condition(items[k], k)))
      && (!hit ==> k - i >= |slots| || slots[k - i].None?)
    decreases k - i
  {
    if i < k {
      MatchingAt(items, wanted, condition, i + 1, k);
    }
  }

  /** Asking for a type always yields an array, which is truthy even when no item matched:
      the sparse result is never `false`. */
  lemma {:induction false} WithTypeIsArray(items: seq<Value>, wanted: string, condition: (Value, int) -> Value)
    requires wanted != "" && WithType(items, Str(wanted), condition).Ok?
    ensures WithType(items, Str(wanted), condition).value.Sparse?
  {
  }

  // ---------------------------------------------------------------- construction

  /** The factory applied to every item in order; the first failure is the result. */
  function MapAll(items: seq<Value>, make: Value -> Result<Value>): (r: Result<seq<Value>>)
    ensures r.Ok? ==> |r.value| == |items|
    ensures (forall x :: NoVastError(make(x))) ==> NoVastError(r)
  {
    if |items| == 0 then Ok([])
    else
      var init :- MapAll(items[..|items| - 1], make);
      var last :- make(items[|items| - 1]);
      Ok(init + [last])
  }

  /** The list `items.forEach` walks: a falsy argument counts as `[]`, a collection walks
      its own items, and anything else has no `forEach`. */
  function Walked(items: Value): (r: Result<seq<Value>>)
    ensures !Truthy(items) ==> r == Ok([])
    ensures items.Arr? ==> r == Ok(items.items)
    ensures NoVastError(r)
  {
    if !Truthy(items) then Ok([])
    else if items.Arr? then Ok(items.items)
    else if items.Obj? && IsCollectionClass(items.cls) && Prop(items, "$items").Arr? then Ok(Prop(items, "$items").items)
    else Err(TypeError)
  }

  /** `new Collection(items, schema)` with class `cls`: every item made by the factory and
      added in turn, then the whole list sorted by sequence once more. */
  function Build(items: Value, cls: Cls, make: Value -> Result<Value>): (r: Result<Value>)
    ensures r.Ok? ==> r.value.Obj? && r.value.cls == cls && Prop(r.value, "$items").Arr?
    ensures (forall x :: NoVastError(make(x))) ==> NoVastError(r)
  {
    var list :- Walked(items);
    var made :- MapAll(list, make);
    Ok(Obj(cls, [("$items", Arr(Sort(AddAll(made), SortKey)))]))
  }

  /** The items of a collection object, or none when it holds no list. */
  function ItemsOf(c: Value): seq<Value> {
    var items := Prop(c, "$items");
    if items.Arr? then items.items else []
  }

  /** `MapAll` succeeds exactly when the factory accepts every item, and then holds the
      factory's result for each item at the item's position. */
  lemma {:induction false} MapAllSpec(items: seq<Value>, make: Value -> Result<Value>)
    ensures MapAll(items, make).Ok? <==> forall i :: 0 <= i < |items| ==> make(items[i]).Ok?
    ensures MapAll(items, make).Ok? ==>
      forall i :: 0 <= i < |items| ==> MapAll(items, make).value[i] == make(items[i]).value
  {
    if |items| > 0 {
      var init := items[..|items| - 1];
      MapAllSpec(init, make);
      assert forall i :: 0 <= i < |init| ==> init[i] == items[i];
    }
  }

  /** A built collection holds the made items sorted by sequence, stably: the same items,
      ascending keys, and the items of any one key in the order they came. */
  lemma {:induction false} BuildSpec(items: Value, cls: Cls, make: Value -> Result<Value>)
    requires Walked(items).Ok? && MapAll(Walked(items).value, make).Ok?
    ensures Build(items, cls, make).Ok?
    ensures var made := MapAll(Walked(items).value, make).value;
      var built := ItemsOf(Build(items, cls, make).value);
      && built == Sort(made, SortKey)
      && Sorted(built, SortKey)
      && multiset(built) == multiset(made)
      && forall k :: WithKey(built, SortKey, k) == WithKey(made, SortKey, k)
  {
    var made := MapAll(Walked(items).value, make).value;
    AddAllIsSort(made);
    SortSpec(made, SortKey);
    SortOfSorted(Sort(made, SortKey), SortKey);
  }

  /** A falsy argument builds an empty collection. */
  lemma {:induction false} BuildEmpty(items: Value, cls: Cls, make: Value -> Result<Value>)
    requires !Truthy(items)
    ensures Build(items, cls, make) == Ok(Obj(cls, [("$items", Arr([]))]))
  {
  }

  /** Items whose sequence key is the same throughout keep the order the factory made them in. */
  lemma {:induction false} BuildKeepsOrder(items: Value, cls: Cls, make: Value -> Result<Value>)
    requires Walked(items).Ok? && MapAll(Walked(items).value, make).Ok?
    requires var made := MapAll(Walked(items).value, make).value;
      forall i :: 0 <= i < |made| ==> SortKey(made[i]) == 0
    ensures ItemsOf(Build(items, cls, make).value) == MapAll(Walked(items).value, make).value
  {
    var made := MapAll(Walked(items).value, make).value;
    BuildSpec(items, cls, make);
    SortConstantKey(made, SortKey);
  }

  // ---------------------------------------------------------------- filtering with a throwing test

  /** `items.filter(test)` with a test that may throw: the first failure propagates. */
  function TryFilter(items: seq<Value>, test: Value -> Result<bool>): (r: Result<seq<Value>>)
  {
    if |items| == 0 then Ok([])
    else
      var keep :- test(items[0]);
      var rest :- TryFilter(items[1..], test);
      Ok(if keep then [items[0]] + rest else rest)
  }

  /** The filter succeeds exactly when the test answers on every item, and keeps exactly
      the items it accepts. */
  lemma {:induction false} TryFilterSpec(items: seq<Value>, test: Value -> Result<bool>)
    ensures TryFilter(items, test).Ok? <==> forall i :: 0 <= i < |items| ==> test(items[i]).Ok?
    ensures TryFilter(items, test).Ok? ==>
      forall x :: x in TryFilter(items, test).value <==> x in items && test(x) == Ok(true)
  {
    if |items| > 0 {
      TryFilterSpec(items[1..], test);
      assert forall i :: 1 <= i < |items| ==> items[i] == items[1..][i - 1];
      assert items == [items[0]] + items[1..];
    }
  }

  /** The filter keeps the order of the items: filtering two runs is filtering each. */
  lemma {:induction false} TryFilterAppend(a: seq<Value>, b: seq<Value>, test: Value -> Result<bool>)
    requires TryFilter(a, test).Ok? && TryFilter(b, test).Ok?
    ensures TryFilter(a + b, test).Ok?
    ensures TryFilter(a + b, test).value == TryFilter(a, test).value + TryFilter(b, test).value
  {
    if |a| > 0 {
      TryFilterAppend(a[1..], b, test);
      var c := a + b;
      assert c[0] == a[0] && c[1..] == a[1..] + b;
      var x, y := TryFilter(a[1..], test).value, TryFilter(b, test).value;
      TryFilterHead(a, test);
      TryFilterHead(c, test);
      if test(a[0]).value {
        calc {
          TryFilter(c, test).value;
          [a[0]] + (x + y);
          ([a[0]] + x) + y;
        }
      }
    } else {
      assert a + b == b;
    }
  }

  lemma {:induction false} TryFilterHead(a: seq<Value>, test: Value -> Result<bool>)
    requires |a| > 0
    ensures test(a[0]).Ok? && TryFilter(a[1..], test).Ok? ==>
      TryFilter(a, test) == Ok(if test(a[0]).value then [a[0]] + TryFilter(a[1..], test).value
                               else TryFilter(a[1..], test).value)
  {
  }
}
