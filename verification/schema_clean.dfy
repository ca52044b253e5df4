/** `schema.clean()`: the projection of a Schema that the builder serializes. Properties whose
    key starts with `_` are dropped, a collection becomes the list of its items, and the
    Schemas inside a list are cleaned too, except those holding an opaque `$list`. */
module SchemaClean {
  import opened Strs
  import opened Js
  import opened Schemas
  import opened SchemaQueries

  /** `schema.clone(true)` */
  function Clean(v: Value): (r: Result<Value>)
    requires v.Obj?
    ensures r.Ok? ==> r.value.Obj? && r.value.cls == v.cls
    decreases v, 2
  {
    var ps :- CleanProps(v, 0);
    Ok(Obj(v.cls, FromPairs(ps)))
  }

  /** The cleaned public properties from position `i` on, in order. */
  function CleanProps(v: Value, i: nat): (r: Result<Props>)
    requires v.Obj? && i <= |v.props|
    decreases v, 1, |v.props| - i
  {
    if i == |v.props| then Ok([])
    else
      var key := v.props[i].0;
      var x := v.props[i].1;
      assert v.props[i] in v.props;
      if StartsWith(key, "_") then CleanProps(v, i + 1)
      else
        var y :- CleanField(x);
        var rest :- CleanProps(v, i + 1);
        Ok([(key, y)] + rest)
  }

  /** One public property: `null` and `undefined` have no `all` to look up; a collection is
      spread into a list; a list has its Schemas cleaned. */
  function CleanField(x: Value): (r: Result<Value>)
    ensures r.Ok? && x.Arr? ==> r.value.Arr? && |r.value.items| == |x.items|
    ensures r.Ok? && !x.Arr? && !(x.Obj? && IsCollectionClass(x.cls)) ==> r.value == x
    ensures x.Undefined? || x.Null? ==> r == Err(TypeError)
    decreases x, 1
  {
    if x.Undefined? || x.Null? then Err(TypeError)
    else if x.Obj? && IsCollectionClass(x.cls) then
      var items := Prop(x, "$items");
      PropBelow(x, "$items");
      match items
      case Arr(_) => var cleaned :- CleanItems(items, 0); Ok(Arr(cleaned))
      case Str(s) => Ok(Arr(seq(|s|, k requires 0 <= k < |s| => Str([s[k]]))))
      case _ => Err(TypeError)
    else if x.Arr? then
      var cleaned :- CleanItems(x, 0);
      Ok(Arr(cleaned))
    else Ok(x)
  }

  /** The elements of a list from position `j` on: a Schema without a truthy `$list` is
      cleaned, anything else is kept. */
  function CleanItems(list: Value, j: nat): (r: Result<seq<Value>>)
    requires list.Arr? && j <= |list.items|
    ensures r.Ok? ==> |r.value| == |list.items| - j
    decreases list, 0, |list.items| - j
  {
    if j == |list.items| then Ok([])
    else
      var item := list.items[j];
      var y :- if IsSchema(item) && !Truthy(Prop(item, "$list")) then Clean(item) else Ok(item);
      var rest :- CleanItems(list, j + 1);
      Ok([y] + rest)
  }

  // ---------------------------------------------------------------- properties

  /** The keys a cleaned property list holds: exactly the public keys from `i` on. */
  lemma {:induction false} CleanPropsKeys(v: Value, i: nat)
    requires v.Obj? && i <= |v.props| && CleanProps(v, i).Ok?
    ensures forall k :: Has(CleanProps(v, i).value, k) <==>
      !StartsWith(k, "_") && exists j | i <= j < |v.props| :: v.props[j].0 == k
    decreases |v.props| - i
  {
    if i < |v.props| {
      CleanPropsKeys(v, i + 1);
      var rest := CleanProps(v, i + 1).value;
      var r := CleanProps(v, i).value;
      forall k ensures Has(r, k) <==> !StartsWith(k, "_") && exists j | i <= j < |v.props| :: v.props[j].0 == k {
        if Has(r, k) && !StartsWith(v.props[i].0, "_") && k != v.props[i].0 {
          var q :| 0 <= q < |r| && r[q].0 == k;
          assert rest[q - 1].0 == k;
        }
        if !StartsWith(k, "_") && (exists j | i <= j < |v.props| :: v.props[j].0 == k) && k != v.props[i].0 {
          assert Has(rest, k);
          var q :| 0 <= q < |rest| && rest[q].0 == k;
          if !StartsWith(v.props[i].0, "_") { assert r[q + 1].0 == k; }
        }
        if k == v.props[i].0 && !StartsWith(k, "_") { assert r[0].0 == k; }
      }
    }
  }

  /** Successive assignment creates exactly the keys of the pairs. */
  lemma {:induction false} FromPairsHas(pairs: Props, k: string)
    ensures Has(FromPairs(pairs), k) <==> Has(pairs, k)
  {
    if |pairs| > 0 {
      var init, last := pairs[..|pairs| - 1], pairs[|pairs| - 1];
      FromPairsHas(init, k);
      assert FromPairs(pairs) == Put(FromPairs(init), last.0, last.1);
      HasInitLast(pairs, k);
    }
  }

  /** A key of a non-empty list is the last pair's or one of the others'. */
  lemma {:induction false} HasInitLast(pairs: Props, k: string)
    requires |pairs| > 0
    ensures Has(pairs, k) <==> pairs[|pairs| - 1].0 == k || Has(pairs[..|pairs| - 1], k)
  {
    var init := pairs[..|pairs| - 1];
    if Has(pairs, k) && pairs[|pairs| - 1].0 != k {
      var q :| 0 <= q < |pairs| && pairs[q].0 == k;
      assert init[q].0 == k;
    }
    if Has(init, k) {
      var q :| 0 <= q < |init| && init[q].0 == k;
      assert pairs[q].0 == k;
    }
  }

  /** `clean()` keeps exactly the properties whose key does not start with `_`. */
  lemma {:induction false} CleanKeys(v: Value)
    requires v.Obj? && Clean(v).Ok?
    ensures forall k :: Has(Clean(v).value.props, k) <==> !StartsWith(k, "_") && Has(v.props, k)
  {
    CleanPropsKeys(v, 0);
    var ps := CleanProps(v, 0).value;
    forall k ensures Has(FromPairs(ps), k) <==> !StartsWith(k, "_") && Has(v.props, k) {
      FromPairsHas(ps, k);
    }
  }

  /** A collection comes out as the list of its cleaned items, in order. */
  lemma {:induction false} CleanCollection(x: Value)
    requires x.Obj? && IsCollectionClass(x.cls) && Prop(x, "$items").Arr?
    ensures CleanField(x).Ok? <==> CleanItems(Prop(x, "$items"), 0).Ok?
    ensures CleanField(x).Ok? ==> CleanField(x).value.Arr? && |CleanField(x).value.items| == |Prop(x, "$items").items|
    ensures CleanItems(Prop(x, "$items"), 0).Ok? ==> CleanField(x) == Ok(Arr(CleanItems(Prop(x, "$items"), 0).value))
  {
  }

  /** In a cleaned list, a Schema holding an opaque `$list`, and anything that is no Schema,
      stays as it was; every other Schema is replaced by its cleaned form. */
  lemma {:induction false} CleanItemsAt(list: Value, j: nat, k: nat)
    requires list.Arr? && j <= k < |list.items| && CleanItems(list, j).Ok?
    ensures var item := list.items[k];
      var out := CleanItems(list, j).value[k - j];
      if IsSchema(item) && !Truthy(Prop(item, "$list")) then Clean(item) == Ok(out) else out == item
    decreases k - j
  {
    CleanItemsStep(list, j);
    if j < k {
      CleanItemsAt(list, j + 1, k);
      assert CleanItems(list, j).value[k - j] == CleanItems(list, j + 1).value[k - (j + 1)];
    }
  }

  lemma {:induction false} CleanItemsStep(list: Value, j: nat)
    requires list.Arr? && j < |list.items| && CleanItems(list, j).Ok?
    ensures CleanItems(list, j + 1).Ok?
    ensures CleanItems(list, j).value[1..] == CleanItems(list, j + 1).value
    ensures var item := list.items[j];
      var out := CleanItems(list, j).value[0];
      if IsSchema(item) && !Truthy(Prop(item, "$list")) then Clean(item) == Ok(out) else out == item
  {
  }
}
