/** The read side of a Schema: its children by tag name, its `$type`, and the
    case-insensitive type test. */
module SchemaQueries {
  import opened Strs
  import opened Js
  import opened Schemas

  /** `x instanceof Schema` */
  predicate IsSchema(v: Value) {
    v.Obj? && IsSchemaClass(v.cls)
  }

  /** The names `new Set(...[name])` holds: a text stands for itself, a list for its
      elements; anything else is not iterable. */
  function NameSet(name: Value): (r: Result<seq<Value>>)
    ensures r.Ok? <==> name.Str? || name.Arr?
    ensures name.Str? ==> r == Ok([name])
    ensures NoVastError(r)
  {
    match name
    case Str(_) => Ok([name])
    case Arr(items) => Ok(items)
    case _ => Err(TypeError)
  }

  /** The children whose `tagName()` is one of `names`, in order; calling `tagName()` on
      anything that is not a Schema fails. */
  function WithNames(items: seq<Value>, names: seq<Value>): (r: Result<seq<Value>>)
    ensures NoVastError(r)
  {
    if |items| == 0 then Ok([])
    else if !IsSchema(items[0]) then Err(TypeError)
    else
      var rest :- WithNames(items[1..], names);
      Ok(if TagName(items[0]) in names then [items[0]] + rest else rest)
  }

  /** `schema.valuesWithTagName(name)`: a falsy name is refused; a value that is no list
      gives `false`; otherwise the children carrying one of the names. */
  function ValuesWithTagName(s: Value, name: Value): (r: Result<Value>)
    ensures NoVastError(r)
  {
    if !Truthy(name) then Err(SchemaError(NameMissing))
    else if !TagValue(s).Arr? then Ok(Bool(false))
    else
      var names :- NameSet(name);
      var kept :- WithNames(TagValue(s).items, names);
      Ok(Arr(kept))
  }

  /** `schema.valueWithTagName(name)`: the first such child, or `false`. */
  function ValueWithTagName(s: Value, name: Value): (r: Result<Value>)
  {
    var found :- ValuesWithTagName(s, name);
    if found.Arr? && |found.items| > 0 then Ok(found.items[0]) else Ok(Bool(false))
  }

  /** `schema.type()`: `$type`, or `false` when that is falsy. */
  function Type(s: Value): (r: Value)
    ensures Truthy(r) <==> Truthy(Prop(s, "$type"))
    ensures Truthy(r) ==> r == Prop(s, "$type")
  {
    var t := Prop(s, "$type");
    if Truthy(t) then t else Bool(false)
  }

  /** `schema.hasType(name)`: false without a type; a type that is no text has no
      `toLowerCase` and fails. */
  function HasType(s: Value, name: string): (r: Result<bool>)
    ensures NoVastError(r)
  {
    var t := Type(s);
    if !Truthy(t) then Ok(false)
    else if t.Str? then Ok(Lower(t.s) == Lower(name))
    else Err(TypeError)
  }

  // ---------------------------------------------------------------- properties

  /** `WithNames` fails exactly when some child is not a Schema; otherwise it keeps exactly
      the children carrying one of the names. */
  lemma {:induction false} WithNamesSpec(items: seq<Value>, names: seq<Value>)
    ensures WithNames(items, names).Ok? <==> forall i :: 0 <= i < |items| ==> IsSchema(items[i])
    ensures WithNames(items, names).Ok? ==>
      var r := WithNames(items, names).value;
      && |r| <= |items|
      && forall x :: x in r <==> x in items && TagName(x) in names
    decreases |items|
  {
    if |items| > 0 {
      WithNamesSpec(items[1..], names);
      assert forall x :: x in items <==> x == items[0] || x in items[1..];
      if !IsSchema(items[0]) {
        assert !(forall i :: 0 <= i < |items| ==> IsSchema(items[i]));
      } else {
        assert (forall i :: 0 <= i < |items| ==> IsSchema(items[i])) <==>
          (forall i :: 0 <= i < |items[1..]| ==> IsSchema(items[1..][i]));
      }
    }
  }

  /** When every child carries a wanted name, the whole list comes back in order. */
  lemma {:induction false} WithNamesAll(items: seq<Value>, names: seq<Value>)
    requires forall i :: 0 <= i < |items| ==> IsSchema(items[i]) && TagName(items[i]) in names
    ensures WithNames(items, names) == Ok(items)
    decreases |items|
  {
    if |items| > 0 {
      WithNamesAll(items[1..], names);
      assert [items[0]] + items[1..] == items;
    }
  }

  /** A falsy name is refused before anything else; a Schema whose value is no list answers
      `false` for any other name. */
  lemma {:induction false} ValuesWithTagNameRefusals(s: Value, name: Value)
    ensures !Truthy(name) ==> ValuesWithTagName(s, name) == Err(SchemaError(NameMissing))
    ensures Truthy(name) && !TagValue(s).Arr? ==> ValuesWithTagName(s, name) == Ok(Bool(false))
  {
  }

  /** `valueWithTagName` yields the first child carrying the name, when there is one. */
  lemma {:induction false} ValueWithTagNameFirst(s: Value, name: string, i: nat)
    requires name != "" && TagValue(s).Arr?
    requires var items := TagValue(s).items;
      && i < |items|
      && (forall j :: 0 <= j < |items| ==> IsSchema(items[j]))
      && TagName(items[i]) == Str(name)
      && (forall j :: 0 <= j < i ==> TagName(items[j]) != Str(name))
    ensures ValueWithTagName(s, Str(name)) == Ok(TagValue(s).items[i])
  {
    var items := TagValue(s).items;
    WithNamesSkip(items, [Str(name)], i);
  }

  lemma {:induction false} WithNamesSkip(items: seq<Value>, names: seq<Value>, i: nat)
    requires i < |items| && (forall j :: 0 <= j < |items| ==> IsSchema(items[j]))
    requires TagName(items[i]) in names && forall j :: 0 <= j < i ==> TagName(items[j]) !in names
    ensures WithNames(items, names).Ok?
    ensures |WithNames(items, names).value| > 0 && WithNames(items, names).value[0] == items[i]
    decreases i
  {
    WithNamesSpec(items, names);
    if i > 0 {
      WithNamesSkip(items[1..], names, i - 1);
    }
  }

  /** `hasType` does not depend on the case of either side. */
  lemma {:induction false} HasTypeCaseInsensitive(s: Value, a: string, b: string)
    requires Lower(a) == Lower(b)
    ensures HasType(s, a) == HasType(s, b)
  {
  }

  /** A Schema whose `$type` is a text has the type of that text in any case mix, and no
      other. */
  lemma {:induction false} HasTypeOwn(s: Value, name: string)
    requires Prop(s, "$type").Str? && Prop(s, "$type").s != ""
    ensures HasType(s, name) == Ok(Lower(Prop(s, "$type").s) == Lower(name))
    ensures HasType(s, Prop(s, "$type").s) == Ok(true)
  {
  }
}
