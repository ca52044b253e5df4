/** A Schema: one node of the parser's tree turned into an object. Its tag name is kept as
    `_tagName`, every attribute `k` becomes a property `$k`, and its children are folded
    into it according to the classification of their names; the children no rule handles
    stay, in document order, as `_tagValue`. */
module Schemas {
  import opened Strs
  import opened Js
  import opened JsonText
  import Coerce
  import R = SchemaRules

  /** `this.constructor.name` of a class a Schema is built as; an object whose prototype was
      replaced is no such class. */
  function ClassName(c: Cls): string
    requires !c.Reprototyped?
  {
    match c
    case PlainObject => "Object"
    case SchemaClass => "Schema"
    case VastClass => "Vast"
    case AdClass => "Ad"
    case CreativeClass => "Creative"
    case MediaFileClass => "MediaFile"
    case AdsClass => "Ads"
    case CreativesClass => "Creatives"
    case MediaFilesClass => "MediaFiles"
    case TrackingEventsClass => "Trackingevents"
    case VideoClicksClass => "VideoClicks"
  }

  /** `schema.tagName()` */
  function TagName(s: Value): Value {
    Prop(s, "_tagName")
  }

  /** `schema.tagValue()` */
  function TagValue(s: Value): Value {
    Prop(s, "_tagValue")
  }

  /** The property a child named `name` is stored under: `$name`. */
  function FieldOf(name: Value): string {
    "$" + ToStr(name)
  }

  /** The rule a constructed child falls under. The sets hold texts only, so a child whose
      name is not a text falls under no rule. */
  function RuleOf(kid: Value): R.Rule {
    var name := TagName(kid);
    if name.Str? then R.Classify(name.s) else R.AsChild
  }

  /** A child no rule consumes: it stays in `_tagValue`. */
  predicate Unconsumed(kid: Value) {
    RuleOf(kid) == R.AsChild
  }

  predicate IsMany(kid: Value) {
    TagName(kid).Str? && TagName(kid).s in R.KeyValueMany
  }

  // ---------------------------------------------------------------- construction

  /** `new C(json, expected)` for a Schema class `C`: `expected == ""` stands for the
      default `false` (no name is expected). */
  function Construct(json: Value, cls: Cls, expected: string): (r: Result<Value>)
    requires IsSchemaClass(cls)
    ensures r.Ok? ==> r.value.Obj? && r.value.cls == cls && DistinctKeys(r.value.props)
    decreases json, 2
    ensures NoVastError(r)
  {
    if !IsObject(json) then Err(SchemaError(NotAnObject(TypeOf(json))))
    else
      var s :- if json.Obj? && IsSchemaClass(json.cls) then Ok(Obj(cls, Assign([], json.props))) else Define(json, cls);
      CheckName(s, cls, expected)
  }

  /** `_validateExpectedName`: the loose comparison `name != this.tagName()`. */
  function CheckName(s: Value, cls: Cls, expected: string): (r: Result<Value>)
    requires IsSchemaClass(cls)
    ensures r.Ok? ==> r.value == s
    ensures r.Err? ==> r.error == SchemaError(UnexpectedName(ClassName(cls), expected, ToStr(TagName(s))))
  {
    if expected != "" && !Coerce.LooseEq(Str(expected), TagName(s)) then
      Err(SchemaError(UnexpectedName(ClassName(cls), expected, ToStr(TagName(s)))))
    else Ok(s)
  }

  /** The name a JSON node announces: its first own key, `""` when it has none. */
  function FirstKey(json: Value): string {
    var keys := OwnKeys(json);
    if |keys| > 0 then keys[0] else ""
  }

  /** `_define(json)`: tag name, attributes, then the value. */
  function Define(json: Value, cls: Cls): (r: Result<Value>)
    requires IsObject(json)
    ensures r.Ok? ==> r.value.Obj? && r.value.cls == cls && DistinctKeys(r.value.props)
    decreases json, 1
    ensures NoVastError(r)
  {
    var tag := FirstKey(json);
    if tag == "" then Err(SchemaError(NoTagName(Serialize(json))))
    else
      var node := Prop(json, tag);
      PropBelow(json, tag);
      if node.Undefined? || node.Null? then Err(TypeError)
      else
        var attrs := Prop(node, "attributes");
        if !Truthy(attrs) then Err(SchemaError(NoAttributes(tag)))
        else
          Fill(AddAttributes([("_tagName", Str(tag))], attrs, OwnKeys(attrs)), node, cls)
  }

  /** `_addTagValue(json)`: a list value is folded, any other value is kept as it is. */
  function Fill(ps: Props, node: Value, cls: Cls): (r: Result<Value>)
    requires DistinctKeys(ps)
    ensures r.Ok? ==> r.value.Obj? && r.value.cls == cls && DistinctKeys(r.value.props)
    decreases node, 1
    ensures NoVastError(r)
  {
    var value := Prop(node, "value");
    if value.Arr? then
      assert node.Obj? || node.Arr?;
      PropBelow(node, "value");
      var kids :- Children(value, 0);
      var st := Fold(ps, kids);
      Ok(Obj(cls, Put(st.props, "_tagValue", Arr(st.children))))
    else Ok(Obj(cls, Put(ps, "_tagValue", value)))
  }

  /** `new Schema(child)` for every element of the value list, in order; the first
      failure is the one thrown. */
  function Children(value: Value, i: nat): (r: Result<seq<Value>>)
    requires value.Arr? && i <= |value.items|
    ensures r.Ok? ==> |r.value| == |value.items| - i
    decreases value, 0, |value.items| - i
    ensures NoVastError(r)
  {
    if i == |value.items| then Ok([])
    else
      var kid :- Construct(value.items[i], SchemaClass, "");
      var rest :- Children(value, i + 1);
      Ok([kid] + rest)
  }

  /** A property read on an object or array yields a part of it, or `undefined`. */
  lemma {:induction false} PropBelow(v: Value, k: string)
    requires v.Obj? || v.Arr?
    ensures Prop(v, k) == Undefined || Prop(v, k) < v
  {
    if v.Obj? {
      var i := Find(v.props, k);
      if i >= 0 { assert v.props[i] in v.props; }
    }
  }

  /** `_addTagAttributes`: `this['$' + k] = attributes[k]` for every key, in order. */
  function AddAttributes(ps: Props, attrs: Value, keys: seq<string>): (r: Props)
    requires DistinctKeys(ps)
    ensures DistinctKeys(r)
    decreases |keys|
  {
    if |keys| == 0 then ps
    else AddAttributes(Put(ps, "$" + keys[0], Prop(attrs, keys[0])), attrs, keys[1..])
  }

  // ---------------------------------------------------------------- folding the children

  /** The properties built so far and the children no rule consumed (`_value`). */
  datatype FoldState = FoldState(props: Props, children: seq<Value>)

  /** `_extend(schema, true)`: every own property whose key does not start with `_`. */
  function CopyPublic(ps: Props, src: Value, keys: seq<string>): (r: Props)
    requires DistinctKeys(ps)
    ensures DistinctKeys(r)
    decreases |keys|
  {
    if |keys| == 0 then ps
    else
      var next := if StartsWith(keys[0], "_") then ps else Put(ps, keys[0], Prop(src, keys[0]));
      CopyPublic(next, src, keys[1..])
  }

  /** One iteration of the fold in `_addTagValue`, for an already constructed child. */
  function Step(st: FoldState, kid: Value): (r: FoldState)
    requires DistinctKeys(st.props)
    ensures DistinctKeys(r.props)
  {
    var name := TagName(kid);
    var field := FieldOf(name);
    var ps := if IsMany(kid) && !Get(st.props, field).Arr? then Put(st.props, field, Arr([])) else st.props;
    match RuleOf(kid)
    case AsKeyValue =>
      var current := Get(ps, field);
      var v := TagValue(kid);
      FoldState(Put(ps, field, if current.Arr? && Truthy(v) then Arr(current.items + [v]) else v), st.children)
    case AsExtendDirect =>
      FoldState(CopyPublic(Put(ps, "$type", name), kid, OwnKeys(kid)), st.children)
    case AsExtendCollection =>
      FoldState(Put(Put(ps, "$type", name), "$list", TagValue(kid)), st.children)
    case AsChild =>
      FoldState(ps, st.children + [kid])
  }

  /** The fold over the constructed children, in document order. */
  function Fold(ps: Props, kids: seq<Value>): (r: FoldState)
    requires DistinctKeys(ps)
    ensures DistinctKeys(r.props)
  {
    if |kids| == 0 then FoldState(ps, [])
    else Step(Fold(ps, kids[..|kids| - 1]), kids[|kids| - 1])
  }
}

module SchemaFacts {
  import opened Strs
  import opened Js
  import opened JsonText
  import Coerce
  import R = SchemaRules
  import opened Schemas

  // ---------------------------------------------------------------- refusals

  /** Anything but an object or array is refused with the type the language reports. */
  lemma {:induction false} NotAnObjectRefused(json: Value, cls: Cls, expected: string)
    requires IsSchemaClass(cls) && !IsObject(json)
    ensures Construct(json, cls, expected) == Err(SchemaError(NotAnObject(TypeOf(json))))
  {
  }

  /** An object without a (non-empty) first key has no tag name. */
  lemma {:induction false} NoTagNameRefused(json: Value, cls: Cls, expected: string)
    requires IsSchemaClass(cls) && IsObject(json) && !(json.Obj? && IsSchemaClass(json.cls)) && FirstKey(json) == ""
    ensures Construct(json, cls, expected) == Err(SchemaError(NoTagName(Serialize(json))))
  {
  }

  /** A node whose `attributes` is falsy is refused, naming the tag. */
  lemma {:induction false} NoAttributesRefused(json: Value, cls: Cls, expected: string)
    requires IsSchemaClass(cls) && IsObject(json) && !(json.Obj? && IsSchemaClass(json.cls)) && FirstKey(json) != ""
    requires var node := Prop(json, FirstKey(json));
      !node.Undefined? && !node.Null? && !Truthy(Prop(node, "attributes"))
    ensures Construct(json, cls, expected) == Err(SchemaError(NoAttributes(FirstKey(json))))
  {
  }

  /** A node whose name differs from the one the class expects is refused after it has been
      built; with no expectation, or the expected name, the built Schema is the result. */
  lemma {:induction false} ExpectedName(json: Value, cls: Cls, expected: string)
    requires IsSchemaClass(cls) && IsObject(json) && !(json.Obj? && IsSchemaClass(json.cls)) && Define(json, cls).Ok?
    ensures expected != "" && expected != FirstKey(json) ==>
      Construct(json, cls, expected) == Err(SchemaError(UnexpectedName(ClassName(cls), expected, FirstKey(json))))
    ensures expected == "" || expected == FirstKey(json) ==> Construct(json, cls, expected) == Define(json, cls)
  {
    DefineTagName(json, cls);
    var s := Define(json, cls).value;
    Coerce.LooseEqStrings(expected, FirstKey(json));
    assert Construct(json, cls, expected) == CheckName(s, cls, expected);
  }

  // ---------------------------------------------------------------- the tag name

  /** A defined Schema's `tagName()` is the node's first key. */
  lemma {:induction false} DefineTagName(json: Value, cls: Cls)
    requires IsObject(json) && Define(json, cls).Ok?
    ensures TagName(Define(json, cls).value) == Str(FirstKey(json))
  {
    var tag := FirstKey(json);
    var node := Prop(json, tag);
    var attrs := Prop(node, "attributes");
    var ps0: Props := [("_tagName", Str(tag))];
    assert Get(ps0, "_tagName") == Str(tag) by { assert Find(ps0, "_tagName") == 0; }
    var ps := AddAttributes(ps0, attrs, OwnKeys(attrs));
    AttributesKeepPrivate(ps0, attrs, OwnKeys(attrs), "_tagName");
    DefineIsFill(json, cls);
    FillKeepsName(ps, node, cls);
  }

  /** A defined Schema is the node's value filled into its attributes. */
  lemma {:induction false} DefineIsFill(json: Value, cls: Cls)
    requires IsObject(json) && Define(json, cls).Ok?
    ensures var tag := FirstKey(json);
      var attrs := Prop(Prop(json, tag), "attributes");
      Define(json, cls) == Fill(AddAttributes([("_tagName", Str(tag))], attrs, OwnKeys(attrs)), Prop(json, tag), cls)
  {
  }

  /** Filling in the value leaves `_tagName` alone. */
  lemma {:induction false} FillKeepsName(ps: Props, node: Value, cls: Cls)
    requires DistinctKeys(ps) && Fill(ps, node, cls).Ok?
    ensures Get(Fill(ps, node, cls).value.props, "_tagName") == Get(ps, "_tagName")
  {
    var value := Prop(node, "value");
    if value.Arr? {
      var kids := Children(value, 0).value;
      var st := Fold(ps, kids);
      FoldKeepsPrivate(ps, kids, "_tagName");
      assert Fill(ps, node, cls).value.props == Put(st.props, "_tagValue", Arr(st.children));
    }
  }

  // ---------------------------------------------------------------- attributes

  /** Attribute `k` ends up as the property `$k` holding the attribute's value. */
  lemma {:induction false} AttributesCopied(ps: Props, attrs: Value, keys: seq<string>, k: string)
    requires DistinctKeys(ps) && k in keys
    ensures Get(AddAttributes(ps, attrs, keys), "$" + k) == Prop(attrs, k)
    decreases |keys|
  {
    var next := Put(ps, "$" + keys[0], Prop(attrs, keys[0]));
    if k in keys[1..] {
      AttributesCopied(next, attrs, keys[1..], k);
    } else {
      forall j | 0 <= j < |keys[1..]| ensures "$" + keys[1..][j] != "$" + k {
        assert keys[1..][j] != k;
        assert ("$" + keys[1..][j])[1..] == keys[1..][j];
        assert ("$" + k)[1..] == k;
      }
      AddAttributesOther(next, attrs, keys[1..], "$" + k);
    }
  }

  /** A property no attribute key maps to is left alone. */
  lemma {:induction false} AddAttributesOther(ps: Props, attrs: Value, keys: seq<string>, f: string)
    requires DistinctKeys(ps)
    requires forall j :: 0 <= j < |keys| ==> "$" + keys[j] != f
    ensures Get(AddAttributes(ps, attrs, keys), f) == Get(ps, f)
    decreases |keys|
  {
    if |keys| > 0 {
      var next := Put(ps, "$" + keys[0], Prop(attrs, keys[0]));
      assert forall j :: 0 <= j < |keys[1..]| ==> keys[1..][j] == keys[j + 1];
      AddAttributesOther(next, attrs, keys[1..], f);
    }
  }

  /** The properties starting with `_` are never an attribute's. */
  lemma {:induction false} AttributesKeepPrivate(ps: Props, attrs: Value, keys: seq<string>, f: string)
    requires DistinctKeys(ps) && StartsWith(f, "_")
    ensures Get(AddAttributes(ps, attrs, keys), f) == Get(ps, f)
  {
    forall j | 0 <= j < |keys| ensures "$" + keys[j] != f {
      assert ("$" + keys[j])[0] == '$';
    }
    AddAttributesOther(ps, attrs, keys, f);
  }

  // ---------------------------------------------------------------- the fold

  /** `_extend(schema, true)` copies every public property of the child. */
  lemma {:induction false} CopyPublicGet(ps: Props, src: Value, keys: seq<string>, k: string)
    requires DistinctKeys(ps) && k in keys && !StartsWith(k, "_")
    ensures Get(CopyPublic(ps, src, keys), k) == Prop(src, k)
    decreases |keys|
  {
    var next := if StartsWith(keys[0], "_") then ps else Put(ps, keys[0], Prop(src, keys[0]));
    if k in keys[1..] {
      CopyPublicGet(next, src, keys[1..], k);
    } else {
      CopyPublicOther(next, src, keys[1..], k);
    }
  }

  /** ... and changes nothing else. */
  lemma {:induction false} CopyPublicOther(ps: Props, src: Value, keys: seq<string>, f: string)
    requires DistinctKeys(ps) && (f !in keys || StartsWith(f, "_"))
    ensures Get(CopyPublic(ps, src, keys), f) == Get(ps, f)
    decreases |keys|
  {
    if |keys| > 0 {
      var next := if StartsWith(keys[0], "_") then ps else Put(ps, keys[0], Prop(src, keys[0]));
      CopyPublicOther(next, src, keys[1..], f);
    }
  }

  /** A key/value or collection child that may not repeat: its value replaces the field,
      unless the field is already a list and the value is truthy, when it is appended. */
  lemma {:induction false} StepKeyValue(st: FoldState, kid: Value)
    requires DistinctKeys(st.props) && RuleOf(kid) == R.AsKeyValue && !IsMany(kid)
    ensures var r := Step(st, kid);
      var field := FieldOf(TagName(kid));
      var current := Get(st.props, field);
      var v := TagValue(kid);
      && Get(r.props, field) == (if current.Arr? && Truthy(v) then Arr(current.items + [v]) else v)
      && (forall f :: f != field ==> Get(r.props, f) == Get(st.props, f))
      && r.children == st.children
  {
  }

  /** A repeatable child (`impression`, `error`): the field becomes a list if it is not one,
      a truthy value is appended to it, and a falsy value replaces the whole list. */
  lemma {:induction false} StepMany(st: FoldState, kid: Value)
    requires DistinctKeys(st.props) && IsMany(kid)
    ensures var r := Step(st, kid);
      var field := FieldOf(TagName(kid));
      var current := Get(st.props, field);
      var v := TagValue(kid);
      var list := if current.Arr? then current.items else [];
      && Get(r.props, field) == (if Truthy(v) then Arr(list + [v]) else v)
      && (forall f :: f != field ==> Get(r.props, f) == Get(st.props, f))
      && r.children == st.children
  {
    R.ManyAreKeyValue();
  }

  /** A directly extending child (`inline`, `wrapper`, `linear`): the parent's `$type`
      becomes the child's name, then every public property of the child is copied over. */
  lemma {:induction false} StepExtendDirect(st: FoldState, kid: Value)
    requires DistinctKeys(st.props) && RuleOf(kid) == R.AsExtendDirect
    ensures var r := Step(st, kid);
      && (forall k :: k in OwnKeys(kid) && !StartsWith(k, "_") ==> Get(r.props, k) == Prop(kid, k))
      && ("$type" !in OwnKeys(kid) ==> Get(r.props, "$type") == TagName(kid))
      && (forall f :: f !in OwnKeys(kid) && f != "$type" ==> Get(r.props, f) == Get(st.props, f))
      && r.children == st.children
  {
    R.ManyAreKeyValue();
    var t := Put(st.props, "$type", TagName(kid));
    forall k | k in OwnKeys(kid) && !StartsWith(k, "_")
      ensures Get(CopyPublic(t, kid, OwnKeys(kid)), k) == Prop(kid, k)
    {
      CopyPublicGet(t, kid, OwnKeys(kid), k);
    }
    forall f | f !in OwnKeys(kid)
      ensures Get(CopyPublic(t, kid, OwnKeys(kid)), f) == Get(t, f)
    {
      CopyPublicOther(t, kid, OwnKeys(kid), f);
    }
  }

  /** A child kept as an opaque collection (`companionads`, `nonlinearads`): `$type` is its
      name and `$list` its raw value. */
  lemma {:induction false} StepExtendCollection(st: FoldState, kid: Value)
    requires DistinctKeys(st.props) && RuleOf(kid) == R.AsExtendCollection
    ensures var r := Step(st, kid);
      && Get(r.props, "$type") == TagName(kid)
      && Get(r.props, "$list") == TagValue(kid)
      && (forall f :: f != "$type" && f != "$list" ==> Get(r.props, f) == Get(st.props, f))
      && r.children == st.children
  {
    R.ManyAreKeyValue();
  }

  /** Any other child is kept, after the ones kept before it, and the properties stay. */
  lemma {:induction false} StepChild(st: FoldState, kid: Value)
    requires DistinctKeys(st.props) && RuleOf(kid) == R.AsChild
    ensures Step(st, kid) == FoldState(st.props, st.children + [kid])
  {
    R.ManyAreKeyValue();
  }

  /** The fold never touches a property starting with `_`. */
  lemma {:induction false} FoldKeepsPrivate(ps: Props, kids: seq<Value>, f: string)
    requires DistinctKeys(ps) && StartsWith(f, "_")
    ensures Get(Fold(ps, kids).props, f) == Get(ps, f)
  {
    if |kids| > 0 {
      var st := Fold(ps, kids[..|kids| - 1]);
      var kid := kids[|kids| - 1];
      FoldKeepsPrivate(ps, kids[..|kids| - 1], f);
      StepKeepsPrivate(st, kid, f);
    }
  }

  lemma {:induction false} StepKeepsPrivate(st: FoldState, kid: Value, f: string)
    requires DistinctKeys(st.props) && StartsWith(f, "_")
    ensures Get(Step(st, kid).props, f) == Get(st.props, f)
  {
    var name := TagName(kid);
    var field := FieldOf(name);
    var ps := if IsMany(kid) && !Get(st.props, field).Arr? then Put(st.props, field, Arr([])) else st.props;
    assert f[0] == '_' && field[0] == '$';
    assert Get(ps, f) == Get(st.props, f);
    match RuleOf(kid)
    case AsKeyValue =>
    case AsExtendDirect =>
      var t := Put(ps, "$type", name);
      assert Step(st, kid).props == CopyPublic(t, kid, OwnKeys(kid));
      CopyPublicOther(t, kid, OwnKeys(kid), f);
    case AsExtendCollection =>
      assert Step(st, kid).props == Put(Put(ps, "$type", name), "$list", TagValue(kid));
    case AsChild =>
      assert Step(st, kid).props == ps;
  }

  /** The elements of `s` that satisfy `p`, in order. */
  function Filter(s: seq<Value>, p: Value -> bool): (r: seq<Value>)
    ensures |r| <= |s|
  {
    if |s| == 0 then [] else (if p(s[0]) then [s[0]] else []) + Filter(s[1..], p)
  }

  /** What the filter keeps is what satisfies the predicate. */
  lemma {:induction false} FilterMembers(s: seq<Value>, p: Value -> bool)
    ensures forall x :: x in Filter(s, p) <==> x in s && p(x)
    decreases |s|
  {
    if |s| > 0 {
      FilterMembers(s[1..], p);
      assert forall x :: x in s <==> x == s[0] || x in s[1..];
    }
  }

  lemma {:induction false} FilterAppend(s: seq<Value>, x: Value, p: Value -> bool)
    ensures Filter(s + [x], p) == Filter(s, p) + (if p(x) then [x] else [])
    decreases |s|
  {
    if |s| > 0 {
      assert (s + [x])[1..] == s[1..] + [x];
      FilterAppend(s[1..], x, p);
    } else {
      assert s + [x] == [x];
    }
  }

  /** `_tagValue` holds exactly the children no rule consumed, in document order. */
  lemma {:induction false} FoldChildren(ps: Props, kids: seq<Value>)
    requires DistinctKeys(ps)
    ensures Fold(ps, kids).children == Filter(kids, Unconsumed)
  {
    if |kids| > 0 {
      var init := kids[..|kids| - 1];
      var kid := kids[|kids| - 1];
      var st := Fold(ps, init);
      var extra := if Unconsumed(kid) then [kid] else [];
      assert Fold(ps, kids).children == st.children + extra by {
        assert Fold(ps, kids) == Step(st, kid);
        StepChildren(st, kid);
      }
      assert Filter(kids, Unconsumed) == Filter(init, Unconsumed) + extra by {
        FilterLast(kids, Unconsumed);
      }
      FoldChildren(ps, init);
    }
  }

  lemma {:induction false} FilterLast(s: seq<Value>, p: Value -> bool)
    requires |s| > 0
    ensures Filter(s, p) == Filter(s[..|s| - 1], p) + (if p(s[|s| - 1]) then [s[|s| - 1]] else [])
  {
    assert s[..|s| - 1] + [s[|s| - 1]] == s;
    FilterAppend(s[..|s| - 1], s[|s| - 1], p);
  }

  lemma {:induction false} StepChildren(st: FoldState, kid: Value)
    requires DistinctKeys(st.props)
    ensures Step(st, kid).children == st.children + (if Unconsumed(kid) then [kid] else [])
  {
    R.ManyAreKeyValue();
  }
}
