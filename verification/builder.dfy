/** The builder rules: the registry from a snapshot name to the factory class whose
    prototype a rebuilt object takes, with the three collection names flagged. */
module BuilderRules {
  import opened Js

  /** One registry entry: the class and whether its type is `'collection'`. */
  datatype Entry = Entry(cls: Cls, collection: bool)

  /** `rules[name]` for the seven registered names. */
  function Lookup(name: string): (r: Option<Entry>)
    ensures r.Some? <==> name in {"vast", "ads", "ad", "creatives", "creative", "mediafiles", "mediafile"}
    ensures r.Some? ==> (r.value.collection <==> name in {"ads", "creatives", "mediafiles"})
  {
    match name
    case "vast" => Some(Entry(VastClass, false))
    case "ads" => Some(Entry(AdsClass, true))
    case "ad" => Some(Entry(AdClass, false))
    case "creatives" => Some(Entry(CreativesClass, true))
    case "creative" => Some(Entry(CreativeClass, false))
    case "mediafiles" => Some(Entry(MediaFilesClass, true))
    case "mediafile" => Some(Entry(MediaFileClass, false))
    case _ => None
  }

  /** Names that `rules[name]` finds on `Object.prototype`: each is truthy, but none has a
      `name` whose `prototype` is an object, so `Object.create` throws on it. */
  const Inherited: set<string> := {
    "constructor", "__proto__", "toString", "toLocaleString", "valueOf", "hasOwnProperty",
    "isPrototypeOf", "propertyIsEnumerable", "__defineGetter__", "__defineSetter__",
    "__lookupGetter__", "__lookupSetter__"
  }

  /** `name.slice(0, -1)`: the singular the builder uses for the elements of a collection. */
  function Singular(name: string): string {
    if |name| == 0 then "" else name[..|name| - 1]
  }

  // ---------------------------------------------------------------- properties

  /** Each collection name, singularised, is a registered name that is no collection, and
      the element class is the one its collection holds. */
  lemma {:induction false} SingularRegistered(name: string)
    requires Lookup(name).Some? && Lookup(name).value.collection
    ensures Lookup(Singular(name)).Some? && !Lookup(Singular(name)).value.collection
    ensures Lookup(name).value.cls == AdsClass ==> Lookup(Singular(name)).value.cls == AdClass
    ensures Lookup(name).value.cls == CreativesClass ==> Lookup(Singular(name)).value.cls == CreativeClass
    ensures Lookup(name).value.cls == MediaFilesClass ==> Lookup(Singular(name)).value.cls == MediaFileClass
  {
    if name == "ads" {
      assert Singular(name) == "ad";
    } else if name == "creatives" {
      assert Singular(name) == "creative";
    } else {
      assert Singular(name) == "mediafile";
    }
  }

  /** Each entry builds the class of its own name: collection classes for the collections,
      the factory classes for the rest. */
  lemma {:induction false} EntryClasses(name: string)
    requires Lookup(name).Some?
    ensures Lookup(name).value.collection <==> IsCollectionClass(Lookup(name).value.cls)
    ensures !Lookup(name).value.collection ==> IsSchemaClass(Lookup(name).value.cls)
  {
  }

  /** No registered name is inherited. */
  lemma {:induction false} RegisteredNotInherited(name: string)
    requires Lookup(name).Some?
    ensures name !in Inherited
  {
  }
}

/** `Builder`: a Vast to JSON text through `clean()`, and JSON text back to objects carrying
    the factory classes, rebuilt by name. */
module Builder {
  import opened Strs
  import opened Js
  import opened JsonText
  import opened SchemaClean
  import opened BuilderRules

  /** `Builder.toString(vast)` */
  function ToString(vast: Value): (r: Result<string>)
    ensures !(vast.Obj? && vast.cls == VastClass) ==> r.Err? && r.error.Failure?
    ensures r.Ok? ==> Clean(vast).Ok? && r.value == Serialize(Clean(vast).value)
  {
    if !(vast.Obj? && vast.cls == VastClass) then
      Err(Failure("Builder: tostring() expects a Vast, but got " + ToStr(vast) + "."))
    else
      var c :- Clean(vast);
      Ok(Serialize(c))
  }

  /** `Builder.toVast(stringified)` */
  function ToVast(stringified: Value): (r: Result<Value>)
    ensures !stringified.Str? ==> r.Err? && r.error.Failure?
    ensures r.Ok? ==> Parse(stringified.s).Ok? && r == Build("vast", Parse(stringified.s).value)
  {
    if !stringified.Str? then
      Err(Failure("Builder: toVast() expects a string, but got " + ToStr(stringified) + "."))
    else
      var json :- Parse(stringified.s);
      Build("vast", json)
  }

  /** `Builder._build(name, json)`: the first `$` of the name is dropped; an unregistered
      name hands the JSON back; a collection rebuilds each element of its list under the
      singular name; any other registered name copies the JSON's own properties and
      rebuilds every object-valued one under its own key. */
  function Build(name: string, json: Value): (r: Result<Value>)
    decreases json, 2
  {
    var n := ReplaceFirst(name, "$", "");
    if n in Inherited then Err(TypeError)
    else match Lookup(n)
      case None => Ok(json)
      case Some(entry) =>
        if entry.collection then
          if !json.Arr? then Err(TypeError)
          else
            var items :- BuildItems(Singular(n), json, 0);
            Ok(Obj(entry.cls, [("$items", Arr(items))]))
        else
          var ps :- BuildFields(json, 0);
          Ok(Obj(Prototype(entry.cls, json), ps))
  }

  /** The key `Object.assign` does not copy as an own property: assigning it runs the
      setter every object inherits from `Object.prototype`. */
  const ProtoKey := "__proto__"

  /** The class of the tag once `Object.assign` has run: a `__proto__` member that is an
      object or `null` replaces the prototype, and one of any other type is ignored. */
  function Prototype(cls: Cls, json: Value): (r: Cls)
    ensures !json.Obj? ==> r == cls
    ensures json.Obj? && TypeOf(Get(json.props, ProtoKey)) != "object" ==> r == cls
    ensures json.Obj? && Get(json.props, ProtoKey).Null? ==> r == Reprototyped(true)
    ensures json.Obj? && IsObject(Get(json.props, ProtoKey)) ==> r == Reprototyped(false)
  {
    if json.Obj? && TypeOf(Get(json.props, ProtoKey)) == "object" then
      Reprototyped(Get(json.props, ProtoKey).Null?)
    else cls
  }

  /** The elements of the list from `j` on, each rebuilt under `singular`. */
  function BuildItems(singular: string, list: Value, j: nat): (r: Result<seq<Value>>)
    requires list.Arr? && j <= |list.items|
    ensures r.Ok? ==> |r.value| == |list.items| - j
    decreases list, 1, |list.items| - j
  {
    if j == |list.items| then Ok([])
    else
      var y :- Build(singular, list.items[j]);
      var rest :- BuildItems(singular, list, j + 1);
      Ok([y] + rest)
  }

  /** The number of own properties `Object.assign` copies from `json`. */
  function FieldCount(json: Value): nat {
    match json
    case Obj(_, ps) => |ps|
    case Arr(items) => |items|
    case Str(s) => |s|
    case _ => 0
  }

  /** The own property at position `i`, as `Object.assign` copies it. */
  function FieldAt(json: Value, i: nat): (r: (string, Value))
    requires i < FieldCount(json)
    ensures r.1 < json || r.1.Str?
  {
    match json
    case Obj(_, ps) => assert ps[i] in ps; ps[i]
    case Arr(items) => (NatToString(i), items[i])
    case Str(s) => (NatToString(i), Str([s[i]]))
  }

  /** The own properties the tag receives from position `i` on: every one `Object.assign`
      copies except a `__proto__` member, which sets the prototype instead. */
  function Copied(json: Value, i: nat): (r: Props)
    requires i <= FieldCount(json)
    decreases FieldCount(json) - i
  {
    if i == FieldCount(json) then []
    else if FieldAt(json, i).0 == ProtoKey then Copied(json, i + 1)
    else [FieldAt(json, i)] + Copied(json, i + 1)
  }

  /** The tag's own properties from position `i` on, each object-valued one rebuilt under
      its key. */
  function BuildFields(json: Value, i: nat): (r: Result<Props>)
    requires i <= FieldCount(json)
    ensures r.Ok? ==> |r.value| == |Copied(json, i)|
    decreases json, 1, FieldCount(json) - i
  {
    if i == FieldCount(json) then Ok([])
    else
      var (key, x) := FieldAt(json, i);
      if key == ProtoKey then BuildFields(json, i + 1)
      else
        var y :- if IsObject(x) then Build(key, x) else Ok(x);
        var rest :- BuildFields(json, i + 1);
        Ok([(key, y)] + rest)
  }

  // ---------------------------------------------------------------- properties

  /** A name that is registered nowhere, once its first `$` is dropped, leaves the JSON as
      it is. */
  lemma {:induction false} BuildUnregistered(name: string, json: Value)
    requires var n := ReplaceFirst(name, "$", ""); Lookup(n).None? && n !in Inherited
    ensures Build(name, json) == Ok(json)
  {
  }

  /** A collection name needs a list and holds each element rebuilt under the singular
      name, in order. */
  lemma {:induction false} BuildCollection(name: string, json: Value)
    requires var n := ReplaceFirst(name, "$", ""); Lookup(n).Some? && Lookup(n).value.collection
    ensures !json.Arr? ==> Build(name, json) == Err(TypeError)
    ensures json.Arr? ==> (Build(name, json).Ok? <==> BuildItems(Singular(ReplaceFirst(name, "$", "")), json, 0).Ok?)
    ensures json.Arr? && Build(name, json).Ok? ==>
      var n := ReplaceFirst(name, "$", "");
      Build(name, json).value == Obj(Lookup(n).value.cls, [("$items", Arr(BuildItems(Singular(n), json, 0).value))])
  {
    RegisteredNotInherited(ReplaceFirst(name, "$", ""));
  }

  /** The rebuilt list fails exactly when an element fails, and holds each element
      rebuilt at its own position. */
  lemma {:induction false} BuildItemsSpec(singular: string, list: Value, j: nat)
    requires list.Arr? && j <= |list.items|
    ensures BuildItems(singular, list, j).Ok? <==>
      forall k :: j <= k < |list.items| ==> Build(singular, list.items[k]).Ok?
    ensures BuildItems(singular, list, j).Ok? ==>
      forall k :: j <= k < |list.items| ==> BuildItems(singular, list, j).value[k - j] == Build(singular, list.items[k]).value
  {
    BuildItemsOk(singular, list, j);
    BuildItemsValues(singular, list, j);
  }

  lemma {:induction false} BuildItemsOk(singular: string, list: Value, j: nat)
    requires list.Arr? && j <= |list.items|
    ensures BuildItems(singular, list, j).Ok? <==>
      forall k :: j <= k < |list.items| ==> Build(singular, list.items[k]).Ok?
    decreases |list.items| - j
  {
    if j < |list.items| {
      BuildItemsOk(singular, list, j + 1);
      BuildItemsStep(singular, list, j);
      if BuildItems(singular, list, j).Ok? {
        forall k | j <= k < |list.items| ensures Build(singular, list.items[k]).Ok? {
          if k > j {
            assert Build(singular, list.items[k]).Ok?;
          }
        }
      } else if Build(singular, list.items[j]).Ok? {
        assert BuildItems(singular, list, j + 1).Err?;
      }
    }
  }

  lemma {:induction false} BuildItemsValues(singular: string, list: Value, j: nat)
    requires list.Arr? && j <= |list.items|
    ensures BuildItems(singular, list, j).Ok? ==>
      forall k :: j <= k < |list.items| ==> Build(singular, list.items[k]) == Ok(BuildItems(singular, list, j).value[k - j])
    decreases |list.items| - j
  {
    if j < |list.items| {
      BuildItemsValues(singular, list, j + 1);
      BuildItemsStep(singular, list, j);
      var r, rest := BuildItems(singular, list, j), BuildItems(singular, list, j + 1);
      if r.Ok? {
        forall k | j <= k < |list.items| ensures Build(singular, list.items[k]) == Ok(r.value[k - j]) {
          if k > j {
            assert r.value[k - j] == rest.value[k - (j + 1)];
          }
        }
      }
    }
  }

  lemma {:induction false} BuildItemsStep(singular: string, list: Value, j: nat)
    requires list.Arr? && j < |list.items|
    ensures var r, head, rest := BuildItems(singular, list, j), Build(singular, list.items[j]), BuildItems(singular, list, j + 1);
      && (r.Ok? <==> head.Ok? && rest.Ok?)
      && (r.Ok? ==> r.value == [head.value] + rest.value)
  {
  }

  /** The tag receives, in order, every own property of the JSON but a `__proto__` member;
      an object-valued one is rebuilt under its key and any other is copied. */
  lemma {:induction false} BuildFieldsSpec(json: Value, i: nat)
    requires i <= FieldCount(json) && BuildFields(json, i).Ok?
    ensures var c, out := Copied(json, i), BuildFields(json, i).value;
      && |out| == |c|
      && forall p :: 0 <= p < |c| ==>
           var (key, x) := c[p];
           var (key', y) := out[p];
           && key' == key
           && (IsObject(x) ==> Build(key, x) == Ok(y))
           && (!IsObject(x) ==> y == x)
    decreases FieldCount(json) - i
  {
    if i < FieldCount(json) {
      if FieldAt(json, i).0 == ProtoKey {
        BuildFieldsSpec(json, i + 1);
      } else {
        BuildFieldsStep(json, i);
        BuildFieldsSpec(json, i + 1);
        var c, out := Copied(json, i), BuildFields(json, i).value;
        var c', rest := Copied(json, i + 1), BuildFields(json, i + 1).value;
        forall p | 0 < p < |c|
          ensures var (key, x) := c[p];
            var (key', y) := out[p];
            && key' == key
            && (IsObject(x) ==> Build(key, x) == Ok(y))
            && (!IsObject(x) ==> y == x)
        {
          assert c[p] == c'[p - 1];
          assert out[p] == rest[p - 1];
        }
      }
    }
  }

  lemma {:induction false} BuildFieldsStep(json: Value, i: nat)
    requires i < FieldCount(json) && FieldAt(json, i).0 != ProtoKey && BuildFields(json, i).Ok?
    ensures BuildFields(json, i + 1).Ok?
    ensures Copied(json, i) == [FieldAt(json, i)] + Copied(json, i + 1)
    ensures BuildFields(json, i).value[1..] == BuildFields(json, i + 1).value
    ensures var (key, x) := FieldAt(json, i);
      var (key', y) := BuildFields(json, i).value[0];
      && key' == key
      && (IsObject(x) ==> Build(key, x) == Ok(y))
      && (!IsObject(x) ==> y == x)
  {
  }

  /** The tag's own properties are the JSON's, in order, with a `__proto__` member left
      out: none of them is `__proto__`, each other field is among them, and each of them
      is a field. */
  lemma {:induction false} CopiedSpec(json: Value, i: nat)
    requires i <= FieldCount(json)
    ensures forall p :: 0 <= p < |Copied(json, i)| ==> Copied(json, i)[p].0 != ProtoKey
    ensures forall k :: i <= k < FieldCount(json) && FieldAt(json, k).0 != ProtoKey ==> FieldAt(json, k) in Copied(json, i)
    ensures forall e :: e in Copied(json, i) ==> exists k :: i <= k < FieldCount(json) && FieldAt(json, k) == e
    decreases FieldCount(json) - i
  {
    if i < FieldCount(json) {
      CopiedSpec(json, i + 1);
      var c := Copied(json, i + 1);
      if FieldAt(json, i).0 != ProtoKey {
        assert Copied(json, i) == [FieldAt(json, i)] + c;
        forall p | 0 < p < |Copied(json, i)| ensures Copied(json, i)[p].0 != ProtoKey {
          assert Copied(json, i)[p] == c[p - 1];
        }
      }
    }
  }

  /** Without a `__proto__` member from position `i` on, every field is copied, in order. */
  lemma {:induction false} CopiedAll(json: Value, i: nat)
    requires i <= FieldCount(json)
    requires forall k :: i <= k < FieldCount(json) ==> FieldAt(json, k).0 != ProtoKey
    ensures |Copied(json, i)| == FieldCount(json) - i
    ensures forall k :: i <= k < FieldCount(json) ==> Copied(json, i)[k - i] == FieldAt(json, k)
    decreases FieldCount(json) - i
  {
    if i < FieldCount(json) {
      CopiedAll(json, i + 1);
      var c := Copied(json, i + 1);
      assert Copied(json, i) == [FieldAt(json, i)] + c;
      forall k | i < k < FieldCount(json) ensures Copied(json, i)[k - i] == FieldAt(json, k) {
        assert Copied(json, i)[k - i] == c[k - (i + 1)];
      }
    }
  }

  /** Every key but `__proto__` reads the same on the tag as on the JSON object. */
  lemma {:induction false} CopiedGet(json: Value, i: nat, k: string)
    requires json.Obj? && i <= |json.props| && k != ProtoKey
    ensures Get(Copied(json, i), k) == Get(json.props[i..], k)
    decreases |json.props| - i
  {
    if i < |json.props| {
      CopiedGet(json, i + 1, k);
      var ps := json.props[i..];
      assert ps[1..] == json.props[i + 1..];
      assert FieldAt(json, i) == ps[0];
      if ps[0].0 != ProtoKey {
        var c := Copied(json, i);
        assert c == [ps[0]] + Copied(json, i + 1);
        assert c[1..] == Copied(json, i + 1);
        if ps[0].0 != k {
          FindTail(c, k);
          FindTail(ps, k);
        }
      } else {
        FindTail(ps, k);
      }
    }
  }

  /** A key other than the first is looked up in the rest of the list. */
  lemma {:induction false} FindTail(ps: Props, k: string)
    requires |ps| > 0 && ps[0].0 != k
    ensures Get(ps, k) == Get(ps[1..], k)
  {
  }

  /** A registered name that is no collection makes an object from the JSON's own fields,
      of its class unless a `__proto__` member replaced the prototype. */
  lemma {:induction false} BuildObject(name: string, json: Value)
    requires var n := ReplaceFirst(name, "$", ""); Lookup(n).Some? && !Lookup(n).value.collection
    ensures Build(name, json).Ok? <==> BuildFields(json, 0).Ok?
    ensures Build(name, json).Ok? ==>
      Build(name, json).value == Obj(Prototype(Lookup(ReplaceFirst(name, "$", "")).value.cls, json), BuildFields(json, 0).value)
  {
    RegisteredNotInherited(ReplaceFirst(name, "$", ""));
  }

  /** The rebuilt object never owns a `__proto__` property, whatever the JSON holds. */
  lemma {:induction false} ProtoNotOwn(name: string, json: Value)
    requires var n := ReplaceFirst(name, "$", ""); Lookup(n).Some? && !Lookup(n).value.collection
    requires Build(name, json).Ok?
    ensures !Has(Build(name, json).value.props, ProtoKey)
  {
    BuildObject(name, json);
    BuildFieldsSpec(json, 0);
    CopiedSpec(json, 0);
    var out := BuildFields(json, 0).value;
    forall p | 0 <= p < |out| ensures out[p].0 != ProtoKey {
      assert out[p].0 == Copied(json, 0)[p].0;
    }
  }

  /** A `__proto__` member: an object makes the tag an instance of no factory class, `null`
      leaves it without a prototype, and a number is ignored; in every case the tag owns no
      property of that name. */
  lemma {:induction false} ProtoMembers()
    ensures Build("vast", Obj(PlainObject, [(ProtoKey, Obj(PlainObject, []))])) == Ok(Obj(Reprototyped(false), []))
    ensures Build("vast", Obj(PlainObject, [(ProtoKey, Null)])) == Ok(Obj(Reprototyped(true), []))
    ensures Build("vast", Obj(PlainObject, [(ProtoKey, Num(1))])) == Ok(Obj(VastClass, []))
  {
    ProtoOnly(Obj(PlainObject, []));
    ProtoOnly(Null);
    ProtoOnly(Num(1));
  }

  lemma {:induction false} ProtoOnly(v: Value)
    ensures var json := Obj(PlainObject, [(ProtoKey, v)]);
      Build("vast", json) == Ok(Obj(Prototype(VastClass, json), []))
  {
    NoDollar("vast");
    var json := Obj(PlainObject, [(ProtoKey, v)]);
    assert FieldAt(json, 0).0 == ProtoKey;
    assert BuildFields(json, 0) == BuildFields(json, 1) == Ok([]);
  }

  lemma {:induction false} NoDollar(s: string)
    requires forall i :: 0 <= i < |s| ==> s[i] != '$'
    ensures ReplaceFirst(s, "$", "") == s
  {
    forall i | 0 <= i <= |s| ensures !OccursAt(s, "$", i) {
      if i < |s| {
        assert s[i..i + 1] == [s[i]];
      }
    }
  }

  /** Only the first `$` is dropped: `$ads` is the collection, and so is `ads`. */
  lemma {:induction false} DollarNames()
    ensures ReplaceFirst("$ads", "$", "") == "ads"
    ensures ReplaceFirst("ads", "$", "") == "ads"
    ensures ReplaceFirst("$$ads", "$", "") == "$ads"
  {
    assert IndexOf("$ads", "$") == 0 by { assert OccursAt("$ads", "$", 0); }
    assert IndexOf("$$ads", "$") == 0 by { assert OccursAt("$$ads", "$", 0); }
    assert !Contains("ads", "$") by {
      forall i | 0 <= i <= 3 ensures !OccursAt("ads", "$", i) {
        if i < 3 {
          assert "ads"[i..i + 1] == ["ads"[i]];
        }
      }
    }
  }
}
