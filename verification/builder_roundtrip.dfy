/** `Builder.toVast(Builder.toString(vast))`: the text of a cleaned Vast read back and
    rebuilt. The version, the ads in their order, and each ad's impression and error lists
    come back as they were. */
module BuilderRoundTrip {
  import opened Strs
  import opened Js
  import opened JsonText
  import opened JsonRoundTrip
  import opened Schemas
  import opened SchemaQueries
  import opened SchemaClean
  import opened BuilderRules
  import opened Builder
  import Collections

  // ---------------------------------------------------------------- reading a field back

  /** A key assigned once is read back with the value it was assigned. */
  lemma {:induction false} FromPairsGet(pairs: Props, k: string)
    requires DistinctKeys(pairs)
    ensures Get(FromPairs(pairs), k) == Get(pairs, k)
  {
    if |pairs| > 0 {
      var init := pairs[..|pairs| - 1];
      var last := pairs[|pairs| - 1];
      assert DistinctKeys(init);
      FromPairsGet(init, k);
      if last.0 == k {
        GetAt(pairs, |pairs| - 1);
      } else {
        assert Find(pairs, k) == Find(init, k) by { FindInit(pairs, k); }
      }
    }
  }

  /** Looking for a key other than the last one's is looking in the list without it. */
  lemma {:induction false} FindInit(pairs: Props, k: string)
    requires |pairs| > 0 && pairs[|pairs| - 1].0 != k
    ensures Find(pairs, k) == Find(pairs[..|pairs| - 1], k)
  {
    if |pairs| > 1 && pairs[0].0 != k {
      assert pairs[1..][..|pairs[1..]| - 1] == pairs[..|pairs| - 1][1..];
      FindInit(pairs[1..], k);
    }
  }

  /** The cleaned property list keeps distinct keys. */
  lemma {:induction false} CleanPropsDistinct(v: Value, i: nat)
    requires v.Obj? && DistinctKeys(v.props) && i <= |v.props| && CleanProps(v, i).Ok?
    ensures DistinctKeys(CleanProps(v, i).value)
    decreases |v.props| - i
  {
    if i < |v.props| {
      CleanPropsDistinct(v, i + 1);
      CleanPropsKeys(v, i + 1);
      var r := CleanProps(v, i).value;
      if !StartsWith(v.props[i].0, "_") {
        var rest := CleanProps(v, i + 1).value;
        forall p | 0 < p < |r| ensures r[p].0 != r[0].0 {
          assert r[p] == rest[p - 1];
          assert Has(rest, r[p].0);
        }
      }
    }
  }

  /** A public property comes out of the cleaned list as its cleaned field. */
  lemma {:induction false} CleanPropsGet(v: Value, i: nat, j: nat)
    requires v.Obj? && DistinctKeys(v.props) && i <= j < |v.props| && CleanProps(v, i).Ok?
    requires !StartsWith(v.props[j].0, "_")
    ensures CleanField(v.props[j].1).Ok?
    ensures Get(CleanProps(v, i).value, v.props[j].0) == CleanField(v.props[j].1).value
    decreases j - i
  {
    CleanPropsDistinct(v, i);
    var r := CleanProps(v, i).value;
    if i == j {
      GetAt(r, 0);
    } else {
      CleanPropsGet(v, i + 1, j);
      if !StartsWith(v.props[i].0, "_") {
        var rest := CleanProps(v, i + 1).value;
        assert r == [r[0]] + rest;
        assert r[0].0 == v.props[i].0 != v.props[j].0;
        FindTail(r, v.props[j].0);
      }
    }
  }

  /** A public property of a Schema is read back from its clean form as its cleaned field. */
  lemma {:induction false} CleanGet(v: Value, j: nat)
    requires v.Obj? && DistinctKeys(v.props) && j < |v.props| && Clean(v).Ok?
    requires !StartsWith(v.props[j].0, "_")
    ensures CleanField(v.props[j].1).Ok?
    ensures Get(Clean(v).value.props, v.props[j].0) == CleanField(v.props[j].1).value
  {
    CleanPropsGet(v, 0, j);
    CleanPropsDistinct(v, 0);
    FromPairsGet(CleanProps(v, 0).value, v.props[j].0);
  }

  /** Reading a serialized object back finds each defined member as its plain form. */
  lemma {:induction false} PlainPropsGet(ps: Props, k: string)
    requires DistinctKeys(ps) && !Get(ps, k).Undefined?
    ensures Get(PlainProps(ps), k) == Plain(Get(ps, k))
    decreases ps
  {
    assert |ps| > 0;
    var tail := PlainProps(ps[1..]);
    if ps[0].0 == k {
      assert Get(PlainProps(ps), k) == Plain(ps[0].1);
    } else {
      assert DistinctKeys(ps[1..]);
      PlainPropsGet(ps[1..], k);
      if !ps[0].1.Undefined? {
        assert PlainProps(ps) == [(ps[0].0, Plain(ps[0].1))] + tail;
        FindTail(PlainProps(ps), k);
      }
    }
  }

  /** The elements of a list read back are the plain forms of the elements. */
  lemma {:induction false} PlainItemsAt(items: seq<Value>, i: nat)
    requires i < |items|
    ensures PlainItems(items)[i] == Plain(items[i])
    decreases i
  {
    if i > 0 {
      PlainItemsAt(items[1..], i - 1);
    }
  }

  /** The plain form of an erased-name object: its own properties as the builder copies them. */
  lemma {:induction false} BuildFieldsGet(json: Value, k: string)
    requires json.Obj? && k != ProtoKey && Has(json.props, k) && BuildFields(json, 0).Ok?
    ensures var x := Get(json.props, k);
      if IsObject(x) then Build(k, x) == Ok(Get(BuildFields(json, 0).value, k))
      else Get(BuildFields(json, 0).value, k) == x
  {
    var c, out := Copied(json, 0), BuildFields(json, 0).value;
    BuildFieldsSpec(json, 0);
    assert Keys(out) == Keys(c);
    FindSameKeys(out, c, k);
    CopiedGet(json, 0, k);
    assert json.props[0..] == json.props;
  }

  // ---------------------------------------------------------------- the round trip

  /** Reading the text back is rebuilding the plain form of the clean Vast. */
  lemma {:induction false} RoundTripIsRebuild(vast: Value)
    requires ToString(vast).Ok? && WellOrdered(Clean(vast).value)
    ensures ToVast(Str(ToString(vast).value)) == Build("vast", Plain(Clean(vast).value))
  {
    ParseSerialize(Clean(vast).value);
  }

  /** The rebuild can fail: an object kept under a name that every object inherits, such
      as `constructor`, is refused, so the round trip holds only when rebuilding succeeds. */
  lemma {:induction false} RebuildRefusesInherited(inner: Value)
    requires IsObject(inner)
    ensures Build("vast", Obj(PlainObject, [("constructor", inner)])) == Err(TypeError)
  {
    var json := Obj(PlainObject, [("constructor", inner)]);
    FieldsRefused(json, inner);
    DollarVersion();
  }

  lemma {:induction false} FieldsRefused(json: Value, inner: Value)
    requires IsObject(inner) && json == Obj(PlainObject, [("constructor", inner)])
    ensures BuildFields(json, 0) == Err(TypeError)
  {
    NoDollar("constructor");
    assert FieldAt(json, 0) == ("constructor", inner);
  }

  /** The texts `{"__proto__":1}`, `{"__proto__":null}` and `{"__proto__":{}}` rebuild:
      the number is ignored and leaves a Vast without properties, while `null` and the
      object replace the prototype of an object without properties. */
  lemma {:induction false} ProtoText(x: Value)
    requires x == Num(1) || x == Null || x == Obj(PlainObject, [])
    ensures ToVast(Str(Serialize(Obj(PlainObject, [(ProtoKey, x)])))) ==
      Ok(Obj(if x.Num? then VastClass else Reprototyped(x.Null?), []))
  {
    ProtoRead(x);
    ProtoOnly(x);
  }

  lemma {:induction false} ProtoRead(x: Value)
    requires x == Num(1) || x == Null || x == Obj(PlainObject, [])
    ensures var json := Obj(PlainObject, [(ProtoKey, x)]);
      ToVast(Str(Serialize(json))) == Build("vast", json)
  {
    var json := Obj(PlainObject, [(ProtoKey, x)]);
    ProtoPlain(x, json);
    ParseSerialize(json);
  }

  lemma {:induction false} ProtoPlain(x: Value, json: Value)
    requires x == Num(1) || x == Null || x == Obj(PlainObject, [])
    requires json == Obj(PlainObject, [(ProtoKey, x)])
    ensures WellOrdered(json) && Plain(json) == json
  {
    assert Plain(x) == x;
    assert json.props[1..] == [];
    assert PlainProps(json.props) == [(ProtoKey, Plain(x))] + PlainProps(json.props[1..]);
  }

  /** Field `j` of `x` is public, holds a text or a list of texts, and its key names no
      registered or inherited entry. */
  predicate TextField(x: Value, j: nat) {
    && x.Obj? && DistinctKeys(x.props) && j < |x.props|
    && var (key, f) := x.props[j];
       && !StartsWith(key, "_")
       && Lookup(ReplaceFirst(key, "$", "")).None? && ReplaceFirst(key, "$", "") !in Inherited
       && (f.Str? || (f.Arr? && forall i :: 0 <= i < |f.items| ==> f.items[i].Str?))
  }

  /** `name` is registered, and not as a collection. */
  predicate ObjectName(name: string) {
    var n := ReplaceFirst(name, "$", ""); Lookup(n).Some? && !Lookup(n).value.collection
  }

  /** A text field, or a list of texts, of a Schema survives cleaning, reading back and
      rebuilding under a registered name that is no collection. */
  lemma {:induction false} FieldSurvives(x: Value, name: string, j: nat)
    requires TextField(x, j) && ObjectName(name) && Clean(x).Ok?
    requires Build(name, Plain(Clean(x).value)).Ok?
    ensures Get(Build(name, Plain(Clean(x).value)).value.props, x.props[j].0) == x.props[j].1
  {
    var key := x.props[j].0;
    var f := x.props[j].1;
    var json := Plain(Clean(x).value);
    ReadBack(x, j);
    BuildObject(name, json);
    assert key != ProtoKey by { assert ProtoKey[..1] == "_"; }
    BuildFieldsGet(json, key);
    if IsObject(f) {
      BuildUnregistered(key, f);
    }
  }

  /** The clean form of `x`, read back, holds field `j` unchanged. */
  lemma {:induction false} ReadBack(x: Value, j: nat)
    requires TextField(x, j) && Clean(x).Ok?
    ensures var json := Plain(Clean(x).value);
      && json.Obj? && DistinctKeys(json.props)
      && Has(json.props, x.props[j].0) && Get(json.props, x.props[j].0) == x.props[j].1
  {
    var key := x.props[j].0;
    var f := x.props[j].1;
    CleanGet(x, j);
    var c := Clean(x).value;
    TextsKept(f);
    PlainPropsGet(c.props, key);
    PlainPropsOrdered(c.props);
  }

  /** A text, or a list of texts, is its own clean and its own plain form. */
  lemma {:induction false} TextsKept(f: Value)
    requires f.Str? || (f.Arr? && forall i :: 0 <= i < |f.items| ==> f.items[i].Str?)
    ensures CleanField(f) == Ok(f) && Plain(f) == f
  {
    if f.Arr? {
      CleanItemsKeepsTexts(f, 0);
      assert f.items[0..] == f.items;
      forall i | 0 <= i < |f.items| ensures PlainItems(f.items)[i] == f.items[i] {
        PlainItemsAt(f.items, i);
      }
    }
  }

  /** A list of texts is its own clean form. */
  lemma {:induction false} CleanItemsKeepsTexts(list: Value, j: nat)
    requires list.Arr? && j <= |list.items| && forall i :: 0 <= i < |list.items| ==> list.items[i].Str?
    ensures CleanItems(list, j) == Ok(list.items[j..])
    decreases |list.items| - j
  {
    if j < |list.items| {
      CleanItemsKeepsTexts(list, j + 1);
      var item := list.items[j];
      assert !IsSchema(item);
      assert CleanItems(list, j) == Ok([item] + list.items[j + 1..]);
      assert list.items[j..] == [item] + list.items[j + 1..];
    } else {
      assert list.items[j..] == [];
    }
  }

  /** `$version` comes back as it was. */
  lemma {:induction false} RoundTripVersion(vast: Value, j: nat)
    requires vast.Obj? && DistinctKeys(vast.props) && j < |vast.props|
    requires vast.props[j].0 == "$version" && vast.props[j].1.Str?
    requires ToString(vast).Ok? && WellOrdered(Clean(vast).value)
    requires ToVast(Str(ToString(vast).value)).Ok?
    ensures Prop(ToVast(Str(ToString(vast).value)).value, "$version") == Prop(vast, "$version")
  {
    RoundTripIsRebuild(vast);
    RebuiltVersion(vast, j);
  }

  /** The rebuilt form of the clean Vast holds its `$version`. */
  lemma {:induction false} RebuiltVersion(vast: Value, j: nat)
    requires vast.Obj? && DistinctKeys(vast.props) && j < |vast.props| && Clean(vast).Ok?
    requires vast.props[j].0 == "$version" && vast.props[j].1.Str?
    requires Build("vast", Plain(Clean(vast).value)).Ok?
    ensures Prop(Build("vast", Plain(Clean(vast).value)).value, "$version") == Prop(vast, "$version")
  {
    var w := Build("vast", Plain(Clean(vast).value)).value;
    VersionField(vast, j);
    FieldSurvives(vast, "vast", j);
    GetAt(vast.props, j);
    PropObj(vast, "$version");
    PropObj(w, "$version");
  }

  lemma {:induction false} VersionField(vast: Value, j: nat)
    requires vast.Obj? && DistinctKeys(vast.props) && j < |vast.props|
    requires vast.props[j].0 == "$version" && vast.props[j].1.Str?
    ensures TextField(vast, j) && ObjectName("vast")
  {
    DollarVersion();
  }

  lemma {:induction false} DollarVersion()
    ensures ReplaceFirst("$version", "$", "") == "version"
    ensures ReplaceFirst("vast", "$", "") == "vast"
  {
    assert OccursAt("$version", "$", 0);
    NoDollar("vast");
  }

  /** Field `j` of the Vast is `$ads`, a collection whose items are Schemas without an
      opaque list. */
  predicate AdsField(vast: Value, j: nat) {
    && vast.Obj? && DistinctKeys(vast.props) && j < |vast.props|
    && var (key, ads) := vast.props[j];
       && key == "$ads"
       && ads.Obj? && IsCollectionClass(ads.cls) && Prop(ads, "$items").Arr?
       && forall i :: 0 <= i < |Collections.ItemsOf(ads)| ==> IsSchema(Collections.ItemsOf(ads)[i]) && !Truthy(Prop(Collections.ItemsOf(ads)[i], "$list"))
  }

  /** The clean Vast holds as `$ads` the list of its ads' clean forms. */
  lemma {:induction false} CleanAds(vast: Value, j: nat)
    requires AdsField(vast, j) && Clean(vast).Ok?
    ensures var items := Collections.ItemsOf(vast.props[j].1);
      var cleaned := Get(Clean(vast).value.props, "$ads");
      && cleaned.Arr? && |cleaned.items| == |items|
      && forall i :: 0 <= i < |items| ==> Clean(items[i]) == Ok(cleaned.items[i])
  {
    var ads := vast.props[j].1;
    assert "$ads"[..1] == "$";
    CleanGet(vast, j);
    CleanAdsCollection(ads);
  }

  /** A collection of Schemas without an opaque list cleans to the list of its items' clean
      forms. */
  lemma {:induction false} CleanAdsCollection(ads: Value)
    requires ads.Obj? && IsCollectionClass(ads.cls) && Prop(ads, "$items").Arr?
    requires forall i :: 0 <= i < |Collections.ItemsOf(ads)| ==> IsSchema(Collections.ItemsOf(ads)[i]) && !Truthy(Prop(Collections.ItemsOf(ads)[i], "$list"))
    requires CleanField(ads).Ok?
    ensures var items := Collections.ItemsOf(ads);
      var cleaned := CleanField(ads).value;
      && cleaned.Arr? && |cleaned.items| == |items|
      && forall i :: 0 <= i < |items| ==> items[i].Obj? && Clean(items[i]) == Ok(cleaned.items[i])
  {
    var list := Prop(ads, "$items");
    assert Collections.ItemsOf(ads) == list.items;
    CleanCollection(ads);
    CleanSchemaItems(list);
  }

  /** A list of Schemas without an opaque list cleans item by item. */
  lemma {:induction false} CleanSchemaItems(list: Value)
    requires list.Arr? && CleanItems(list, 0).Ok?
    requires forall i :: 0 <= i < |list.items| ==> IsSchema(list.items[i]) && !Truthy(Prop(list.items[i], "$list"))
    ensures forall i :: 0 <= i < |list.items| ==> list.items[i].Obj? && Clean(list.items[i]) == Ok(CleanItems(list, 0).value[i])
  {
    forall i | 0 <= i < |list.items| ensures list.items[i].Obj? && Clean(list.items[i]) == Ok(CleanItems(list, 0).value[i]) {
      SchemaItemClean(list, i);
    }
  }

  lemma {:induction false} SchemaItemClean(list: Value, i: nat)
    requires list.Arr? && i < |list.items| && CleanItems(list, 0).Ok?
    requires IsSchema(list.items[i]) && !Truthy(Prop(list.items[i], "$list"))
    ensures list.items[i].Obj? && Clean(list.items[i]) == Ok(CleanItems(list, 0).value[i])
  {
    CleanItemsAt(list, 0, i);
  }

  /** The clean Vast, read back, holds as `$ads` the list of its ads' clean forms read back. */
  lemma {:induction false} ReadBackAds(vast: Value, j: nat)
    requires AdsField(vast, j) && Clean(vast).Ok?
    ensures var items := Collections.ItemsOf(vast.props[j].1);
      var json := Plain(Clean(vast).value);
      && json.Obj? && DistinctKeys(json.props) && Has(json.props, "$ads")
      && var listed := Get(json.props, "$ads");
         && listed.Arr? && |listed.items| == |items|
         && forall i :: 0 <= i < |items| ==> Clean(items[i]).Ok? && listed.items[i] == Plain(Clean(items[i]).value)
  {
    var c := Clean(vast).value;
    CleanAds(vast, j);
    var cleaned := Get(c.props, "$ads");
    PlainPropsOrdered(c.props);
    PlainPropsGet(c.props, "$ads");
    forall i | 0 <= i < |cleaned.items| ensures PlainItems(cleaned.items)[i] == Plain(cleaned.items[i]) {
      PlainItemsAt(cleaned.items, i);
    }
  }

  /** Rebuilding a Vast's JSON turns its `$ads` list into an `Ads` collection of the
      elements rebuilt as ads, in order. */
  lemma {:induction false} RebuildAdsList(json: Value)
    requires json.Obj? && DistinctKeys(json.props) && Has(json.props, "$ads") && Get(json.props, "$ads").Arr?
    requires Build("vast", json).Ok?
    ensures var listed := Get(json.props, "$ads");
      var rebuilt := Prop(Build("vast", json).value, "$ads");
      && rebuilt.Obj? && rebuilt.cls == AdsClass && |Collections.ItemsOf(rebuilt)| == |listed.items|
      && forall i :: 0 <= i < |listed.items| ==> Build("ad", listed.items[i]) == Ok(Collections.ItemsOf(rebuilt)[i])
  {
    var listed := Get(json.props, "$ads");
    VastAdsField(json);
    AdsCollection(listed, Prop(Build("vast", json).value, "$ads"));
  }

  /** The rebuilt Vast's `$ads` is the build of the JSON's `$ads` under that name. */
  lemma {:induction false} VastAdsField(json: Value)
    requires json.Obj? && DistinctKeys(json.props) && Has(json.props, "$ads") && Get(json.props, "$ads").Arr?
    requires Build("vast", json).Ok?
    ensures Build("$ads", Get(json.props, "$ads")) == Ok(Prop(Build("vast", json).value, "$ads"))
  {
    DollarVersion();
    BuildObject("vast", json);
    BuildFieldsGet(json, "$ads");
    PropObj(Build("vast", json).value, "$ads");
  }

  /** A list built under `$ads` is an `Ads` collection of its elements built as ads. */
  lemma {:induction false} AdsCollection(listed: Value, b: Value)
    requires listed.Arr? && Build("$ads", listed) == Ok(b)
    ensures && b.Obj? && b.cls == AdsClass && |Collections.ItemsOf(b)| == |listed.items|
            && forall i :: 0 <= i < |listed.items| ==> Build("ad", listed.items[i]) == Ok(Collections.ItemsOf(b)[i])
  {
    DollarNames();
    assert Singular("ads") == "ad";
    BuildCollection("$ads", listed);
    BuildItemsSpec("ad", listed, 0);
  }

  /** The rebuilt form of the clean Vast holds an `Ads` collection of as many ads as the
      Vast, each rebuilt from the clean form of the ad at the same position. */
  lemma {:induction false} RebuiltAds(vast: Value, j: nat)
    requires AdsField(vast, j) && Clean(vast).Ok?
    requires Build("vast", Plain(Clean(vast).value)).Ok?
    ensures var items := Collections.ItemsOf(vast.props[j].1);
      var rebuilt := Prop(Build("vast", Plain(Clean(vast).value)).value, "$ads");
      && rebuilt.Obj? && rebuilt.cls == AdsClass && |Collections.ItemsOf(rebuilt)| == |items|
      && forall i :: 0 <= i < |items| ==>
           Clean(items[i]).Ok? && Build("ad", Plain(Clean(items[i]).value)) == Ok(Collections.ItemsOf(rebuilt)[i])
  {
    ReadBackAds(vast, j);
    RebuildAdsList(Plain(Clean(vast).value));
  }

  /** The ads come back in number and in order, each rebuilt from its own clean form. */
  lemma {:induction false} RoundTripAds(vast: Value, j: nat)
    requires AdsField(vast, j)
    requires ToString(vast).Ok? && WellOrdered(Clean(vast).value)
    requires ToVast(Str(ToString(vast).value)).Ok?
    ensures var items := Collections.ItemsOf(vast.props[j].1);
      var rebuilt := Prop(ToVast(Str(ToString(vast).value)).value, "$ads");
      && rebuilt.Obj? && rebuilt.cls == AdsClass && |Collections.ItemsOf(rebuilt)| == |items|
      && forall i :: 0 <= i < |items| ==>
           Clean(items[i]).Ok? && Build("ad", Plain(Clean(items[i]).value)) == Ok(Collections.ItemsOf(rebuilt)[i])
  {
    RoundTripIsRebuild(vast);
    RebuiltAds(vast, j);
  }

  /** An ad's impression or error list, or any other text field of it, comes back as it
      was in the ad at the same position. */
  lemma {:induction false} RoundTripAdField(vast: Value, j: nat, i: nat, f: nat)
    requires AdsField(vast, j)
    requires ToString(vast).Ok? && WellOrdered(Clean(vast).value)
    requires ToVast(Str(ToString(vast).value)).Ok?
    requires i < |Collections.ItemsOf(vast.props[j].1)| && TextField(Collections.ItemsOf(vast.props[j].1)[i], f)
    ensures var ad := Collections.ItemsOf(vast.props[j].1)[i];
      var rebuilt := Collections.ItemsOf(Prop(ToVast(Str(ToString(vast).value)).value, "$ads"));
      && i < |rebuilt| && rebuilt[i].Obj?
      && Get(rebuilt[i].props, ad.props[f].0) == ad.props[f].1
  {
    var ad := Collections.ItemsOf(vast.props[j].1)[i];
    RoundTripAds(vast, j);
    var rebuilt := Collections.ItemsOf(Prop(ToVast(Str(ToString(vast).value)).value, "$ads"));
    AdFieldOf(ad, rebuilt[i], f);
  }

  /** An ad rebuilt from its clean form holds each of its text fields as it was. */
  lemma {:induction false} AdFieldOf(ad: Value, r: Value, f: nat)
    requires TextField(ad, f) && Clean(ad).Ok? && Build("ad", Plain(Clean(ad).value)) == Ok(r)
    ensures r.Obj? && Get(r.props, ad.props[f].0) == ad.props[f].1
  {
    AdName();
    BuildObject("ad", Plain(Clean(ad).value));
    FieldSurvives(ad, "ad", f);
  }

  lemma {:induction false} AdName()
    ensures ObjectName("ad")
  {
    NoDollar("ad");
  }
}
