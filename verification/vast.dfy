/** `Vast`: the root of a parsed response. It accepts VAST versions 1 to 4, keeps the `Ad`
    children that carry a type, and answers questions about its ads. */
module Vast {
  import opened Strs
  import opened Js
  import opened Schemas
  import opened SchemaQueries
  import opened Units
  import opened Collections
  import opened SchemaFacts
  import Ad

  /** `version()`: `parseInt($version)`. */
  function Version(v: Value): Number { ParseIntValue(Prop(v, "$version")) }

  /** Membership in the set of accepted versions; `Set.has` finds no `NaN` there. */
  predicate Supported(n: Number) {
    n.Int? && 1 <= n.i <= 4
  }

  /** The `ad` children once those whose `type()` is falsy are deleted: a deleted slot is a
      hole, which `forEach` in the collection constructor skips. */
  function Typed(ads: seq<Value>): (r: seq<Value>)
    ensures |r| <= |ads|
  {
    if |ads| == 0 then [] else (if Truthy(Type(ads[0])) then [ads[0]] else []) + Typed(ads[1..])
  }

  /** `valuesWithTagName('ad') || []`, as a list. */
  function AdChildren(v: Value): (r: Result<seq<Value>>)
    ensures r.Ok? <==> ValuesWithTagName(v, Str("ad")).Ok?
    ensures r.Ok? && ValuesWithTagName(v, Str("ad")).value.Arr? ==> r.value == ValuesWithTagName(v, Str("ad")).value.items
    ensures NoVastError(r)
  {
    var found :- ValuesWithTagName(v, Str("ad"));
    if found.Arr? then Ok(found.items) else Ok([])
  }

  /** `createVast(tag)`: the Schema named `vast`; an unsupported version is VAST error 102;
      then `$ads` is the collection of the typed ad children. */
  function New(tag: Value): (r: Result<Value>)
    ensures r.Ok? ==> r.value.Obj? && r.value.cls == VastClass && DistinctKeys(r.value.props)
    ensures r.Err? && r.error.VastError? ==> r.error == VastError(102, None)
  {
    var v :- Construct(tag, VastClass, "vast");
    Checked(v)
  }

  /** The part of the constructor after the Schema is built. */
  function Checked(v: Value): (r: Result<Value>)
    requires v.Obj? && DistinctKeys(v.props)
    ensures r.Ok? ==> r.value.Obj? && r.value.cls == VastClass && DistinctKeys(r.value.props)
    ensures r.Err? && r.error.VastError? ==> r.error == VastError(102, None)
  {
    if !Supported(Version(v)) then Err(VastError(102, None))
    else
      var ads :- AdChildren(v);
      FromSchema(v, Ad.Collection(Arr(Typed(ads))))
  }

  /** The Schema with its ads attached. */
  function FromSchema(v: Value, ads: Result<Value>): (r: Result<Value>)
    requires v.Obj? && DistinctKeys(v.props)
    ensures r.Ok? <==> ads.Ok?
    ensures r.Ok? ==> r.value.Obj? && r.value.cls == VastClass && DistinctKeys(r.value.props)
    ensures r.Ok? ==> Get(r.value.props, "$ads") == ads.value
    ensures r.Ok? ==> forall k :: k != "$ads" ==> Get(r.value.props, k) == Get(v.props, k)
  {
    var a :- ads;
    Ok(Obj(VastClass, Put(v.props, "$ads", a)))
  }

  /** `ads()`: the items of the ads collection; anything that is no collection has none of
      the collection methods the queries below call. */
  function AdsOf(v: Value): (r: Result<seq<Value>>)
    ensures r.Ok? ==> r.value == ItemsOf(Prop(v, "$ads"))
  {
    var ads := Prop(v, "$ads");
    if ads.Obj? && IsCollectionClass(ads.cls) && Prop(ads, "$items").Arr? then Ok(ItemsOf(ads))
    else Err(TypeError)
  }

  /** `hasAds()` */
  function HasAds(v: Value): (r: Result<bool>)
    ensures r.Ok? <==> AdsOf(v).Ok?
    ensures r.Ok? ==> (r.value <==> |AdsOf(v).value| > 0)
  {
    var ads :- AdsOf(v);
    Ok(!IsEmpty(ads))
  }

  /** `someAd(condition)`: the first ad the condition accepts, or `false`. */
  function SomeAd(v: Value, condition: Value -> bool): (r: Result<Value>)
    ensures r.Ok? <==> AdsOf(v).Ok?
    ensures r.Ok? && (exists i :: 0 <= i < |AdsOf(v).value| && condition(AdsOf(v).value[i])) ==>
      r.value in AdsOf(v).value && condition(r.value)
  {
    var ads :- AdsOf(v);
    Ok(One(ads, condition))
  }

  /** `ads().some(callback)` where the callback sets a flag when `test` holds of an ad and
      returns nothing, so that every ad is visited in order; a failure of `test` is thrown
      out of the loop. */
  function AnyOf(ads: seq<Value>, test: Value -> Result<bool>): (r: Result<bool>)
  {
    if |ads| == 0 then Ok(false)
    else
      var first :- test(ads[0]);
      var rest :- AnyOf(ads[1..], test);
      Ok(first || rest)
  }

  /** The truthiness of `ad.sequence()`: `false`, `NaN` and `0` are falsy. */
  predicate SequenceTruthy(s: Option<Number>) {
    s.Some? && s.value.Int? && s.value.i != 0
  }

  function SequenceTest(ad: Value): Result<bool> { Ok(SequenceTruthy(Ad.Sequence(ad))) }

  /** `hasSequence()` */
  function HasSequence(v: Value): Result<bool> {
    var ads :- AdsOf(v);
    AnyOf(ads, SequenceTest)
  }

  function FallbackTest(ad: Value): Result<bool> { Ok(Ad.FallbackOnNoAd(ad)) }

  /** `hasFallback()` */
  function HasFallback(v: Value): Result<bool> {
    var ads :- AdsOf(v);
    AnyOf(ads, FallbackTest)
  }

  /** The test `hasLinear()` applies as written: `ad.creatives().withType('linear')` is
      always an array, which is truthy even when empty. */
  function WrittenLinearTest(ad: Value): (r: Result<bool>)
    ensures r.Ok? ==> r.value
  {
    var _ :- Ad.Linears(Ad.Creatives(ad));
    Ok(true)
  }

  function HasLinearAsWritten(v: Value): Result<bool> {
    var ads :- AdsOf(v);
    AnyOf(ads, WrittenLinearTest)
  }

  /** The evidently intended test: the ad has a linear creative. */
  function LinearTest(ad: Value): (r: Result<bool>)
    ensures r.Ok? <==> WrittenLinearTest(ad).Ok?
    ensures r.Err? ==> r == WrittenLinearTest(ad)
  {
    var slots :- Ad.Linears(Ad.Creatives(ad));
    Ok(|Ad.Present(slots)| > 0)
  }

  /** The evidently intended `hasLinear()`. */
  function HasLinear(v: Value): Result<bool> {
    var ads :- AdsOf(v);
    AnyOf(ads, LinearTest)
  }

  // ---------------------------------------------------------------- properties

  /** The constructor is the Schema followed by the checks. */
  lemma {:induction false} NewChecked(tag: Value)
    ensures New(tag).Ok? ==> Construct(tag, VastClass, "vast").Ok?
    ensures Construct(tag, VastClass, "vast").Ok? ==> New(tag) == Checked(Construct(tag, VastClass, "vast").value)
  {
  }

  /** A version outside 1 to 4, or no number at all, is VAST error 102, before any ad is
      looked at. */
  lemma {:induction false} UnsupportedVersion(v: Value)
    requires v.Obj? && DistinctKeys(v.props) && !Supported(Version(v))
    ensures Checked(v) == Err(VastError(102, None))
  {
  }

  /** A supported version lets the ads decide: the vast is built exactly when its ad
      children can be listed and the typed ones make an `Ads` collection, which it holds. */
  lemma {:induction false} CheckedAds(v: Value)
    requires v.Obj? && DistinctKeys(v.props) && Supported(Version(v))
    ensures AdChildren(v).Err? ==> Checked(v) == Err(AdChildren(v).error)
    ensures AdChildren(v).Ok? ==> Checked(v) == FromSchema(v, Ad.Collection(Arr(Typed(AdChildren(v).value))))
  {
  }

  /** A version written in digits is accepted exactly when it is 1 to 4. */
  lemma {:induction false} VersionDigits(v: Value, d: string)
    requires Prop(v, "$version") == Str(d) && |d| > 0 && AllDigits(d)
    ensures Supported(Version(v)) <==> 1 <= DigitsValue(d) <= 4
  {
    ParseIntDigits(d);
  }

  /** The vast keeps exactly the ad children that carry a type. */
  lemma {:induction false} TypedMembers(ads: seq<Value>)
    ensures forall x :: x in Typed(ads) <==> x in ads && Truthy(Prop(x, "$type"))
  {
    if |ads| > 0 {
      TypedMembers(ads[1..]);
      assert forall x :: x in ads <==> x == ads[0] || x in ads[1..];
    }
  }

  /** When every ad child carries a type, all are kept, in document order. */
  lemma {:induction false} TypedAllTyped(ads: seq<Value>)
    requires forall i :: 0 <= i < |ads| ==> Truthy(Prop(ads[i], "$type"))
    ensures Typed(ads) == ads
  {
    if |ads| > 0 {
      TypedAllTyped(ads[1..]);
      assert [ads[0]] + ads[1..] == ads;
    }
  }

  /** `AnyOf` fails exactly when the test fails on some ad, with the failure of the first
      such ad; otherwise it says whether the test holds of some ad. */
  lemma {:induction false} AnyOfSpec(ads: seq<Value>, test: Value -> Result<bool>)
    ensures AnyOf(ads, test).Ok? <==> forall i :: 0 <= i < |ads| ==> test(ads[i]).Ok?
    ensures AnyOf(ads, test).Ok? ==>
      (AnyOf(ads, test).value <==> exists i :: 0 <= i < |ads| && test(ads[i]).value)
  {
    if |ads| > 0 {
      AnyOfSpec(ads[1..], test);
      assert forall i :: 0 < i < |ads| ==> ads[1..][i - 1] == ads[i];
      if AnyOf(ads, test).Ok? && AnyOf(ads[1..], test).value {
        var i :| 0 <= i < |ads[1..]| && test(ads[1..][i]).value;
        assert ads[1..][i] == ads[i + 1];
      }
    }
  }

  /** Two tests that fail on the same ads, with the same failures, make `AnyOf` fail alike. */
  lemma {:induction false} AnyOfSameFailures(ads: seq<Value>, t1: Value -> Result<bool>, t2: Value -> Result<bool>)
    requires forall ad :: t1(ad).Ok? <==> t2(ad).Ok?
    requires forall ad :: t1(ad).Err? ==> t1(ad) == t2(ad)
    ensures AnyOf(ads, t1).Ok? <==> AnyOf(ads, t2).Ok?
    ensures AnyOf(ads, t1).Err? ==> AnyOf(ads, t1) == AnyOf(ads, t2)
  {
    if |ads| > 0 {
      AnyOfSameFailures(ads[1..], t1, t2);
    }
  }

  /** `hasSequence` is true exactly when some ad has a truthy sequence. */
  lemma {:induction false} HasSequenceSpec(v: Value)
    requires AdsOf(v).Ok?
    ensures var ads := AdsOf(v).value;
      HasSequence(v) == Ok(exists i :: 0 <= i < |ads| && SequenceTruthy(Ad.Sequence(ads[i])))
  {
    AnyOfSpec(AdsOf(v).value, SequenceTest);
  }

  /** `hasFallback` is true exactly when some ad asks for fallback on no ad. */
  lemma {:induction false} HasFallbackSpec(v: Value)
    requires AdsOf(v).Ok?
    ensures var ads := AdsOf(v).value;
      HasFallback(v) == Ok(exists i :: 0 <= i < |ads| && Ad.FallbackOnNoAd(ads[i]))
  {
    AnyOfSpec(AdsOf(v).value, FallbackTest);
  }

  /** As written, `hasLinear` answers whether there are ads at all, and fails where the
      intended one fails. */
  lemma {:induction false} HasLinearAsWrittenIsHasAds(v: Value)
    ensures HasLinearAsWritten(v).Ok? <==> HasLinear(v).Ok?
    ensures HasLinearAsWritten(v).Ok? ==> HasLinearAsWritten(v) == HasAds(v)
  {
    if AdsOf(v).Ok? {
      var ads := AdsOf(v).value;
      AnyOfSameFailures(ads, WrittenLinearTest, LinearTest);
      AnyOfSpec(ads, WrittenLinearTest);
      if |ads| > 0 && HasLinearAsWritten(v).Ok? {
        assert WrittenLinearTest(ads[0]).value;
      }
    }
  }

  /** An ad whose creatives hold no linear one makes the written `hasLinear` true and the
      intended one false. */
  lemma {:induction false} HasLinearCounterexample()
    ensures var creatives := Obj(CreativesClass, [("$items", Arr([]))]);
      var ad := Obj(AdClass, [("$creatives", creatives)]);
      var v := Obj(VastClass, [("$ads", Obj(AdsClass, [("$items", Arr([ad]))]))]);
      && HasLinearAsWritten(v) == Ok(true)
      && HasLinear(v) == Ok(false)
  {
    var creatives := Obj(CreativesClass, [("$items", Arr([]))]);
    var ad := Obj(AdClass, [("$creatives", creatives)]);
    var v := Obj(VastClass, [("$ads", Obj(AdsClass, [("$items", Arr([ad]))]))]);
    assert AdsOf(v) == Ok([ad]);
    assert Ad.Creatives(ad) == creatives;
    assert ItemsOf(creatives) == [];
    assert Ad.Linears(creatives) == Ok([]);
  }

  /** The intended `hasLinear` is true exactly when some ad has a linear creative. */
  lemma {:induction false} HasLinearSpec(v: Value)
    requires HasLinear(v).Ok?
    ensures var ads := AdsOf(v).value;
      && (forall i :: 0 <= i < |ads| ==> LinearTest(ads[i]).Ok?)
      && (HasLinear(v).value <==> exists i :: 0 <= i < |ads| && LinearTest(ads[i]).value)
  {
    AnyOfSpec(AdsOf(v).value, LinearTest);
  }

  /** A vast with a linear creative has ads. */
  lemma {:induction false} LinearHasAds(v: Value)
    requires HasLinear(v).Ok? && HasLinear(v).value
    ensures HasAds(v) == Ok(true)
  {
    HasLinearSpec(v);
  }
}
