/** One ad tag of a campaign (`src/player/campaign/tag.js`): the fields the campaign
    information gave it, the Vast its last request produced, the error that failed it, its
    request count and its retry flag. The request itself, which follows wrappers over the
    network, is outside the model; its outcome is the argument of `Complete`. A retry
    timer is counted, not run: `timers` is how many the tag has set. */
module Tags {
  import opened Strs
  import opened Js
  import opened Coerce
  import ExtendObject
  import VastErrors
  import Vast
  import SchemaQueries
  import Collections

  datatype Tag = Tag(
    info: Props,
    vast: Value,
    failed: Option<VastErrors.ErrorObject>,
    attempts: nat,
    scheduled: bool,
    timers: nat)

  /** `new Tag(info)`: every key `k` of the information becomes the field `$k`; the tag has
      no Vast, no failure, no attempt and no pending retry. */
  function New(info: Value): (r: Result<Tag>)
    ensures r.Ok? ==> && r.value.vast == Bool(false) && r.value.failed.None?
                      && r.value.attempts == 0 && !r.value.scheduled && r.value.timers == 0
                      && DistinctKeys(r.value.info)
  {
    var ps :- ExtendObject.Extend([], info, {}, true);
    Ok(Tag(ps, Bool(false), None, 0, false, 0))
  }

  // ---------------------------------------------------------------- accessors

  function Id(t: Tag): Value { Get(t.info, "$id") }

  function Uri(t: Tag): Value { Get(t.info, "$url") }

  /** `delay()`: milliseconds before a retry. */
  function Delay(t: Tag): Number { ParseIntValue(Get(t.info, "$delay_time")) }

  /** `a || b` */
  function Or(a: Value, b: Value): (r: Value)
    ensures Truthy(a) ==> r == a
    ensures !Truthy(a) ==> r == b
  {
    if Truthy(a) then a else b
  }

  /** `isGuaranteed()`: never when guarantees are off; otherwise while the count served so
      far (nothing counting as 0) has not passed the limit. */
  predicate IsGuaranteed(t: Tag) {
    Truthy(Get(t.info, "$guarantee_enabled"))
    && LessEq(Or(Get(t.info, "$guaranteed_count"), Num(0)), Get(t.info, "$guarantee_limit"))
  }

  /** `canBeLoaded()` on a device that is or is not mobile. */
  predicate CanBeLoaded(t: Tag, mobile: bool) {
    var platform := Get(t.info, "$platform_type");
    if !Truthy(Get(t.info, "$active")) then false
    else if LooseEq(platform, Str("all")) then true
    else if mobile && !LooseEq(platform, Str("mobile")) then false
    else if !mobile && LooseEq(platform, Str("mobile")) then false
    else true
  }

  /** The ads of a Vast; anything other than a Vast has no `ads()` method. */
  function VastAds(v: Value): (r: Result<seq<Value>>)
    ensures r.Ok? ==> v.Obj? && v.cls == VastClass && r == Vast.AdsOf(v)
  {
    if v.Obj? && v.cls == VastClass then Vast.AdsOf(v) else Err(TypeError)
  }

  /** Every ad is marked `_used`. */
  predicate AllUsed(ads: seq<Value>) {
    forall i :: 0 <= i < |ads| ==> Truthy(Prop(ads[i], "_used"))
  }

  /** `finished()`: true without a Vast, otherwise whether every ad has been used. */
  function Finished(t: Tag): (r: Result<bool>)
    ensures !Truthy(t.vast) ==> r == Ok(true)
    ensures Truthy(t.vast) ==> (r.Ok? <==> VastAds(t.vast).Ok?)
  {
    if !Truthy(t.vast) then Ok(true)
    else
      var ads :- VastAds(t.vast);
      Ok(UsedAll(ads))
  }

  /** The `forEach` that clears the flag on an ad not yet used. */
  function UsedAll(ads: seq<Value>): (r: bool)
  {
    if |ads| == 0 then true
    else Truthy(Prop(ads[0], "_used")) && UsedAll(ads[1..])
  }

  // ---------------------------------------------------------------- transitions

  /** `_reset()` */
  function Reset(t: Tag): (r: Tag)
    ensures r.vast == Bool(false) && r.failed.None?
    ensures r.info == t.info && r.attempts == t.attempts
    ensures r.scheduled == t.scheduled && r.timers == t.timers
  {
    t.(vast := Bool(false), failed := None)
  }

  /** `request()` up to the network call: reset, then count the attempt. */
  function Request(t: Tag): (r: Tag)
    ensures r.vast == Bool(false) && r.failed.None? && r.attempts == t.attempts + 1
    ensures r.info == t.info && r.scheduled == t.scheduled && r.timers == t.timers
  {
    var u := Reset(t);
    u.(attempts := u.attempts + 1)
  }

  /** `_schedule()`: sets a retry timer unless one is pending. */
  function Schedule(t: Tag): (r: Tag)
    ensures r.scheduled
    ensures r.timers == if t.scheduled then t.timers else t.timers + 1
    ensures r.info == t.info && r.vast == t.vast && r.failed == t.failed && r.attempts == t.attempts
  {
    if t.scheduled then t else t.(scheduled := true, timers := t.timers + 1)
  }

  /** `vastError(code, info)`: records the failure and schedules a retry. */
  function Fail(t: Tag, code: int, info: Option<string>): (r: Tag)
    ensures r.failed == Some(VastErrors.Make(code, info))
    ensures r.failed.value.code == code
    ensures r == Schedule(t.(failed := r.failed))
  {
    Schedule(t.(failed := Some(VastErrors.Make(code, info))))
  }

  /** `ad.hasType('inline')` for one ad; an item that is no Schema has no such method. */
  function IsInline(ad: Value): (r: Result<bool>)
    ensures r.Ok? ==> ad.Obj? && IsSchemaClass(ad.cls) && r == SchemaQueries.HasType(ad, "inline")
  {
    if ad.Obj? && IsSchemaClass(ad.cls) then SchemaQueries.HasType(ad, "inline") else Err(TypeError)
  }

  /** `ads().filter((ad) => ad.hasType('inline'))` */
  function Inline(ads: seq<Value>): Result<seq<Value>> { Collections.TryFilter(ads, IsInline) }

  /** `vast.ads().$items = kept`: the ads collection, which the Vast shares, now holds
      `kept`. */
  function Filtered(vast: Value, kept: seq<Value>): (r: Value)
    ensures WellFormedVast(vast) && IsCollectionClass(Prop(vast, "$ads").cls) ==>
      && r.Obj? && r.cls == VastClass && Vast.AdsOf(r) == Ok(kept)
      && forall k :: k != "$ads" ==> Prop(r, k) == Prop(vast, k)
  {
    var ads := Prop(vast, "$ads");
    var c := SetProp(ads, "$items", Arr(kept));
    assert WellFormedVast(vast) ==> Prop(c, "$items") == Arr(kept);
    SetProp(vast, "$ads", c)
  }

  /** `_validateRequestVast(vast)`: keeps the Vast; without one, schedules a retry. With
      one, keeps only its inline ads, then fails the tag with 303 when none is left and
      with 201 when none of them has a linear creative. What is thrown without a code (a
      method a value lacks) propagates. */
  function Validate(t: Tag, vast: Value): (r: Result<Tag>)
    ensures r.Ok? ==> r.value.info == t.info && r.value.attempts == t.attempts
    ensures !Truthy(vast) ==> r == Ok(Schedule(t.(vast := vast)))
  {
    var t1 := t.(vast := vast);
    if !Truthy(vast) then Ok(Schedule(t1))
    else
      var ads :- VastAds(vast);
      var kept :- Inline(ads);
      var v := Filtered(vast, kept);
      Judge(t1.(vast := v))
  }

  /** The checks on the filtered Vast as written: no ads is 303, and `hasLinear()` failing
      is 201. As written `hasLinear()` is true whenever there are ads, so once the 303
      check has passed the tag is never failed with 201. */
  function Judge(t: Tag): (r: Result<Tag>)
    ensures Vast.AdsOf(t.vast).Ok? && |Vast.AdsOf(t.vast).value| == 0 ==> r == Ok(Fail(t, 303, None))
    ensures Vast.AdsOf(t.vast).Ok? && |Vast.AdsOf(t.vast).value| > 0 ==>
      && (r.Ok? <==> Vast.HasLinear(t.vast).Ok?)
      && (r.Ok? ==> r == Ok(t))
  {
    var any :- Vast.HasAds(t.vast);
    if !any then Ok(Fail(t, 303, None))
    else
      Vast.HasLinearAsWrittenIsHasAds(t.vast);
      var linear :- Vast.HasLinearAsWritten(t.vast);
      if !linear then Ok(Fail(t, 201, None)) else Ok(t)
  }

  /** The checks with the evidently intended `hasLinear()`: a Vast whose ads hold no
      linear creative fails the tag with 201. */
  function JudgeIntended(t: Tag): (r: Result<Tag>)
    ensures Vast.AdsOf(t.vast).Ok? && |Vast.AdsOf(t.vast).value| == 0 ==> r == Ok(Fail(t, 303, None))
    ensures Vast.AdsOf(t.vast).Ok? && |Vast.AdsOf(t.vast).value| > 0 ==>
      && (r.Ok? <==> Vast.HasLinear(t.vast).Ok?)
      && (Vast.HasLinear(t.vast) == Ok(false) ==> r == Ok(Fail(t, 201, None)))
      && (Vast.HasLinear(t.vast) == Ok(true) ==> r == Ok(t))
  {
    var any :- Vast.HasAds(t.vast);
    if !any then Ok(Fail(t, 303, None))
    else
      var linear :- Vast.HasLinear(t.vast);
      if !linear then Ok(Fail(t, 201, None)) else Ok(t)
  }

  /** What `request()` does once the tag's request settles with `vast`. */
  function Complete(t: Tag, vast: Value): (r: Result<Tag>)
    ensures r.Ok? ==> r.value.info == t.info && r.value.attempts == t.attempts
  {
    Validate(t.(scheduled := false), vast)
  }

  // ---------------------------------------------------------------- properties

  /** Construction fails only on `undefined` or `null` information; from an object it
      copies every key `k` as `$k`. */
  lemma {:induction false} NewFields(info: Value, k: string)
    ensures info.Undefined? || info.Null? ==> New(info) == Err(TypeError)
    ensures info.Obj? && DistinctKeys(info.props) && Has(info.props, k) ==>
      New(info).Ok? && Get(New(info).value.info, "$" + k) == Get(info.props, k)
  {
    ExtendObject.ExtendErrors([], info, {}, true);
    if info.Obj? && DistinctKeys(info.props) && Has(info.props, k) {
      ExtendObject.MarkedCopy([], info.cls, info.props, {}, k);
    }
  }

  /** A guaranteed tag has guarantees on; with numeric count and limit it is guaranteed
      exactly while the count has not passed the limit, and a missing count counts as 0. */
  lemma {:induction false} IsGuaranteedNumbers(t: Tag, count: int, limit: int)
    requires Truthy(Get(t.info, "$guarantee_enabled"))
    requires Get(t.info, "$guarantee_limit") == Num(limit)
    ensures Get(t.info, "$guaranteed_count") == Num(count) ==> (IsGuaranteed(t) <==> count <= limit)
    ensures Get(t.info, "$guaranteed_count").Undefined? ==> (IsGuaranteed(t) <==> 0 <= limit)
  {
  }

  /** Guarantees switched off make no tag guaranteed. */
  lemma {:induction false} NotGuaranteedWhenDisabled(t: Tag)
    requires !Truthy(Get(t.info, "$guarantee_enabled"))
    ensures !IsGuaranteed(t)
  {
  }

  /** For a textual platform type: an inactive tag never loads; an `all` tag loads on every
      device; otherwise a tag loads exactly when the device is mobile if and only if the
      platform is `mobile`. */
  lemma {:induction false} CanBeLoadedSpec(t: Tag, mobile: bool, platform: string)
    requires Get(t.info, "$platform_type") == Str(platform)
    ensures CanBeLoaded(t, mobile) <==>
      Truthy(Get(t.info, "$active")) && (platform == "all" || (mobile <==> platform == "mobile"))
  {
    LooseEqStrings(platform, "all");
    LooseEqStrings(platform, "mobile");
  }

  /** `finished()` holds exactly when every ad of the Vast is marked used. */
  lemma {:induction false} UsedAllSpec(ads: seq<Value>)
    ensures UsedAll(ads) <==> AllUsed(ads)
  {
    if |ads| > 0 {
      UsedAllSpec(ads[1..]);
      assert forall i :: 1 <= i < |ads| ==> ads[i] == ads[1..][i - 1];
    }
  }

  lemma {:induction false} FinishedSpec(t: Tag)
    requires Truthy(t.vast) && VastAds(t.vast).Ok?
    ensures Finished(t) == Ok(AllUsed(VastAds(t.vast).value))
  {
    UsedAllSpec(VastAds(t.vast).value);
  }

  /** A retry is set once: scheduling again changes nothing. */
  lemma {:induction false} ScheduleOnce(t: Tag)
    ensures Schedule(Schedule(t)) == Schedule(t)
    ensures Fail(Fail(t, 303, None), 201, None).timers == Schedule(t).timers
  {
  }

  /** The Vast as validation leaves it: the ads collection holds the inline ads. */
  predicate WellFormedVast(v: Value) {
    v.Obj? && v.cls == VastClass && DistinctKeys(v.props)
    && Prop(v, "$ads").Obj? && DistinctKeys(Prop(v, "$ads").props)
  }

  /** Validating a Vast whose ads all answer `hasType`: the tag keeps the Vast with only
      its inline ads; it fails with 303 exactly when none is inline. When some are, the
      written `hasLinear()` lets it through whatever their creatives are: it is not failed
      anew and no retry is set, unless reading the creatives fails. */
  lemma {:induction false} ValidateSpec(t: Tag, vast: Value)
    requires WellFormedVast(vast) && VastAds(vast).Ok? && Inline(VastAds(vast).value).Ok?
    ensures var kept := Inline(VastAds(vast).value).value; var v := Filtered(vast, kept);
      var r := Validate(t, vast);
      && v.Obj? && v.cls == VastClass && Vast.AdsOf(v) == Ok(kept)
      && (r.Ok? ==> r.value.vast == v)
      && (|kept| == 0 ==> r.Ok? && r.value.failed == Some(VastErrors.Make(303, None)) && r.value.scheduled)
      && (|kept| > 0 ==> (r.Ok? <==> Vast.HasLinear(v).Ok?))
      && (|kept| > 0 && r.Ok? ==>
            r.value.failed == t.failed && r.value.scheduled == t.scheduled && r.value.timers == t.timers)
  {
    var kept := Inline(VastAds(vast).value).value;
    var v := Filtered(vast, kept);
    assert IsCollectionClass(Prop(vast, "$ads").cls);
    assert Validate(t, vast) == Judge(t.(vast := v));
  }

  /** A Vast with inline ads none of which has a linear creative is let through as written,
      where the intended check fails the tag with 201. */
  lemma {:induction false} NoLinearNot201(t: Tag)
    requires Vast.AdsOf(t.vast).Ok? && |Vast.AdsOf(t.vast).value| > 0 && Vast.HasLinear(t.vast) == Ok(false)
    ensures Judge(t) == Ok(t)
    ensures JudgeIntended(t) == Ok(Fail(t, 201, None))
  {
  }

  /** A tag whose request settles without a Vast keeps no Vast and has exactly one retry
      pending, whatever was pending before. */
  lemma {:induction false} CompleteWithoutVast(t: Tag, vast: Value)
    requires !Truthy(vast)
    ensures Complete(t, vast).Ok?
    ensures var r := Complete(t, vast).value;
      r.vast == vast && r.scheduled && r.timers == t.timers + 1 && r.failed == t.failed
  {
  }
}
