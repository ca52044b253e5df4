/** `MediaFile`: one rendition of a linear creative, with the URI from the tag's text and
    read-only accessors over its attributes; `MediaFiles` is the collection of them. */
module MediaFile {
  import opened Strs
  import opened Js
  import opened Schemas
  import opened SchemaQueries
  import opened Units
  import opened Collections
  import opened Coerce

  /** `createMediaFile(tag)`: the Schema named `mediafile`, plus `$source` taken from the
      tag's `tagValue()`, which only a Schema has. */
  function New(tag: Value): (r: Result<Value>)
    ensures r.Ok? ==> r.value.Obj? && r.value.cls == MediaFileClass && DistinctKeys(r.value.props)
    ensures r.Ok? ==> IsSchema(tag) && Source(r.value) == TagValue(tag)
    ensures NoVastError(r)
  {
    var m :- Construct(tag, MediaFileClass, "mediafile");
    if !IsSchema(tag) then Err(TypeError)
    else Ok(WithSource(m, TagValue(tag)))
  }

  /** The media file built on the Schema `m`, with `$source` set. */
  function WithSource(m: Value, source: Value): (r: Value)
    requires m.Obj? && DistinctKeys(m.props)
    ensures r.Obj? && r.cls == MediaFileClass && DistinctKeys(r.props)
    ensures Source(r) == source
  {
    var r := Obj(MediaFileClass, Put(m.props, "$source", source));
    PropObj(r, "$source");
    r
  }

  /** `createMediaFiles(items)`: a collection of media files. */
  function Collection(items: Value): (r: Result<Value>)
    ensures r.Ok? ==> r.value.Obj? && r.value.cls == MediaFilesClass
    ensures NoVastError(r)
  {
    Build(items, MediaFilesClass, New)
  }

  function Source(m: Value): Value { Prop(m, "$source") }

  function Delivery(m: Value): Value { Prop(m, "$delivery") }

  /** `delivery() == 'progressive'` (a loose comparison). */
  predicate IsProgressive(m: Value) { LooseEq(Delivery(m), Str("progressive")) }

  predicate IsStreaming(m: Value) { LooseEq(Delivery(m), Str("streaming")) }

  /** `bitrate()`: `None` for the `false` returned when `$bitrate` is falsy, otherwise
      `parseInt($bitrate)`. */
  function Bitrate(m: Value): (r: Option<Number>)
    ensures r.None? <==> !Truthy(Prop(m, "$bitrate"))
  {
    if !Truthy(Prop(m, "$bitrate")) then None else Some(ParseIntValue(Prop(m, "$bitrate")))
  }

  function Width(m: Value): Number { ParseIntValue(Prop(m, "$width")) }

  function Height(m: Value): Number { ParseIntValue(Prop(m, "$height")) }

  /** `scalable()`: true unless the attribute says otherwise. */
  function Scalable(m: Value): (r: bool)
    ensures !Truthy(Prop(m, "$scalable")) ==> r
    ensures Prop(m, "$scalable") == Str("false") ==> !r
  {
    BooleanOfFalse(Some(true));
    Boolean(Prop(m, "$scalable"), Some(true))
  }

  /** `maintainAspectRatio()`: false unless the attribute says otherwise. */
  function MaintainAspectRatio(m: Value): (r: bool)
    ensures !Truthy(Prop(m, "$maintainaspectratio")) ==> !r
    ensures Prop(m, "$maintainaspectratio") == Str("true") ==> r
  {
    Boolean(Prop(m, "$maintainaspectratio"), Some(false))
  }

  /** `apiFramework()`: the attribute, or `false` when it is falsy. */
  function ApiFramework(m: Value): (r: Value)
    ensures Truthy(r) <==> Truthy(Prop(m, "$apiframework"))
  {
    var api := Prop(m, "$apiframework");
    if Truthy(api) then api else Bool(false)
  }

  /** `isVPAID()`: the framework, upper-cased, is `VPAID`; a framework that is no text has
      no `toUpperCase`. */
  function IsVPAID(m: Value): (r: Result<bool>)
  {
    IsVPAIDFramework(ApiFramework(m))
  }

  /** The VPAID test on an `apiFramework()` result, shared with `Creative`. */
  function IsVPAIDFramework(api: Value): (r: Result<bool>)
    ensures !Truthy(api) ==> r == Ok(false)
  {
    if !Truthy(api) then Ok(false)
    else if api.Str? then Ok(Upper(api.s) == "VPAID")
    else Err(TypeError)
  }

  /** `requiresFlash()`: the type is the Flash video or the Flash player type. */
  function RequiresFlash(m: Value): (r: Result<bool>)
  {
    var flv :- HasType(m, "video/x-flv");
    if flv then Ok(true)
    else HasType(m, "application/x-shockwave-flash")
  }

  // ---------------------------------------------------------------- properties

  /** A media file is built exactly when the Schema is and the tag is itself a Schema; it
      then holds the tag's text as `source()` and every other field of the Schema. */
  lemma {:induction false} NewSpec(tag: Value)
    ensures New(tag).Ok? <==> Construct(tag, MediaFileClass, "mediafile").Ok? && IsSchema(tag)
    ensures New(tag).Ok? ==>
      forall k :: k != "$source" ==> Prop(New(tag).value, k) == Prop(Construct(tag, MediaFileClass, "mediafile").value, k)
  {
  }

  /** A delivery is never both progressive and streaming. */
  lemma {:induction false} DeliveryExclusive(m: Value)
    ensures !(IsProgressive(m) && IsStreaming(m))
  {
    NotBothWords(Delivery(m));
  }

  lemma {:induction false} NotBothWords(d: Value)
    ensures !(LooseEq(d, Str("progressive")) && LooseEq(d, Str("streaming")))
  {
    var p := Str("progressive");
    WordIsNaN("progressive");
    assert Norm(p) == p && ToNumber(p) == NotANumber;
    if !(d.Undefined? || d.Null?) {
      var x := Norm(d);
      assert LooseEq(d, p) == (if x.Str? then x.s == "progressive" else NumEq(ToNumber(x), NotANumber));
    }
  }

  /** `isVPAID` ignores the case of the framework name. */
  lemma {:induction false} IsVPAIDAnyCase(api: string)
    requires Lower(api) == "vpaid"
    ensures IsVPAIDFramework(Str(api)) == Ok(true)
  {
    assert |api| == 5;
    assert Upper(api) == "VPAID" by {
      forall i | 0 <= i < 5 ensures UpperChar(api[i]) == "VPAID"[i] {
        assert LowerChar(api[i]) == "vpaid"[i];
      }
    }
  }

  /** Any other framework name is not VPAID. */
  lemma {:induction false} IsVPAIDOther(api: string)
    requires api != "" && Lower(api) != "vpaid"
    ensures IsVPAIDFramework(Str(api)) == Ok(false)
  {
  }

  /** A media file with a text type needs Flash exactly when that type, in any case, is
      one of the two Flash types. */
  lemma {:induction false} RequiresFlashSpec(m: Value)
    requires Prop(m, "$type").Str? && Prop(m, "$type").s != ""
    ensures var t := Lower(Prop(m, "$type").s);
      RequiresFlash(m) == Ok(t == "video/x-flv" || t == "application/x-shockwave-flash")
  {
    HasTypeOwn(m, "video/x-flv");
    HasTypeOwn(m, "application/x-shockwave-flash");
    FlashTypesLower();
  }

  lemma {:induction false} FlashTypesLower()
    ensures Lower("video/x-flv") == "video/x-flv"
    ensures Lower("application/x-shockwave-flash") == "application/x-shockwave-flash"
  {
    Strs.LowerOfLower("video/x-flv");
    Strs.LowerOfLower("application/x-shockwave-flash");
  }

  /** A bitrate written in digits is that number. */
  lemma {:induction false} BitrateDigits(m: Value, d: string)
    requires Prop(m, "$bitrate") == Str(d) && |d| > 0 && AllDigits(d)
    ensures Bitrate(m) == Some(Int(DigitsValue(d)))
  {
    ParseIntDigits(d);
  }

  /** Media files have no sequence, so the collection keeps them in document order. */
  lemma {:induction false} CollectionKeepsOrder(items: Value)
    requires Walked(items).Ok? && MapAll(Walked(items).value, New).Ok?
    ensures ItemsOf(Collection(items).value) == MapAll(Walked(items).value, New).value
  {
    var made := MapAll(Walked(items).value, New).value;
    forall i | 0 <= i < |made| ensures SortKey(made[i]) == 0 {
      MapAllSpec(Walked(items).value, New);
    }
    BuildKeepsOrder(items, MediaFilesClass, New);
  }
}
