/** `Creative`: a Schema named `creative`. A linear one (its folded `$type` is `linear`, in
    any case) is given its media files, tracking events and video clicks as objects of
    their own when it is built; the accessors read those and the creative's attributes. */
module Creative {
  import opened Strs
  import opened Js
  import opened Schemas
  import opened SchemaQueries
  import opened Units
  import opened Collections
  import TrackingEvents
  import VideoClicks
  import MediaFile

  /** `duration(false)`: the raw `$duration`, or `'00:00:00'` when it is falsy. */
  function RawDuration(c: Value): (r: Value)
    ensures Truthy(r)
    ensures Truthy(Prop(c, "$duration")) ==> r == Prop(c, "$duration")
    ensures !Truthy(Prop(c, "$duration")) ==> r == Str("00:00:00")
  {
    var d := Prop(c, "$duration");
    if Truthy(d) then d else Str("00:00:00")
  }

  /** `duration()`: the raw duration in seconds. A creative without a duration lasts 0
      seconds, a number is taken as it is, and anything but text or a number cannot be
      split. */
  function Duration(c: Value): (r: Result<Number>)
    ensures !Truthy(Prop(c, "$duration")) ==> r == Ok(Int(0))
    ensures Prop(c, "$duration").Num? ==> r == Ok(Int(Prop(c, "$duration").n))
    ensures r.Err? <==> Truthy(Prop(c, "$duration")) && !Prop(c, "$duration").Str? && !Prop(c, "$duration").Num?
  {
    ZeroClock();
    SecondsOf(RawDuration(c))
  }

  /** The default `00:00:00` is 0 seconds. */
  lemma {:induction false} ZeroClock()
    ensures SecondsOf(Str("00:00:00")) == Ok(Int(0))
  {
    var t := "00" + ":" + "00" + ":" + "00" + "";
    assert t == "00:00:00";
    assert AllDigits("00") && DigitsValue("00") == 0;
    ClockValue("00", "00", "00", "");
  }

  /** The three parts a linear creative is given, set in the order the constructor sets them. */
  function Attach(ps: Props, mediaFiles: Value, tracking: TrackingEvents.Tracking, clicks: Props): (r: Props)
    requires DistinctKeys(ps) && TrackingEvents.Valid(tracking)
    ensures DistinctKeys(r)
    ensures Get(r, "$mediafiles") == mediaFiles
    ensures Get(r, "$trackingevents") == TrackingEvents.ToValue(tracking)
    ensures Get(r, "$videoclicks") == Obj(VideoClicksClass, clicks)
    ensures forall k :: k != "$mediafiles" && k != "$trackingevents" && k != "$videoclicks" ==> Get(r, k) == Get(ps, k)
  {
    var p1 := Put(ps, "$mediafiles", mediaFiles);
    var p2 := Put(p1, "$trackingevents", TrackingEvents.ToValue(tracking));
    Put(p2, "$videoclicks", Obj(VideoClicksClass, clicks))
  }

  /** `createCreative(tag)`: the Schema named `creative`; a linear one then gets its
      `MediaFiles` collection, its tracking events (seeded from `duration(false)`) and its
      video clicks, each built from the field of the same name. */
  function New(tag: Value): (r: Result<Value>)
    ensures r.Ok? ==> r.value.Obj? && r.value.cls == CreativeClass && DistinctKeys(r.value.props)
    ensures NoVastError(r)
  {
    var c :- Construct(tag, CreativeClass, "creative");
    var linear :- HasType(c, "linear");
    if !linear then Ok(c) else Linear(c)
  }

  /** The linear part of the constructor, on the constructed Schema `c`. */
  function Linear(c: Value): (r: Result<Value>)
    requires c.Obj? && DistinctKeys(c.props)
    ensures r.Ok? ==> r.value.Obj? && r.value.cls == c.cls && DistinctKeys(r.value.props)
    ensures NoVastError(r)
  {
    Assemble(c, MediaFile.Collection(Prop(c, "$mediafiles")),
      TrackingEvents.New(Prop(c, "$trackingevents"), RawDuration(c)),
      VideoClicks.New(Prop(c, "$videoclicks")))
  }

  /** The three parts, each of which may have failed, put on `c` in constructor order; the
      first failure is the constructor's. */
  function Assemble(c: Value, files: Result<Value>, tracking: Result<TrackingEvents.Tracking>, clicks: Result<Props>): (r: Result<Value>)
    requires c.Obj? && DistinctKeys(c.props)
    requires tracking.Ok? ==> TrackingEvents.Valid(tracking.value)
    ensures r.Ok? <==> files.Ok? && tracking.Ok? && clicks.Ok?
    ensures r.Ok? ==> r.value.Obj? && r.value.cls == c.cls && DistinctKeys(r.value.props)
    ensures NoVastError(files) && NoVastError(tracking) && NoVastError(clicks) ==> NoVastError(r)
  {
    if files.Err? then Err(files.error)
    else if tracking.Err? then Err(tracking.error)
    else if clicks.Err? then Err(clicks.error)
    else Ok(Obj(c.cls, Attach(c.props, files.value, tracking.value, clicks.value)))
  }

  /** What an assembled creative holds: the three parts under their names, and the
      Schema's value under every other name. */
  lemma {:induction false} AssembleParts(c: Value, files: Value, tracking: TrackingEvents.Tracking, clicks: Props)
    requires c.Obj? && DistinctKeys(c.props) && TrackingEvents.Valid(tracking)
    ensures var r := Assemble(c, Ok(files), Ok(tracking), Ok(clicks)).value;
      && Prop(r, "$mediafiles") == files
      && Prop(r, "$trackingevents") == TrackingEvents.ToValue(tracking)
      && Prop(r, "$videoclicks") == Obj(VideoClicksClass, clicks)
      && forall k :: k != "$mediafiles" && k != "$trackingevents" && k != "$videoclicks" ==> Prop(r, k) == Prop(c, k)
  {
    var r := Obj(c.cls, Attach(c.props, files, tracking, clicks));
    assert Assemble(c, Ok(files), Ok(tracking), Ok(clicks)) == Ok(r);
    ObjProps(r);
    ObjProps(c);
  }

  /** `createCreatives(items)`: a collection of creatives, ordered by sequence. */
  function Collection(items: Value): (r: Result<Value>)
    ensures r.Ok? ==> r.value.Obj? && r.value.cls == CreativesClass
    ensures NoVastError(r)
  {
    Build(items, CreativesClass, New)
  }

  /** `isLinear()` */
  function IsLinear(c: Value): Result<bool> { HasType(c, "linear") }

  /** `sequence()`: `None` for `false`, otherwise `parseInt($sequence)`. */
  function Sequence(c: Value): Option<Number> { SequenceOf(c) }

  /** `isSkippable()` */
  predicate IsSkippable(c: Value) { Truthy(Prop(c, "$skipoffset")) }

  /** `skipOffset()`: `None` for the `false` of a creative that cannot be skipped, otherwise
      the skip offset taken against `duration()`. */
  function SkipOffset(c: Value): (r: Result<Option<Number>>)
    ensures !IsSkippable(c) <==> r == Ok(None)
  {
    if !IsSkippable(c) then Ok(None)
    else
      var d :- Duration(c);
      var n :- OffsetFrom(d, Prop(c, "$skipoffset"));
      Ok(Some(n))
  }

  /** `trackingEvent(name)`: the bucket under the lower-cased name, or `[]` when it is
      missing or empty-valued; a creative without tracking events cannot be indexed. */
  function TrackingEvent(c: Value, name: string): (r: Result<Value>)
    ensures r.Ok? ==> Truthy(r.value)
  {
    var events := Prop(c, "$trackingevents");
    if events.Undefined? || events.Null? then Err(TypeError)
    else
      var bucket := Prop(events, "$" + Lower(name));
      Ok(if Truthy(bucket) then bucket else Arr([]))
  }

  /** `trackingEventProgress(second)`: the progress list of that (whole) second, or `[]`. */
  function TrackingEventProgress(c: Value, second: int): (r: Result<Value>)
    ensures r.Ok? ==> Truthy(r.value)
  {
    var progress :- TrackingEvent(c, "progress");
    var bucket := Prop(progress, IntToString(second));
    Ok(if Truthy(bucket) then bucket else Arr([]))
  }

  /** `videoClick(name)`: the click bucket under the lower-cased name. */
  function VideoClick(c: Value, name: string): (r: Result<Value>)
    ensures r.Ok? <==> !Prop(c, "$videoclicks").Undefined? && !Prop(c, "$videoclicks").Null?
  {
    var clicks := Prop(c, "$videoclicks");
    if clicks.Undefined? || clicks.Null? then Err(TypeError)
    else Ok(Prop(clicks, "$" + Lower(name)))
  }

  /** `clickThrough()`: asked of the video-clicks object. */
  function ClickThrough(c: Value): (r: Result<Value>)
  {
    var clicks :- VideoClicks.FromValue(Prop(c, "$videoclicks"));
    VideoClicks.ClickThrough(clicks)
  }

  /** `apiFramework()` */
  function ApiFramework(c: Value): (r: Value)
    ensures Truthy(r) <==> Truthy(Prop(c, "$apiframework"))
  {
    var api := Prop(c, "$apiframework");
    if Truthy(api) then api else Bool(false)
  }

  /** `isVPAID()` */
  function IsVPAID(c: Value): Result<bool> { MediaFile.IsVPAIDFramework(ApiFramework(c)) }

  /** `someMediaFile(condition)`: asked of the media-file collection. */
  function SomeMediaFile(c: Value, condition: Value -> bool): (r: Result<Value>)
    ensures r.Ok? ==> r.value == Bool(false) || (r.value in ItemsOf(Prop(c, "$mediafiles")) && condition(r.value))
  {
    var files := Prop(c, "$mediafiles");
    if files.Obj? && IsCollectionClass(files.cls) && Prop(files, "$items").Arr? then Ok(One(ItemsOf(files), condition))
    else Err(TypeError)
  }

  // ---------------------------------------------------------------- properties

  /** A creative that is not linear is exactly its Schema: nothing is added. */
  lemma {:induction false} NewNotLinear(tag: Value)
    requires Construct(tag, CreativeClass, "creative").Ok?
    requires IsLinear(Construct(tag, CreativeClass, "creative").value) == Ok(false)
    ensures New(tag) == Construct(tag, CreativeClass, "creative")
  {
  }

  /** A linear creative is built exactly when its three parts are. */
  lemma {:induction false} LinearOk(c: Value)
    requires c.Obj? && DistinctKeys(c.props)
    ensures Linear(c).Ok? <==>
      && MediaFile.Collection(Prop(c, "$mediafiles")).Ok?
      && TrackingEvents.New(Prop(c, "$trackingevents"), RawDuration(c)).Ok?
      && VideoClicks.New(Prop(c, "$videoclicks")).Ok?
  {
  }

  /** A linear creative holds its media-file collection, and every field other than its
      three parts is its Schema's. */
  lemma {:induction false} LinearFields(c: Value)
    requires c.Obj? && DistinctKeys(c.props) && Linear(c).Ok?
    ensures Prop(Linear(c).value, "$mediafiles") == MediaFile.Collection(Prop(c, "$mediafiles")).value
    ensures forall k :: k != "$mediafiles" && k != "$trackingevents" && k != "$videoclicks" ==>
      Prop(Linear(c).value, k) == Prop(c, k)
  {
  }

  /** The stored tracking object of a linear creative is the one built from its children. */
  lemma {:induction false} LinearTracking(c: Value)
    requires c.Obj? && DistinctKeys(c.props) && Linear(c).Ok?
    ensures var tracking := TrackingEvents.New(Prop(c, "$trackingevents"), RawDuration(c));
      tracking.Ok? && Prop(Linear(c).value, "$trackingevents") == TrackingEvents.ToValue(tracking.value)
  {
  }

  /** Read back, the stored tracking object is the one built from the children. */
  lemma {:induction false} LinearTrackingRead(c: Value)
    requires c.Obj? && DistinctKeys(c.props) && Linear(c).Ok?
    ensures TrackingEvents.FromValue(Prop(Linear(c).value, "$trackingevents")) ==
      TrackingEvents.New(Prop(c, "$trackingevents"), RawDuration(c))
  {
    LinearTracking(c);
    TrackingEvents.FromToValue(TrackingEvents.New(Prop(c, "$trackingevents"), RawDuration(c)).value);
  }

  /** Read back, the stored video clicks are the ones built from the children. */
  lemma {:induction false} LinearClicks(c: Value)
    requires c.Obj? && DistinctKeys(c.props) && Linear(c).Ok?
    ensures VideoClicks.FromValue(Prop(Linear(c).value, "$videoclicks")) == VideoClicks.New(Prop(c, "$videoclicks"))
  {
  }

  /** Which constructor path a Schema takes: a linear one goes through `Linear`. */
  lemma {:induction false} NewIsLinear(tag: Value)
    requires Construct(tag, CreativeClass, "creative").Ok?
    requires IsLinear(Construct(tag, CreativeClass, "creative").value) == Ok(true)
    ensures New(tag) == Linear(Construct(tag, CreativeClass, "creative").value)
  {
  }

  /** Against a stored tracking object, `trackingEvent(name)` is the bucket of that name,
      whatever the case of `name`. */
  lemma {:induction false} TrackingEventOf(c: Value, t: TrackingEvents.Tracking, name: string, i: nat)
    requires TrackingEvents.Valid(t) && Prop(c, "$trackingevents") == TrackingEvents.ToValue(t)
    requires i < |TrackingEvents.Names| && Lower(name) == TrackingEvents.Names[i]
    ensures TrackingEvent(c, name) == Ok(Arr(t.lists[i]))
  {
    TrackingEvents.ToValueBucket(t, i);
  }

  /** In a built linear creative, `trackingEvent(name)` is the list of the tracking children
      whose event is `name`, in any case mix, and that carry no offset, in document order. */
  lemma {:induction false} TrackingEventOfNew(tag: Value, name: string, i: nat)
    requires i < |TrackingEvents.Names| && Lower(name) == TrackingEvents.Names[i]
    requires New(tag).Ok? && Construct(tag, CreativeClass, "creative").Ok?
    requires IsLinear(Construct(tag, CreativeClass, "creative").value) == Ok(true)
    requires Prop(Construct(tag, CreativeClass, "creative").value, "$trackingevents").Arr?
    ensures var c := Construct(tag, CreativeClass, "creative").value;
      TrackingEvent(New(tag).value, name) ==
        Ok(Arr(TrackingEvents.Routed(Prop(c, "$trackingevents").items, TrackingEvents.Names[i])))
  {
    var c := Construct(tag, CreativeClass, "creative").value;
    var events := Prop(c, "$trackingevents").items;
    var t := TrackingEvents.New(Arr(events), RawDuration(c));
    assert t.Ok? && Prop(New(tag).value, "$trackingevents") == TrackingEvents.ToValue(t.value) by {
      NewIsLinear(tag);
      LinearTracking(c);
    }
    assert TrackingEvent(New(tag).value, name) == Ok(Arr(t.value.lists[i])) by {
      TrackingEventOf(New(tag).value, t.value, name, i);
    }
    TrackingEvents.NewLists(events, RawDuration(c), i);
  }

  /** Against a stored tracking object, an event name that is neither a bucket nor
      `progress` finds nothing and yields `[]`. */
  lemma {:induction false} TrackingEventUnknown(c: Value, t: TrackingEvents.Tracking, name: string)
    requires TrackingEvents.Valid(t) && Prop(c, "$trackingevents") == TrackingEvents.ToValue(t)
    requires Lower(name) !in TrackingEvents.Names && Lower(name) != "progress"
    ensures TrackingEvent(c, name) == Ok(Arr([]))
  {
    var ps := TrackingEvents.ToValue(t).props;
    var key := "$" + Lower(name);
    assert !Has(ps, key) by {
      assert key[1..] == Lower(name);
      forall j | 0 <= j < |ps| ensures ps[j].0 != key {
        if j < |TrackingEvents.Names| {
          assert ps[j].0[1..] == TrackingEvents.Names[j];
        } else {
          assert ps[j].0[1..] == "progress";
        }
      }
    }
  }

  /** Against a stored tracking object, `trackingEventProgress(s)` is the progress list of
      second `s` when the table has that second, and `[]` otherwise. */
  lemma {:induction false} TrackingEventProgressOf(c: Value, t: TrackingEvents.Tracking, second: int)
    requires TrackingEvents.Valid(t) && Prop(c, "$trackingevents") == TrackingEvents.ToValue(t)
    ensures var key := IntToString(second);
      TrackingEventProgress(c, second) == Ok(if Has(t.progress, key) then Get(t.progress, key) else Arr([]))
  {
    var key := IntToString(second);
    ProgressTable(c, t);
    PropObj(Obj(PlainObject, t.progress), key);
    if Has(t.progress, key) {
      assert Get(t.progress, key).Arr? by {
        var j := Find(t.progress, key);
        GetAt(t.progress, j);
      }
    }
  }

  /** Against a stored tracking object, `trackingEvent('progress')` is the progress table. */
  lemma {:induction false} ProgressTable(c: Value, t: TrackingEvents.Tracking)
    requires TrackingEvents.Valid(t) && Prop(c, "$trackingevents") == TrackingEvents.ToValue(t)
    ensures TrackingEvent(c, "progress") == Ok(Obj(PlainObject, t.progress))
  {
    assert Lower("progress") == "progress";
    TrackingEvents.ToValueProgress(t);
    PropObj(TrackingEvents.ToValue(t), "$progress");
  }

  /** In a built linear creative whose progress table was only seeded (no child carries an
      offset), every second 1 .. duration has an empty list and second 0 has none. */
  lemma {:induction false} ProgressSeconds(t: TrackingEvents.Tracking, n: nat, second: int)
    requires t.progress == TrackingEvents.Seed(n)
    ensures Has(t.progress, IntToString(second)) <==> 1 <= second <= n
  {
    TrackingEvents.SeedKeys(n, IntToString(second));
    if TrackingEvents.IsSecond(IntToString(second), n) {
      var s :| 1 <= s <= n && IntToString(second) == NatToString(s);
      if second >= 0 {
        NatToStringInjective(second, s);
      }
    }
    if 1 <= second <= n {
      assert IntToString(second) == NatToString(second);
    }
  }

  /** `clickThrough()` of a built linear creative is its last click-through URI, or `false`
      when it has none. */
  lemma {:induction false} ClickThroughOfNew(tag: Value)
    requires New(tag).Ok? && Construct(tag, CreativeClass, "creative").Ok?
    requires IsLinear(Construct(tag, CreativeClass, "creative").value) == Ok(true)
    requires Prop(Construct(tag, CreativeClass, "creative").value, "$videoclicks").Arr?
    ensures var clicks := Prop(Construct(tag, CreativeClass, "creative").value, "$videoclicks").items;
      var through := VideoClicks.Named(clicks, "$clickthrough");
      ClickThrough(New(tag).value) == Ok(if |through| == 0 then Bool(false) else through[|through| - 1])
  {
    var c := Construct(tag, CreativeClass, "creative").value;
    var clicks := Prop(c, "$videoclicks").items;
    assert VideoClicks.FromValue(Prop(New(tag).value, "$videoclicks")) == VideoClicks.New(Arr(clicks)) by {
      NewIsLinear(tag);
      LinearClicks(c);
    }
    VideoClicks.NewBuckets(clicks, "$clickthrough");
  }

  /** A duration written `hh:mm:ss` (or `hh:mm:ss.fff`) lasts 3600 h + 60 m + s seconds. */
  lemma {:induction false} DurationClock(c: Value, h: string, m: string, s: string, frac: string)
    requires |h| > 0 && |m| > 0 && |s| > 0 && AllDigits(h) && AllDigits(m) && AllDigits(s)
    requires frac == "" || (frac[0] == '.' && !Contains(frac, ":"))
    requires Prop(c, "$duration") == Str(h + ":" + m + ":" + s + frac)
    ensures var r := Duration(c);
      r.Ok? && r.value.Int? && r.value.i == 3600 * DigitsValue(h) + 60 * DigitsValue(m) + DigitsValue(s)
  {
    ClockValue(h, m, s, frac);
    DurationOfText(c, h + ":" + m + ":" + s + frac);
  }

  lemma {:induction false} DurationOfText(c: Value, t: string)
    requires |t| > 0 && Prop(c, "$duration") == Str(t)
    ensures Duration(c) == SecondsOf(Str(t))
  {
  }

  /** A percentage skip offset of 0 .. 100 lands within the duration. */
  lemma {:induction false} SkipOffsetWithin(c: Value, p: nat, d: nat)
    requires Prop(c, "$skipoffset") == Str(NatToString(p) + "%") && p <= 100
    requires Duration(c) == Ok(Int(d))
    ensures SkipOffset(c).Ok? && SkipOffset(c).value.Some?
    ensures var n := SkipOffset(c).value.value; n == RoundPercent(Int(p), Int(d)) && 0 <= n.i <= d
  {
    OffsetFromPercent(Int(d), p);
    PercentWithinDuration(p, d);
  }
}
