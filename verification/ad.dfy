/** `Ad`: a Schema named `ad`, always holding impression and error lists, its creatives as a
    `Creatives` collection and a redirect counter; `extendWithWrapper` folds a wrapper ad's
    tracking into it. `Ads` is the collection of ads. */
module Ad {
  import opened Strs
  import opened Js
  import opened Schemas
  import opened SchemaQueries
  import opened Units
  import opened Collections
  import opened Coerce
  import Creative
  import TrackingEvents
  import VideoClicks

  /** A field `New` makes sure is a list: it is left alone when truthy, else set to `[]`. */
  function Required(ps: Props, key: string): (r: Props)
    requires DistinctKeys(ps)
    ensures DistinctKeys(r)
    ensures Get(r, key) == if Truthy(Get(ps, key)) then Get(ps, key) else Arr([])
    ensures forall k :: k != key ==> Get(r, k) == Get(ps, k)
  {
    if Truthy(Get(ps, key)) then ps else Put(ps, key, Arr([]))
  }

  /** The last two fields the constructor sets: the creatives collection and the counter. */
  function Finish(ps: Props, creatives: Value): (r: Props)
    requires DistinctKeys(ps)
    ensures DistinctKeys(r)
    ensures Get(r, "$creatives") == creatives && Get(r, "$redirects") == Num(0)
    ensures forall k :: k != "$creatives" && k != "$redirects" ==> Get(r, k) == Get(ps, k)
  {
    Put(Put(ps, "$creatives", creatives), "$redirects", Num(0))
  }

  /** `createAd(tag)`: the Schema named `ad`, completed by `FromSchema`. */
  function New(tag: Value): (r: Result<Value>)
    ensures r.Ok? ==> r.value.Obj? && r.value.cls == AdClass && DistinctKeys(r.value.props)
    ensures NoVastError(r)
  {
    var a :- Construct(tag, AdClass, "ad");
    FromSchema(a, Creative.Collection(Prop(a, "$creatives")))
  }

  /** The constructor's work on the Schema `a`, given what `createCreatives` made of its
      creatives: a falsy impression or error becomes `[]`, the creatives are replaced by
      their collection, and the counter starts at 0. */
  function FromSchema(a: Value, creatives: Result<Value>): (r: Result<Value>)
    requires a.Obj? && DistinctKeys(a.props)
    ensures r.Ok? <==> creatives.Ok?
    ensures r.Ok? ==> r.value.Obj? && r.value.cls == AdClass && DistinctKeys(r.value.props)
    ensures r.Ok? ==> Get(r.value.props, "$redirects") == Num(0)
    ensures r.Ok? ==> (Get(r.value.props, "$impression") ==
      if Truthy(Get(a.props, "$impression")) then Get(a.props, "$impression") else Arr([]))
    ensures r.Ok? ==> (Get(r.value.props, "$error") ==
      if Truthy(Get(a.props, "$error")) then Get(a.props, "$error") else Arr([]))
    ensures r.Ok? ==> Get(r.value.props, "$creatives") == creatives.value
    ensures r.Ok? ==> forall k :: k != "$impression" && k != "$error" && k != "$creatives" && k != "$redirects" ==>
      Get(r.value.props, k) == Get(a.props, k)
    ensures r.Err? ==> r.error == creatives.error
  {
    if creatives.Err? then Err(creatives.error)
    else
      AdProps(a.props, creatives.value);
      Ok(Obj(AdClass, AdFields(a.props, creatives.value)))
  }

  function AdFields(ps: Props, creatives: Value): Props
    requires DistinctKeys(ps)
  {
    Finish(Required(Required(ps, "$impression"), "$error"), creatives)
  }

  /** The fields of a constructed ad, one by one. */
  lemma {:induction false} AdProps(ps: Props, creatives: Value)
    requires DistinctKeys(ps)
    ensures var r := AdFields(ps, creatives);
      && DistinctKeys(r)
      && Get(r, "$redirects") == Num(0)
      && Get(r, "$impression") == (if Truthy(Get(ps, "$impression")) then Get(ps, "$impression") else Arr([]))
      && Get(r, "$error") == (if Truthy(Get(ps, "$error")) then Get(ps, "$error") else Arr([]))
      && Get(r, "$creatives") == creatives
      && forall k :: k != "$impression" && k != "$error" && k != "$creatives" && k != "$redirects" ==>
           Get(r, k) == Get(ps, k)
  {
    assert "$impression"[1] != "$error"[1] && "$impression"[1] != "$creatives"[1] && "$impression"[1] != "$redirects"[1];
    assert "$error"[1] != "$creatives"[1] && "$error"[1] != "$redirects"[1];
  }

  /** `createAds(items)`: a collection of ads, ordered by sequence. */
  function Collection(items: Value): (r: Result<Value>)
    ensures r.Ok? ==> r.value.Obj? && r.value.cls == AdsClass
    ensures NoVastError(r)
  {
    Build(items, AdsClass, New)
  }

  function Impression(ad: Value): Value { Prop(ad, "$impression") }

  function Error(ad: Value): Value { Prop(ad, "$error") }

  function Creatives(ad: Value): Value { Prop(ad, "$creatives") }

  function Redirects(ad: Value): Value { Prop(ad, "$redirects") }

  /** `followAdditionalWrappers()`: true unless the attribute says otherwise. */
  function FollowAdditionalWrappers(ad: Value): (r: bool)
    ensures !Truthy(Prop(ad, "$followadditionalwrappers")) ==> r
  {
    Boolean(Prop(ad, "$followadditionalwrappers"), Some(true))
  }

  /** `allowMultipleAds()`: false unless the attribute says otherwise. */
  function AllowMultipleAds(ad: Value): (r: bool)
    ensures !Truthy(Prop(ad, "$allowmultipleads")) ==> !r
  {
    Boolean(Prop(ad, "$allowmultipleads"), Some(false))
  }

  /** `fallbackOnNoAd()`: false unless the attribute says otherwise. */
  function FallbackOnNoAd(ad: Value): (r: bool)
    ensures !Truthy(Prop(ad, "$fallbackonnoad")) ==> !r
  {
    Boolean(Prop(ad, "$fallbackonnoad"), Some(false))
  }

  /** `sequence()`: `None` for `false`, otherwise `parseInt($sequence)`. */
  function Sequence(ad: Value): Option<Number> { SequenceOf(ad) }

  // ---------------------------------------------------------------- redirects

  /** The counter is a number, as `New` leaves it. */
  predicate Counted(ad: Value) {
    ad.Obj? && DistinctKeys(ad.props) && Redirects(ad).Num?
  }

  /** `addRedirect()`: the counter goes up by one. */
  function AddRedirect(ad: Value): (r: Value)
    requires Counted(ad)
    ensures Counted(r) && r.cls == ad.cls
    ensures Redirects(r) == Num(Redirects(ad).n + 1)
    ensures forall k :: k != "$redirects" ==> Prop(r, k) == Prop(ad, k)
  {
    Obj(ad.cls, Put(ad.props, "$redirects", Num(Redirects(ad).n + 1)))
  }

  /** The ad after `k` calls of `addRedirect`. */
  function AddRedirects(ad: Value, k: nat): (r: Value)
    requires Counted(ad)
    ensures Counted(r)
    ensures Redirects(r) == Num(Redirects(ad).n + k)
    ensures forall f :: f != "$redirects" ==> Prop(r, f) == Prop(ad, f)
  {
    if k == 0 then ad else AddRedirect(AddRedirects(ad, k - 1))
  }

  /** `reachedRedirectsLimit(limit)`: `redirects() >= parseInt(limit)`, a numeric comparison
      that fails whenever either side is not a number. */
  predicate ReachedRedirectsLimit(ad: Value, limit: Value) {
    NumLe(FromNumber(ParseIntValue(limit)), ToNumber(Redirects(ad)))
  }

  // ---------------------------------------------------------------- extendWithWrapper

  /** `...v` in an argument list: a list gives its elements and a text its characters;
      anything else is not iterable. */
  function Spread(v: Value): (r: Result<seq<Value>>)
    ensures r.Ok? <==> v.Arr? || v.Str?
    ensures v.Arr? ==> r == Ok(v.items)
    ensures v.Str? ==> r.Ok? && |r.value| == |v.s|
  {
    if v.Arr? then Ok(v.items)
    else if v.Str? then Ok(seq(|v.s|, i requires 0 <= i < |v.s| => Str([v.s[i]])))
    else Err(TypeError)
  }

  /** `this[key].push(...from)`: the receiver's field must be a list. */
  function PushAll(ps: Props, key: string, from: Value): (r: Result<Props>)
    requires DistinctKeys(ps)
    ensures r.Ok? <==> Get(ps, key).Arr? && Spread(from).Ok?
    ensures r.Ok? ==> DistinctKeys(r.value)
    ensures r.Ok? ==> Get(r.value, key) == Arr(Get(ps, key).items + Spread(from).value)
    ensures r.Ok? ==> forall k :: k != key ==> Get(r.value, k) == Get(ps, k)
  {
    var theirs :- Spread(from);
    var mine := Get(ps, key);
    if !mine.Arr? then Err(TypeError) else Ok(Put(ps, key, Arr(mine.items + theirs)))
  }

  /** `if (typeof wrapper[key] != 'undefined') this[key] = wrapper[key]` */
  function Keep(ps: Props, key: string, wrapper: Value): (r: Props)
    requires DistinctKeys(ps)
    ensures DistinctKeys(r)
    ensures Get(r, key) == if Prop(wrapper, key).Undefined? then Get(ps, key) else Prop(wrapper, key)
    ensures forall k :: k != key ==> Get(r, k) == Get(ps, k)
  {
    if Prop(wrapper, key).Undefined? then ps else Put(ps, key, Prop(wrapper, key))
  }

  /** An object `withType` can be asked of: a collection holding a list. */
  predicate IsCollection(v: Value) {
    v.Obj? && IsCollectionClass(v.cls) && DistinctKeys(v.props) && Prop(v, "$items").Arr?
  }

  /** `creatives.withType('linear')`: the slots of the linear creatives. */
  function Linears(creatives: Value): (r: Result<seq<Option<Value>>>)
    ensures r.Ok? ==> IsCollection(creatives) && |r.value| <= |ItemsOf(creatives)|
  {
    if !IsCollection(creatives) then Err(TypeError)
    else
      var typed :- WithType(ItemsOf(creatives), Str("linear"), (item, i) => item);
      Ok(typed.slots)
  }

  /** The values of the filled slots, in index order, as `forEach` visits them. */
  function Present(slots: seq<Option<Value>>): (r: seq<Value>)
    ensures |r| <= |slots|
  {
    if |slots| == 0 then []
    else Present(slots[..|slots| - 1]) + (if slots[|slots| - 1].Some? then [slots[|slots| - 1].value] else [])
  }

  /** `wrapperLinear.trackingEvents()` of each wrapper linear, read back. */
  function TrackingOf(ws: seq<Value>): (r: Result<seq<TrackingEvents.Tracking>>)
    ensures r.Ok? ==> |r.value| == |ws| && TrackingEvents.AllValid(r.value)
  {
    if |ws| == 0 then Ok([])
    else
      var init :- TrackingOf(ws[..|ws| - 1]);
      var last :- TrackingEvents.FromValue(Prop(ws[|ws| - 1], "$trackingevents"));
      Ok(init + [last])
  }

  /** `wrapperLinear.videoClicks()` of each wrapper linear, read back. */
  function ClicksOf(ws: seq<Value>): (r: Result<seq<Props>>)
    ensures r.Ok? ==> |r.value| == |ws| && VideoClicks.AllValid(r.value)
  {
    if |ws| == 0 then Ok([])
    else
      var init :- ClicksOf(ws[..|ws| - 1]);
      var last :- VideoClicks.FromValue(Prop(ws[|ws| - 1], "$videoclicks"));
      Ok(init + [last])
  }

  /** The two stored parts a linear creative takes back after the merge. */
  function Restore(ps: Props, tracking: TrackingEvents.Tracking, clicks: Props): (r: Props)
    requires DistinctKeys(ps) && TrackingEvents.Valid(tracking)
    ensures DistinctKeys(r)
    ensures Get(r, "$trackingevents") == TrackingEvents.ToValue(tracking)
    ensures Get(r, "$videoclicks") == Obj(VideoClicksClass, clicks)
    ensures forall k :: k != "$trackingevents" && k != "$videoclicks" ==> Get(r, k) == Get(ps, k)
  {
    Put(Put(ps, "$trackingevents", TrackingEvents.ToValue(tracking)), "$videoclicks", Obj(VideoClicksClass, clicks))
  }

  /** One linear creative of the ad after `add` of every wrapper linear's tracking events
      and video clicks, in wrapper order. */
  function ExtendCreative(c: Value, ts: seq<TrackingEvents.Tracking>, cs: seq<Props>): (r: Result<Value>)
    requires TrackingEvents.AllValid(ts) && VideoClicks.AllValid(cs)
  {
    if !(c.Obj? && DistinctKeys(c.props)) then Err(TypeError)
    else
      var mine :- TrackingEvents.FromValue(Prop(c, "$trackingevents"));
      var clicks :- VideoClicks.FromValue(Prop(c, "$videoclicks"));
      var merged :- VideoClicks.AddEach(clicks, cs);
      Ok(Obj(c.cls, Restore(c.props, TrackingEvents.AddEach(mine, ts), merged)))
  }

  /** The ad's creative items with every filled slot passed through `extend`, which is one
      creative's merge with the wrapper's linears. */
  function ExtendItems(items: seq<Value>, slots: seq<Option<Value>>, extend: Value -> Result<Value>): (r: Result<seq<Value>>)
    ensures r.Ok? ==> |r.value| == |items|
  {
    if |items| == 0 then Ok([])
    else
      var n := |items| - 1;
      var init :- ExtendItems(items[..n], slots, extend);
      var last :- ExtendSlot(items[n], n < |slots| && slots[n].Some?, extend);
      Ok(init + [last])
  }

  /** One item of the merge: extended when its slot holds a linear creative, else kept. */
  function ExtendSlot(item: Value, linear: bool, extend: Value -> Result<Value>): (r: Result<Value>)
    ensures !linear ==> r == Ok(item)
  {
    if linear then extend(item) else Ok(item)
  }

  /** The creatives part of `extendWithWrapper`: for each wrapper linear, each linear of the
      ad takes its tracking events and video clicks. Nothing of the ad is looked at when the
      wrapper has no linear, and nothing of the wrapper's linears when the ad has none. */
  function AddWrapperLinears(ps: Props, wrapperCreatives: Value): (r: Result<Props>)
    requires DistinctKeys(ps)
    ensures r.Ok? ==> DistinctKeys(r.value)
    ensures r.Ok? ==> forall k :: k != "$creatives" ==> Get(r.value, k) == Get(ps, k)
  {
    var theirs :- Linears(wrapperCreatives);
    var ws := Present(theirs);
    if |ws| == 0 then Ok(ps)
    else
      var creatives := Get(ps, "$creatives");
      var mine :- Linears(creatives);
      if |Present(mine)| == 0 then Ok(ps)
      else
        var ts :- TrackingOf(ws);
        var cs :- ClicksOf(ws);
        var items :- ExtendItems(ItemsOf(creatives), mine, c => ExtendCreative(c, ts, cs));
        Ok(Put(ps, "$creatives", Obj(creatives.cls, Put(creatives.props, "$items", Arr(items)))))
  }

  /** The impression and error part of `extendWithWrapper`. */
  function PushBoth(ps: Props, wrapper: Value): (r: Result<Props>)
    requires DistinctKeys(ps)
    ensures r.Ok? <==> (Get(ps, "$impression").Arr? && Get(ps, "$error").Arr? &&
      Spread(Prop(wrapper, "$impression")).Ok? && Spread(Prop(wrapper, "$error")).Ok?)
    ensures r.Ok? ==> DistinctKeys(r.value)
    ensures r.Ok? ==> (Get(r.value, "$impression") ==
      Arr(Get(ps, "$impression").items + Spread(Prop(wrapper, "$impression")).value))
    ensures r.Ok? ==> Get(r.value, "$error") == Arr(Get(ps, "$error").items + Spread(Prop(wrapper, "$error")).value)
    ensures r.Ok? ==> forall k :: k != "$impression" && k != "$error" ==> Get(r.value, k) == Get(ps, k)
  {
    var p1 :- PushAll(ps, "$impression", Prop(wrapper, "$impression"));
    PushAll(p1, "$error", Prop(wrapper, "$error"))
  }

  /** The attributes part of `extendWithWrapper`. */
  function KeepBoth(ps: Props, wrapper: Value): (r: Props)
    requires DistinctKeys(ps)
    ensures DistinctKeys(r)
    ensures Get(r, "$redirects") ==
      if Prop(wrapper, "$redirects").Undefined? then Get(ps, "$redirects") else Prop(wrapper, "$redirects")
    ensures Get(r, "$fallbackonnoad") ==
      if Prop(wrapper, "$fallbackonnoad").Undefined? then Get(ps, "$fallbackonnoad") else Prop(wrapper, "$fallbackonnoad")
    ensures forall k :: k != "$redirects" && k != "$fallbackonnoad" ==> Get(r, k) == Get(ps, k)
  {
    Keep(Keep(ps, "$redirects", wrapper), "$fallbackonnoad", wrapper)
  }

  /** `ad.extendWithWrapper(wrapper)`: the wrapper's impression and error URIs are appended
      to the ad's, its linear tracking is added to the ad's linear creatives, and its
      `$redirects` and `$fallbackonnoad` are taken over when defined. */
  function ExtendWithWrapper(ad: Value, wrapper: Value): (r: Result<Value>)
    requires ad.Obj? && DistinctKeys(ad.props)
    ensures r.Ok? ==> r.value.Obj? && r.value.cls == ad.cls && DistinctKeys(r.value.props)
  {
    var p2 :- PushBoth(ad.props, wrapper);
    var p3 :- AddWrapperLinears(p2, Prop(wrapper, "$creatives"));
    Ok(Obj(ad.cls, KeepBoth(p3, wrapper)))
  }

  // ---------------------------------------------------------------- properties

  /** A Schema named `ad` becomes an ad exactly when its creatives make a collection. */
  lemma {:induction false} NewFromSchema(tag: Value)
    requires Construct(tag, AdClass, "ad").Ok?
    ensures var a := Construct(tag, AdClass, "ad").value;
      New(tag) == FromSchema(a, Creative.Collection(Prop(a, "$creatives")))
  {
  }

  /** `extendWithWrapper` is its three stages in turn. */
  lemma {:induction false} ExtendStages(ad: Value, wrapper: Value)
    requires ad.Obj? && DistinctKeys(ad.props) && ExtendWithWrapper(ad, wrapper).Ok?
    ensures PushBoth(ad.props, wrapper).Ok?
    ensures var p2 := PushBoth(ad.props, wrapper).value;
      && AddWrapperLinears(p2, Prop(wrapper, "$creatives")).Ok?
      && ExtendWithWrapper(ad, wrapper).value ==
           Obj(ad.cls, KeepBoth(AddWrapperLinears(p2, Prop(wrapper, "$creatives")).value, wrapper))
  {
  }

  /** After `extendWithWrapper`, the ad's impression and error URIs come first and the
      wrapper's follow, in order. */
  lemma {:induction false} ExtendAppends(ad: Value, wrapper: Value)
    requires ad.Obj? && DistinctKeys(ad.props) && ExtendWithWrapper(ad, wrapper).Ok?
    ensures Impression(ad).Arr? && Error(ad).Arr?
    ensures Impression(ExtendWithWrapper(ad, wrapper).value) ==
      Arr(Impression(ad).items + Spread(Impression(wrapper)).value)
    ensures Error(ExtendWithWrapper(ad, wrapper).value) ==
      Arr(Error(ad).items + Spread(Error(wrapper)).value)
  {
    ExtendStages(ad, wrapper);
    PropObj(ad, "$impression");
    PropObj(ad, "$error");
    ListAppended(ad, wrapper, "$impression");
    ListAppended(ad, wrapper, "$error");
  }

  lemma {:induction false} ListAppended(ad: Value, wrapper: Value, k: string)
    requires ad.Obj? && DistinctKeys(ad.props) && ExtendWithWrapper(ad, wrapper).Ok?
    requires k == "$impression" || k == "$error"
    ensures Get(ad.props, k).Arr?
    ensures Prop(ExtendWithWrapper(ad, wrapper).value, k) == Arr(Get(ad.props, k).items + Spread(Prop(wrapper, k)).value)
  {
    ExtendStages(ad, wrapper);
    PropObj(ExtendWithWrapper(ad, wrapper).value, k);
  }

  /** An ad whose impression or error is not a list cannot be extended. */
  lemma {:induction false} ExtendNeedsLists(ad: Value, wrapper: Value)
    requires ad.Obj? && DistinctKeys(ad.props)
    requires !Impression(ad).Arr? || !Error(ad).Arr?
    ensures ExtendWithWrapper(ad, wrapper).Err?
  {
    PropObj(ad, "$impression");
    PropObj(ad, "$error");
  }

  /** `extendWithWrapper` takes over the wrapper's counter when it is defined, and
      otherwise keeps the ad's own. */
  lemma {:induction false} ExtendKeepsRedirects(ad: Value, wrapper: Value)
    requires ad.Obj? && DistinctKeys(ad.props) && ExtendWithWrapper(ad, wrapper).Ok?
    ensures Redirects(ExtendWithWrapper(ad, wrapper).value) ==
      if Redirects(wrapper).Undefined? then Redirects(ad) else Redirects(wrapper)
  {
    ExtendStages(ad, wrapper);
    PropObj(ad, "$redirects");
    PropObj(ExtendWithWrapper(ad, wrapper).value, "$redirects");
  }

  /** Likewise for the fallback flag. */
  lemma {:induction false} ExtendKeepsFallback(ad: Value, wrapper: Value)
    requires ad.Obj? && DistinctKeys(ad.props) && ExtendWithWrapper(ad, wrapper).Ok?
    ensures Prop(ExtendWithWrapper(ad, wrapper).value, "$fallbackonnoad") ==
      if Prop(wrapper, "$fallbackonnoad").Undefined? then Prop(ad, "$fallbackonnoad") else Prop(wrapper, "$fallbackonnoad")
  {
    ExtendStages(ad, wrapper);
    PropObj(ad, "$fallbackonnoad");
    PropObj(ExtendWithWrapper(ad, wrapper).value, "$fallbackonnoad");
  }

  /** Every field of the ad other than those five is left as it was. */
  lemma {:induction false} ExtendOthers(ad: Value, wrapper: Value, k: string)
    requires ad.Obj? && DistinctKeys(ad.props) && ExtendWithWrapper(ad, wrapper).Ok?
    requires k != "$impression" && k != "$error" && k != "$creatives" && k != "$redirects" && k != "$fallbackonnoad"
    ensures Prop(ExtendWithWrapper(ad, wrapper).value, k) == Prop(ad, k)
  {
    ExtendStages(ad, wrapper);
    PropObj(ad, k);
    PropObj(ExtendWithWrapper(ad, wrapper).value, k);
  }

  /** Ads are ordered by sequence, stably; they are exactly the ads made from the items. */
  lemma {:induction false} CollectionSorted(items: Value)
    requires Walked(items).Ok? && MapAll(Walked(items).value, New).Ok?
    ensures Collection(items).Ok?
    ensures var made := MapAll(Walked(items).value, New).value;
      var ads := ItemsOf(Collection(items).value);
      Sorted(ads, SortKey) && multiset(ads) == multiset(made)
  {
    BuildSpec(items, AdsClass, New);
  }

  /** A fresh ad that was redirected `k` times has a counter of `k`. */
  lemma {:induction false} NewRedirected(a: Value, creatives: Result<Value>, k: nat)
    requires a.Obj? && DistinctKeys(a.props) && creatives.Ok?
    ensures Counted(FromSchema(a, creatives).value)
    ensures Redirects(AddRedirects(FromSchema(a, creatives).value, k)) == Num(k)
  {
    PropObj(FromSchema(a, creatives).value, "$redirects");
  }

  /** Against a limit written in digits, the limit is reached exactly when the counter is at
      least that number. */
  lemma {:induction false} ReachedRedirectsLimitSpec(ad: Value, limit: nat)
    requires Counted(ad)
    ensures ReachedRedirectsLimit(ad, Str(NatToString(limit))) <==> Redirects(ad).n >= limit
  {
    ParseIntOfNat(limit);
  }

  /** A limit that is not a number is never reached. */
  lemma {:induction false} ReachedRedirectsLimitNaN(ad: Value, word: string)
    requires |word| > 0 && 'a' <= word[0] <= 'z'
    ensures !ReachedRedirectsLimit(ad, Str(word))
  {
    WordIsNaN(word);
  }

  /** A counted wrapper leaves a counted ad counted. */
  lemma {:induction false} ExtendCounted(ad: Value, wrapper: Value)
    requires Counted(ad) && ExtendWithWrapper(ad, wrapper).Ok?
    requires Redirects(wrapper).Undefined? || Redirects(wrapper).Num?
    ensures Counted(ExtendWithWrapper(ad, wrapper).value)
  {
    ExtendKeepsRedirects(ad, wrapper);
  }

  /** The items after the merge: every linear slot's creative extended, every other item
      as it was; the merge fails exactly when one linear creative refuses. */
  lemma {:induction false} ExtendItemsSpec(items: seq<Value>, slots: seq<Option<Value>>, extend: Value -> Result<Value>)
    ensures ExtendItems(items, slots, extend).Ok? <==>
      forall j :: 0 <= j < |items| ==> ExtendSlot(items[j], j < |slots| && slots[j].Some?, extend).Ok?
    ensures ExtendItems(items, slots, extend).Ok? ==> forall j :: 0 <= j < |items| ==>
      ExtendItems(items, slots, extend).value[j] == ExtendSlot(items[j], j < |slots| && slots[j].Some?, extend).value
  {
    if |items| > 0 {
      var n := |items| - 1;
      ExtendItemsSpec(items[..n], slots, extend);
      assert forall j :: 0 <= j < n ==> items[..n][j] == items[j];
    }
  }

  /** A linear creative of the ad, once extended, holds as tracking events its own added
      with every wrapper linear's, and as video clicks its own added with every wrapper
      linear's, in wrapper order; nothing else of it changes. */
  lemma {:induction false} ExtendCreativeSpec(c: Value, ts: seq<TrackingEvents.Tracking>, cs: seq<Props>)
    requires TrackingEvents.AllValid(ts) && VideoClicks.AllValid(cs)
    requires ExtendCreative(c, ts, cs).Ok?
    ensures var mine := TrackingEvents.FromValue(Prop(c, "$trackingevents"));
      var r := ExtendCreative(c, ts, cs).value;
      && mine.Ok?
      && TrackingEvents.FromValue(Prop(r, "$trackingevents")) == Ok(TrackingEvents.AddEach(mine.value, ts))
  {
    var mine := TrackingEvents.FromValue(Prop(c, "$trackingevents")).value;
    var r := ExtendCreative(c, ts, cs).value;
    PropObj(r, "$trackingevents");
    TrackingEvents.FromToValue(TrackingEvents.AddEach(mine, ts));
  }

  /** The video-clicks half of `ExtendCreativeSpec`, and the fields left alone. */
  lemma {:induction false} ExtendCreativeClicks(c: Value, ts: seq<TrackingEvents.Tracking>, cs: seq<Props>)
    requires TrackingEvents.AllValid(ts) && VideoClicks.AllValid(cs)
    requires ExtendCreative(c, ts, cs).Ok?
    ensures var clicks := VideoClicks.FromValue(Prop(c, "$videoclicks"));
      var r := ExtendCreative(c, ts, cs).value;
      && clicks.Ok?
      && VideoClicks.FromValue(Prop(r, "$videoclicks")) == VideoClicks.AddEach(clicks.value, cs)
      && forall k :: k != "$trackingevents" && k != "$videoclicks" ==> Prop(r, k) == Prop(c, k)
  {
    var r := ExtendCreative(c, ts, cs).value;
    PropObj(r, "$videoclicks");
    forall k | k != "$trackingevents" && k != "$videoclicks" ensures Prop(r, k) == Prop(c, k) {
      PropObj(r, k);
      PropObj(c, k);
    }
  }

  /** When the wrapper has a linear creative and so has the ad, the ad's creatives become
      the merged items, in the same collection; otherwise nothing changes. */
  lemma {:induction false} AddWrapperLinearsSpec(ps: Props, wrapperCreatives: Value)
    requires DistinctKeys(ps) && AddWrapperLinears(ps, wrapperCreatives).Ok?
    ensures var ws := Present(Linears(wrapperCreatives).value);
      var creatives := Get(ps, "$creatives");
      var r := AddWrapperLinears(ps, wrapperCreatives).value;
      if |ws| == 0 || |Present(Linears(creatives).value)| == 0 then r == ps
      else
        && TrackingOf(ws).Ok? && ClicksOf(ws).Ok?
        && var ts := TrackingOf(ws).value;
           var cs := ClicksOf(ws).value;
           var items := ExtendItems(ItemsOf(creatives), Linears(creatives).value, c => ExtendCreative(c, ts, cs));
           && items.Ok?
           && Get(r, "$creatives") == Obj(creatives.cls, Put(creatives.props, "$items", Arr(items.value)))
  {
  }
}
