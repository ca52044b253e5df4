/** The player's tracker: video event names are normalised and looked up in the events
    table, the matching URIs of the ad or creative are selected, and a report goes to the
    app's tracking endpoint. The page, the device and the random source are parameters. */
module Tracker {
  import opened Strs
  import opened Js
  import opened EventsList
  import Coerce
  import Uri
  import Macro
  import Ad
  import Creative

  // ---------------------------------------------------------------- event names

  /** `__eventName(slot, name)`: the first lower-case `video` is removed, the rest lower-cased,
      and an alias applied. */
  function EventName(name: string, volume: Value): (r: string)
    ensures r == "[object Object]" || IsLower(r)
  {
    var n := Lower(ReplaceFirst(name, "video", ""));
    LowerIsLower(ReplaceFirst(name, "video", ""));
    Alias(n, volume)
  }

  /** `aliases[name]`: four renamings and the volume-dependent `volumechange`. The table is a
      plain object, so the two lower-case names it inherits answer too: `constructor` (a
      function, called: a fresh object) and `__proto__` (the prototype object); either turns
      the name into an object, whose key text is `[object Object]`. */
  function Alias(n: string, volume: Value): (r: string)
    ensures IsLower(n) ==> r == "[object Object]" || IsLower(r)
  {
    if n == "clickthru" then "clickthrough"
    else if n == "skipped" then "skip"
    else if n == "playing" then "resume"
    else if n == "paused" then "pause"
    else if n == "volumechange" then (if Truthy(volume) then "mute" else "unmute")
    else if n == "constructor" || n == "__proto__" then "[object Object]"
    else n
  }

  /** The names `aliases` answers for. */
  predicate IsAliasKey(n: string) {
    n in {"clickthru", "skipped", "playing", "paused", "volumechange", "constructor", "__proto__"}
  }

  // ---------------------------------------------------------------- video events

  /** What the tracker reads from the slot: its ad and creative, its tag's id, and the
      video's volume. */
  datatype Slot = Slot(ad: Value, creative: Value, tagId: Value, volume: Value)

  /** One reported event: the URIs to request with their macros, and the info of the app
      report. */
  datatype Report = Report(uris: seq<Value>, macros: Props, info: Props)

  /** The URIs an event's source provides. */
  function UrisOf(source: Source, name: string, slot: Slot): (r: Result<seq<Value>>)
  {
    match source
    case AdSource =>
      if name == "impression" then Ad.Spread(Ad.Impression(slot.ad))
      else if name == "error" then Ad.Spread(Ad.Error(slot.ad))
      else Ok([])
    case CreativeSource =>
      var bucket :- Creative.TrackingEvent(slot.creative, name);
      Ad.Spread(bucket)
    case ClicksSource =>
      var bucket :- Creative.VideoClick(slot.creative, "clicktracking");
      Ad.Spread(bucket)
    case NoSource => Ok([])
  }

  /** The macros an error report carries: its code under three names. */
  function ErrorMacros(code: Value): Props {
    [("errorcode", code), ("error_code", code), ("error", code)]
  }

  /** The app info of an ad event: the tag, the source `ad` and the event's code. */
  function AdInfo(tagId: Value, code: Value): (r: Props)
    ensures DistinctKeys(r) && Get(r, "tag") == tagId && Get(r, "source") == Str("ad") && Get(r, "status") == code
  {
    var r := [("tag", tagId), ("source", Str("ad")), ("status", code)];
    GetAt(r, 0);
    GetAt(r, 1);
    GetAt(r, 2);
    r
  }

  /** `Tracker.video(slot, evName, evData)` on the events table: `None` stands for the
      `false` it answers for an unknown name and for `timeupdate`. An `error` event writes
      its code into the table entry, which is shared by every later call. */
  function Video(table: map<string, Event>, slot: Slot, evName: string, evData: Value): (r: Result<(map<string, Event>, Option<Report>)>)
  {
    var name := EventName(evName, slot.volume);
    if name !in table then Ok((table, None))
    else
      var event := table[name];
      if Coerce.LooseEq(event.code, Num(13)) then Ok((table, None))
      else
        var isError := event.source == AdSource && name == "error";
        var next := if isError then table[name := event.(code := evData)] else table;
        var macros := if isError then ErrorMacros(evData) else [];
        var uris :- UrisOf(event.source, name, slot);
        Ok((next, Some(Report(uris, macros, AdInfo(slot.tagId, next[name].code)))))
  }

  /** `Tracker.request(uri, macros)`: the macros are substituted into the URI, which must be
      text. */
  function Request(uri: Value, macros: Props, env: Macro.Env): (r: Result<string>)
    ensures r.Ok? <==> uri.Str?
  {
    if uri.Str? then Ok(Macro.Uri(uri.s, env, macros)) else Err(TypeError)
  }

  // ---------------------------------------------------------------- app reports

  /** What an app report reads from the page: the campaign's website and id, the referrer,
      the device kind, a random number and the tracking endpoint (`''` when unset). */
  datatype AppEnv = AppEnv(websiteId: Value, campaignId: Value, referrer: Value, mobile: bool, random: Value, endpoint: string)

  function AppDefaults(env: AppEnv): (r: Props)
    ensures DistinctKeys(r)
  {
    [ ("w", env.websiteId), ("campaign", env.campaignId), ("referrer", env.referrer),
      ("platform", Str(if env.mobile then "mobile" else "desktop")), ("_rd", env.random) ]
  }

  /** `Tracker.app(info, extra, addExtra)`: nothing without a campaign; otherwise the info,
      over the defaults, with the extra merged in only when `addExtra` is set. */
  function App(env: Option<AppEnv>, info: Props, extra: Props, addExtra: bool): (r: Option<Props>)
    ensures r.Some? <==> env.Some?
    ensures r.Some? ==> DistinctKeys(r.value)
  {
    if env.None? then None
    else
      var base := Assign(AppDefaults(env.value), info);
      Some(if addExtra then Assign(base, extra) else base)
  }

  /** The URI an app report requests. */
  function AppUri(env: AppEnv, info: Props): string {
    env.endpoint + "/track?" + Uri.ObjectToQuery(info)
  }

  /** `Tracker.tag(evName, tagId)` */
  function TagReport(env: Option<AppEnv>, evName: Value, tagId: Value): (r: Option<Props>)
    ensures r.Some? <==> env.Some?
  {
    App(env, [("source", Str("tag")), ("status", evName)], [("tag", tagId)], true)
  }

  /** `Tracker.visit()`: the page-wide flag is set and the visit reported, once. */
  function Visit(visited: bool, env: Option<AppEnv>): (r: (bool, Option<Props>))
    ensures r.0
  {
    if visited then (true, None)
    else (true, App(env, [("source", Str("visit")), ("status", Str("ok"))], [], false))
  }

  // ---------------------------------------------------------------- properties

  /** A name without an alias is the input with its first `video` removed, lower-cased. */
  lemma {:induction false} EventNamePlain(name: string, volume: Value)
    requires !IsAliasKey(Lower(ReplaceFirst(name, "video", "")))
    ensures EventName(name, volume) == Lower(ReplaceFirst(name, "video", ""))
  {
  }

  /** The lower-case prefix is removed: `videostart` becomes `start`. */
  lemma {:induction false} EventNameRemovesVideo(volume: Value)
    ensures EventName("videostart", volume) == "start"
  {
    VideoStartReplaced();
    assert EventName("videostart", volume) == Alias("start", volume) by {
      StartShape();
      EventNameOfLower("start", volume);
    }
    AliasUnlisted("start", volume);
  }

  lemma {:induction false} StartShape()
    ensures var s := "start";
      IsLower(s) && forall i :: 0 <= i < |s| - 1 ==> s[i] != 'v' || s[i + 1] != 'i'
  {
    var s := "start";
    forall i | 0 <= i < |s| ensures !('A' <= s[i] <= 'Z') && s[i] != 'v' {
    }
  }

  lemma {:induction false} VideoStartReplaced()
    ensures ReplaceFirst("videostart", "video", "") == "start"
  {
    var s := "videostart";
    assert StartsWith(s, "video") by { assert s[..5] == "video"; }
    ReplaceAtStart(s, "video", "");
    assert s[5..] == "start";
  }

  /** Only the lower-case prefix is removed: `VideoStart` becomes `videostart`. */
  lemma {:induction false} EventNameKeepsVideo(volume: Value)
    ensures EventName("VideoStart", volume) == "videostart"
  {
    var t := "VideoStart";
    assert ReplaceFirst(t, "video", "") == t by { VideoStartHasNoVideo(); }
    assert Lower(t) == "videostart" by { LowerVideoStart(); }
    assert Alias("videostart", volume) == "videostart" by { AliasUnlisted("videostart", volume); }
  }

  lemma {:induction false} VideoStartHasNoVideo()
    ensures ReplaceFirst("VideoStart", "video", "") == "VideoStart"
  {
    var t := "VideoStart";
    forall i | 0 <= i < |t| - 1 ensures t[i] != 'v' {
    }
    NoVideo(t);
  }

  lemma {:induction false} LowerVideoStart()
    ensures Lower("VideoStart") == "videostart"
  {
    var t, l := "VideoStart", Lower("VideoStart");
    forall i | 0 <= i < |t| ensures l[i] == "videostart"[i] {
      assert l[i] == LowerChar(t[i]);
    }
  }

  /** Every name the alias table answers for is 6, 7, 9, 11 or 12 characters long. */
  lemma {:induction false} AliasUnlisted(n: string, volume: Value)
    requires |n| !in {6, 7, 9, 11, 12}
    ensures Alias(n, volume) == n
  {
  }

  /** A text with no `vi` holds no `video`. */
  lemma {:induction false} NoVideo(s: string)
    requires forall i :: 0 <= i < |s| - 1 ==> s[i] != 'v' || s[i + 1] != 'i'
    ensures ReplaceFirst(s, "video", "") == s
  {
    forall i | 0 <= i <= |s| ensures !OccursAt(s, "video", i) {
      if i + 5 <= |s| {
        assert s[i..i + 5][0] == s[i] && s[i..i + 5][1] == s[i + 1];
      }
    }
  }

  /** A lower-case name with no `vi` is only looked up in the aliases. */
  lemma {:induction false} EventNameOfLower(s: string, volume: Value)
    requires IsLower(s) && forall i :: 0 <= i < |s| - 1 ==> s[i] != 'v' || s[i + 1] != 'i'
    ensures EventName(s, volume) == Alias(s, volume)
  {
    NoVideo(s);
    LowerOfLower(s);
  }

  /** The four plain renamings of the alias table. */
  const Renamings: seq<(string, string)> :=
    [("clickthru", "clickthrough"), ("skipped", "skip"), ("playing", "resume"), ("paused", "pause")]

  /** `clickthru`, `skipped`, `playing` and `paused` are renamed. */
  lemma {:induction false} EventNameRenamed(i: nat, volume: Value)
    requires i < |Renamings|
    ensures EventName(Renamings[i].0, volume) == Renamings[i].1
  {
    EventNameOfLower(Renamings[i].0, volume);
  }

  /** `volumechange` reports `mute` when the volume is truthy and `unmute` otherwise. */
  lemma {:induction false} EventNameVolume(volume: Value)
    ensures EventName("volumechange", volume) == if Truthy(volume) then "mute" else "unmute"
  {
    var s := "volumechange";
    assert EventName(s, volume) == Alias(s, volume) by {
      VolumeChangeShape();
      EventNameOfLower(s, volume);
    }
    AliasVolumeChange(volume);
  }

  lemma {:induction false} AliasVolumeChange(volume: Value)
    ensures Alias("volumechange", volume) == if Truthy(volume) then "mute" else "unmute"
  {
    var s := "volumechange";
    assert |s| == 12;
  }

  lemma {:induction false} VolumeChangeShape()
    ensures var s := "volumechange";
      IsLower(s) && forall i :: 0 <= i < |s| - 1 ==> s[i] != 'v' || s[i + 1] != 'i'
  {
    var s := "volumechange";
    forall i | 0 <= i < |s| ensures !('A' <= s[i] <= 'Z') && (i > 0 ==> s[i] != 'v') {
    }
  }

  /** The names the alias table inherits turn into an object's key text, which no event
      carries. */
  lemma {:induction false} InheritedNamesIgnored(slot: Slot, name: string, evData: Value)
    requires name == "constructor" || name == "__proto__"
    ensures Video(Initial, slot, name, evData) == Ok((Initial, None))
  {
    assert EventName(name, slot.volume) !in Initial by {
      if name == "constructor" {
        EventNameOfLower("constructor", slot.volume);
      } else {
        EventNameOfLower("__proto__", slot.volume);
      }
      ObjectKeyNotAnEvent();
    }
    VideoIgnored(slot, name, evData);
  }

  lemma {:induction false} ObjectKeyNotAnEvent()
    ensures "[object Object]" !in Initial
  {
    TableNames();
    assert "[object Object]"[0] == '[';
  }

  /** A name that is not in the table, and `timeupdate`, report nothing and leave the table
      as it is. */
  lemma {:induction false} VideoIgnored(slot: Slot, evName: string, evData: Value)
    requires var name := EventName(evName, slot.volume); name !in Initial || name == "timeupdate"
    ensures Video(Initial, slot, evName, evData) == Ok((Initial, None))
  {
  }

  /** The reported URIs: the ad's impression or error list, the creative's tracking bucket
      of the event's name, and the `clicktracking` clicks for a click-through; an error
      carries its code as three macros and writes it into the table. */
  lemma {:induction false} VideoReports(table: map<string, Event>, slot: Slot, evName: string, evData: Value)
    requires var name := EventName(evName, slot.volume);
      name in table && !Coerce.LooseEq(table[name].code, Num(13))
    ensures var name := EventName(evName, slot.volume);
      var r := Video(table, slot, evName, evData);
      var source := table[name].source;
      && (r.Ok? <==> UrisOf(source, name, slot).Ok?)
      && (r.Ok? ==> r.value.1.Some? && r.value.1.value.uris == UrisOf(source, name, slot).value)
      && (r.Ok? && source == AdSource && name == "impression" ==> Ad.Spread(Ad.Impression(slot.ad)) == Ok(r.value.1.value.uris))
      && (r.Ok? && source == AdSource && name == "error" ==>
            && Ad.Spread(Ad.Error(slot.ad)) == Ok(r.value.1.value.uris)
            && r.value.1.value.macros == ErrorMacros(evData)
            && r.value.0 == table[name := table[name].(code := evData)]
            && Get(r.value.1.value.info, "status") == evData)
      && (r.Ok? && source == CreativeSource ==>
            Creative.TrackingEvent(slot.creative, name).Ok? && Ad.Spread(Creative.TrackingEvent(slot.creative, name).value) == Ok(r.value.1.value.uris))
      && (r.Ok? && source == ClicksSource ==>
            Creative.VideoClick(slot.creative, "clicktracking").Ok? && Ad.Spread(Creative.VideoClick(slot.creative, "clicktracking").value) == Ok(r.value.1.value.uris))
      && (r.Ok? && !(source == AdSource && name == "error") ==> r.value.0 == table && r.value.1.value.macros == [])
  {
  }

  /** The code an error writes into the shared entry is the one the next check reads: after
      an error reported with code 13, the next error is taken for a `timeupdate` and
      ignored. */
  lemma {:induction false} ErrorAfterCode13Ignored(slot: Slot, evData: Value)
    requires Ad.Spread(Ad.Error(slot.ad)).Ok?
    ensures var first := Video(Initial, slot, "error", Num(13));
      && first.Ok? && first.value.1.Some?
      && Video(first.value.0, slot, "error", evData) == Ok((first.value.0, None))
  {
    assert EventName("error", slot.volume) == "error" by { EventNameOfLower("error", slot.volume); }
    FirstErrorWritesCode(slot, Num(13));
    var table := Initial["error" := Event(Num(13), AdSource)];
    assert Coerce.LooseEq(table["error"].code, Num(13));
    Code13Ignored(table, slot, "error", evData);
  }

  /** The first error reported writes its code into the shared entry. */
  lemma {:induction false} FirstErrorWritesCode(slot: Slot, code: Value)
    requires Ad.Spread(Ad.Error(slot.ad)).Ok? && EventName("error", slot.volume) == "error"
    ensures var r := Video(Initial, slot, "error", code);
      r.Ok? && r.value.1.Some? && r.value.0 == Initial["error" := Event(code, AdSource)]
  {
    assert Initial["error"] == Event(Null, AdSource);
    assert !Coerce.LooseEq(Null, Num(13));
  }

  /** An entry holding code 13 is taken for a `timeupdate` and reports nothing. */
  lemma {:induction false} Code13Ignored(table: map<string, Event>, slot: Slot, evName: string, evData: Value)
    requires EventName(evName, slot.volume) in table && Coerce.LooseEq(table[EventName(evName, slot.volume)].code, Num(13))
    ensures Video(table, slot, evName, evData) == Ok((table, None))
  {
  }

  /** The app report: the info overrides the defaults; the extra is merged, and wins, only
      when `addExtra` is set. */
  lemma {:induction false} AppMerge(env: AppEnv, info: Props, extra: Props, addExtra: bool, k: string)
    requires DistinctKeys(info) && DistinctKeys(extra)
    ensures var r := App(Some(env), info, extra, addExtra).value;
      && (addExtra && Has(extra, k) ==> Get(r, k) == Get(extra, k))
      && (!(addExtra && Has(extra, k)) && Has(info, k) ==> Get(r, k) == Get(info, k))
      && (!(addExtra && Has(extra, k)) && !Has(info, k) ==> Get(r, k) == Get(AppDefaults(env), k))
      && (!addExtra ==> (Has(r, k) <==> Has(AppDefaults(env), k) || Has(info, k)))
  {
    var base := Assign(AppDefaults(env), info);
    AssignKeys(AppDefaults(env), info);
    if Has(info, k) {
      AssignGetSource(AppDefaults(env), info, k);
    }
    if addExtra {
      AssignKeys(base, extra);
      if Has(extra, k) {
        AssignGetSource(base, extra, k);
      }
    }
  }

  /** The visit is reported at most once: after the first call the flag is set and later
      calls report nothing. */
  lemma {:induction false} VisitOnce(visited: bool, env: Option<AppEnv>)
    ensures Visit(Visit(visited, env).0, env).1.None?
    ensures !visited ==> (Visit(visited, env).1.Some? <==> env.Some?)
  {
  }
}
