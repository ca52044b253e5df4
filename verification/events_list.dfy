/** The player's table of reportable video events: each name has a report code and says
    where its tracking URIs come from. */
module EventsList {
  import opened Js
  import TrackingEvents

  /** Where the URIs of an event come from: nowhere, the ad, the creative's tracking
      events, or the creative's video clicks. */
  datatype Source = NoSource | AdSource | CreativeSource | ClicksSource

  /** One entry: the report code (`null` for `error` until a call fills it in) and the
      source. */
  datatype Event = Event(code: Value, source: Source)

  /** The sixteen event names, in table order. */
  const Names: seq<string> := [
    "filled", "loaded", "start", "impression", "error", "firstquartile", "midpoint",
    "thirdquartile", "complete", "skip", "pause", "resume", "mute", "unmute", "timeupdate",
    "clickthrough"
  ]

  /** The table as the module defines it. */
  const Initial: map<string, Event> := map[
    "filled" := Event(Num(0), NoSource),
    "loaded" := Event(Num(1), NoSource),
    "start" := Event(Num(2), CreativeSource),
    "impression" := Event(Num(3), AdSource),
    "error" := Event(Null, AdSource),
    "firstquartile" := Event(Num(4), CreativeSource),
    "midpoint" := Event(Num(5), CreativeSource),
    "thirdquartile" := Event(Num(6), CreativeSource),
    "complete" := Event(Num(7), CreativeSource),
    "skip" := Event(Num(8), CreativeSource),
    "pause" := Event(Num(9), CreativeSource),
    "resume" := Event(Num(10), CreativeSource),
    "mute" := Event(Num(11), CreativeSource),
    "unmute" := Event(Num(12), CreativeSource),
    "timeupdate" := Event(Num(13), CreativeSource),
    "clickthrough" := Event(Num(14), ClicksSource)
  ]

  /** The code of each name, position by position (`null` for `error`). */
  const Codes: seq<Value> := [
    Num(0), Num(1), Num(2), Num(3), Null, Num(4), Num(5), Num(6), Num(7), Num(8), Num(9),
    Num(10), Num(11), Num(12), Num(13), Num(14)
  ]

  // ---------------------------------------------------------------- properties

  /** The table holds exactly the sixteen names, each once. */
  lemma {:induction false} TableNames()
    ensures |Names| == 16 && forall i, j :: 0 <= i < j < |Names| ==> Names[i] != Names[j]
    ensures Initial.Keys == set n | n in Names
  {
  }

  /** Position `i` of the table carries code `Codes[i]`: `error`'s code is `null` and the
      other fifteen names carry the codes 0 to 14 in table order, so no two share a code. */
  lemma {:induction false} TableCodes(i: nat)
    requires i < |Names|
    ensures |Codes| == |Names| && Initial[Names[i]].code == Codes[i]
    ensures Codes[i].Null? <==> Names[i] == "error"
    ensures i < 4 ==> Codes[i] == Num(i)
    ensures i > 4 ==> Codes[i] == Num(i - 1)
  {
  }

  /** Only `impression` and `error` come from the ad, only `clickthrough` from the video
      clicks, and `filled` and `loaded` from nowhere. */
  lemma {:induction false} TableSources(n: string)
    requires n in Initial
    ensures Initial[n].source == AdSource <==> n == "impression" || n == "error"
    ensures Initial[n].source == ClicksSource <==> n == "clickthrough"
    ensures Initial[n].source == NoSource <==> n == "filled" || n == "loaded"
  {
  }

  /** Every creative-sourced name other than `timeupdate` names a tracking-event bucket. */
  lemma {:induction false} CreativeNamesAreBuckets(n: string)
    requires n in Initial && Initial[n].source == CreativeSource && n != "timeupdate"
    ensures TrackingEvents.Position(n).Some?
  {
  }
}
