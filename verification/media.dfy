/** The choice of a media file for a slot (`src/player/slot/media.js`). From a creative's
    media files it keeps the VPAID ones or the others as the framework preference says,
    drops the Flash ones on a device without Flash, sorts by the type preference list,
    keeps the files of the first file's type and, on a mobile device, sorts them by width;
    the first survivor is the preferred file. The device (Flash support, mobile) is a
    parameter. */
module Media {
  import opened Js
  import opened Coerce
  import SchemaQueries
  import SchemaFacts
  import MediaFile
  import Collections

  /** The preferred media types, best first. */
  function MediaPriority(): seq<string> {
    [
    "video/mp4", "video/ogg", "video/webm", "video/x-flv", "text/javascript",
    "application/javascript", "application/x-javascript", "application/x-shockwave-flash"]
  }

  predicate IsFlashType(s: string) {
    s == "video/x-flv" || s == "application/x-shockwave-flash"
  }

  /** The preference list a player uses: without Flash the two Flash types are deleted. */
  function Priority(flash: bool): (r: seq<string>)
    ensures flash ==> r == MediaPriority()
    ensures !flash ==> forall s :: s in r <==> s in MediaPriority() && !IsFlashType(s)
  {
    if flash then MediaPriority()
    else [
      "video/mp4", "video/ogg", "video/webm", "text/javascript", "application/javascript",
      "application/x-javascript"
    ]
  }

  /** The state of the selection: whether VPAID files are preferred, the type preference
      list, and the files still preferred. */
  datatype Media = Media(framework: bool, priority: seq<string>, preferred: seq<Value>)

  /** `new Media(player)` on a device with or without Flash. */
  function New(flash: bool): (r: Media)
    ensures !r.framework && r.preferred == [] && r.priority == Priority(flash)
  {
    Media(false, Priority(flash), [])
  }

  /** `preferFramework()` */
  function PreferFramework(m: Media): (r: Media)
    ensures r.framework && r.priority == m.priority && r.preferred == m.preferred
  {
    m.(framework := true)
  }

  /** `__priorityIndex(type)`: the position of the type in the list (compared strictly),
      or the list's length for a type not in it. */
  function IndexIn(list: seq<string>, t: Value): (r: nat)
    ensures r <= |list|
    ensures r < |list| ==> t == Str(list[r]) && forall j :: 0 <= j < r ==> list[j] != t.s
    ensures r == |list| <==> !(t.Str? && t.s in list)
  {
    if |list| == 0 then 0
    else if t == Str(list[0]) then 0
    else 1 + IndexIn(list[1..], t)
  }

  /** The sort key of `_setByPriority`: the position of the file's type. */
  function PriorityOf(list: seq<string>, m: Value): nat {
    IndexIn(list, SchemaQueries.Type(m))
  }

  function PriorityKey(list: seq<string>): Value -> int {
    m => PriorityOf(list, m)
  }

  /** The test of `_setByFramework`: a VPAID file passes only with the framework
      preferred, any other file always. */
  function FrameworkTest(framework: bool, m: Value): (r: Result<bool>)
    ensures r.Ok? <==> MediaFile.IsVPAID(m).Ok?
    ensures r.Ok? ==> (r.value <==> framework || !MediaFile.IsVPAID(m).value)
  {
    var vpaid :- MediaFile.IsVPAID(m);
    Ok((framework && vpaid) || !vpaid)
  }

  /** `_setByFramework()`: when no file passes, all are kept. */
  function ByFramework(files: seq<Value>, framework: bool): (r: Result<seq<Value>>)
  {
    var kept :- Collections.TryFilter(files, m => FrameworkTest(framework, m));
    Ok(if |kept| > 0 then kept else files)
  }

  /** The test of `_removeUnsupportedByDevice`: without Flash a file that needs it fails. */
  function DeviceTest(flash: bool, m: Value): (r: Result<bool>)
    ensures flash ==> r == Ok(true)
    ensures !flash ==> (r.Ok? <==> MediaFile.RequiresFlash(m).Ok?)
    ensures !flash && r.Ok? ==> (r.value <==> !MediaFile.RequiresFlash(m).value)
  {
    if flash then Ok(true)
    else
      var needs :- MediaFile.RequiresFlash(m);
      Ok(!needs)
  }

  /** `_removeUnsupportedByDevice()` */
  function ByDevice(files: seq<Value>, flash: bool): Result<seq<Value>> {
    Collections.TryFilter(files, m => DeviceTest(flash, m))
  }

  /** `_setByPriority()`: a stable sort by preference position. */
  function ByPriority(files: seq<Value>, list: seq<string>): seq<Value> {
    Collections.Sort(files, PriorityKey(list))
  }

  /** The test of `_setByFirstType`: the file's type loosely equals the given one. */
  predicate SharesType(m: Value, t: Value) {
    LooseEq(SchemaQueries.Type(m), t)
  }

  function SameType(t: Value): Value -> bool {
    m => SharesType(m, t)
  }

  /** `_setByFirstType()`: only the files of the first file's type remain. */
  function ByFirstType(files: seq<Value>): seq<Value> {
    if |files| == 0 then files
    else SchemaFacts.Filter(files, SameType(SchemaQueries.Type(files[0])))
  }

  /** The width a mobile sort compares; a width that is no number compares as 0. */
  function WidthKey(m: Value): int {
    match MediaFile.Width(m)
    case Int(i) => i
    case NaN => 0
  }

  /** `_setBySizes()` on a mobile device: ascending width, stably. */
  function BySizes(files: seq<Value>, mobile: bool): seq<Value> {
    if mobile then Collections.Sort(files, WidthKey) else files
  }

  /** `setMediaFiles(files)` */
  function SetMediaFiles(m: Media, files: seq<Value>, flash: bool, mobile: bool): (r: Result<Media>)
    ensures r.Ok? ==> r.value.framework == m.framework && r.value.priority == m.priority
  {
    var a :- ByFramework(files, m.framework);
    var b :- ByDevice(a, flash);
    var c := ByPriority(b, m.priority);
    var d := ByFirstType(c);
    Ok(m.(preferred := BySizes(d, mobile)))
  }

  /** `preferred()`: the first file left, or `false`. */
  function Preferred(m: Media): (r: Value)
    ensures |m.preferred| > 0 ==> r == m.preferred[0]
    ensures |m.preferred| == 0 ==> r == Bool(false)
  {
    if |m.preferred| > 0 then m.preferred[0] else Bool(false)
  }

  // ---------------------------------------------------------------- properties

  /** Without Flash the preference list names no Flash type, and it keeps the other types
      in their order. */
  lemma {:induction false} PriorityWithoutFlash()
    ensures forall s :: s in Priority(false) ==> !IsFlashType(s)
    ensures Priority(false) == MediaPriority()[..3] + MediaPriority()[4..7]
  {
  }

  /** The framework filter answers when every file answers `isVPAID`. Non-VPAID files are
      always kept; VPAID files are kept only with the framework preferred; and when no file
      passes, every file is kept. */
  lemma {:induction false} ByFrameworkSpec(files: seq<Value>, framework: bool)
    ensures ByFramework(files, framework).Ok? <==>
      forall i :: 0 <= i < |files| ==> MediaFile.IsVPAID(files[i]).Ok?
    ensures var r := ByFramework(files, framework);
      r.Ok? && (exists i :: 0 <= i < |files| && (framework || !MediaFile.IsVPAID(files[i]).value)) ==>
        forall x :: x in r.value <==> x in files && (framework || !MediaFile.IsVPAID(x).value)
    ensures var r := ByFramework(files, framework);
      r.Ok? && !(exists i :: 0 <= i < |files| && (framework || !MediaFile.IsVPAID(files[i]).value)) ==>
        r.value == files
  {
    var test := m => FrameworkTest(framework, m);
    Collections.TryFilterSpec(files, test);
    var r := ByFramework(files, framework);
    if r.Ok? {
      var kept := Collections.TryFilter(files, test).value;
      if exists i :: 0 <= i < |files| && (framework || !MediaFile.IsVPAID(files[i]).value) {
        var i :| 0 <= i < |files| && (framework || !MediaFile.IsVPAID(files[i]).value);
        assert files[i] in kept;
      }
      if |kept| > 0 {
        assert kept[0] in files;
        var i :| 0 <= i < |files| && files[i] == kept[0];
        assert test(files[i]) == Ok(true);
      }
    }
  }

  /** With Flash every file passes the device filter; without it exactly the files that do
      not need Flash pass. */
  lemma {:induction false} ByDeviceSpec(files: seq<Value>, flash: bool)
    ensures flash ==> ByDevice(files, flash).Ok? && forall x :: x in ByDevice(files, flash).value <==> x in files
    ensures !flash ==> (ByDevice(files, flash).Ok? <==>
      forall i :: 0 <= i < |files| ==> MediaFile.RequiresFlash(files[i]).Ok?)
    ensures !flash && ByDevice(files, flash).Ok? ==>
      forall x :: x in ByDevice(files, flash).value <==> x in files && MediaFile.RequiresFlash(x) == Ok(false)
  {
    Collections.TryFilterSpec(files, m => DeviceTest(flash, m));
  }

  /** The priority sort orders by preference position, keeps every file, keeps files of
      equal position in their order. */
  lemma {:induction false} ByPrioritySpec(files: seq<Value>, list: seq<string>)
    ensures var r := ByPriority(files, list);
      && Collections.Sorted(r, PriorityKey(list))
      && multiset(r) == multiset(files)
      && (forall k :: Collections.WithKey(r, PriorityKey(list), k) == Collections.WithKey(files, PriorityKey(list), k))
  {
    Collections.SortSpec(files, PriorityKey(list));
  }

  /** Loose equality of a value with itself. */
  lemma {:induction false} LooseEqReflexive(v: Value)
    ensures LooseEq(v, v)
  {
  }

  /** A filter keeps a first element that passes at the front. */
  lemma {:induction false} FilterKeepsFirst(files: seq<Value>, p: Value -> bool)
    requires |files| > 0 && p(files[0])
    ensures |SchemaFacts.Filter(files, p)| > 0 && SchemaFacts.Filter(files, p)[0] == files[0]
  {
    assert SchemaFacts.Filter(files, p) == [files[0]] + SchemaFacts.Filter(files[1..], p);
  }

  /** A file survives the first-type filter exactly when it is loosely of the first
      file's type. */
  lemma {:induction false} ByFirstTypeMember(files: seq<Value>, x: Value)
    requires |files| > 0
    ensures x in ByFirstType(files) <==> x in files && SharesType(x, SchemaQueries.Type(files[0]))
  {
    var p := SameType(SchemaQueries.Type(files[0]));
    SchemaFacts.FilterMembers(files, p);
    assert p(x) == SharesType(x, SchemaQueries.Type(files[0]));
  }

  /** After the first-type filter, the first file stays first and the files left are
      exactly those loosely of its type. */
  lemma {:induction false} ByFirstTypeSpec(files: seq<Value>)
    ensures var r := ByFirstType(files);
      && (|r| == 0 <==> |files| == 0)
      && (|files| > 0 ==> r[0] == files[0])
      && (|files| > 0 ==> forall x :: x in r <==> x in files && SharesType(x, SchemaQueries.Type(files[0])))
  {
    if |files| > 0 {
      var t := SchemaQueries.Type(files[0]);
      LooseEqReflexive(t);
      FilterKeepsFirst(files, SameType(t));
      forall x ensures x in ByFirstType(files) <==> x in files && SharesType(x, t) {
        ByFirstTypeMember(files, x);
      }
    }
  }

  /** A sort keeps exactly the files it is given. */
  lemma {:induction false} SortKeepsFiles(files: seq<Value>, key: Value -> int)
    ensures forall x :: x in Collections.Sort(files, key) <==> x in files
  {
    Collections.SortSpec(files, key);
    var r := Collections.Sort(files, key);
    assert forall x :: x in r <==> x in multiset(r);
    assert forall x :: x in files <==> x in multiset(files);
  }

  /** The framework filter keeps only files it is given. */
  lemma {:induction false} ByFrameworkWithin(files: seq<Value>, framework: bool)
    requires ByFramework(files, framework).Ok?
    ensures forall x :: x in ByFramework(files, framework).value ==> x in files
  {
    ByFrameworkSpec(files, framework);
  }

  /** The device filter keeps only files it is given, and without Flash none that needs it. */
  lemma {:induction false} ByDeviceWithin(files: seq<Value>, flash: bool)
    requires ByDevice(files, flash).Ok?
    ensures forall x :: x in ByDevice(files, flash).value ==> x in files
    ensures !flash ==> forall x :: x in ByDevice(files, flash).value ==> MediaFile.RequiresFlash(x) == Ok(false)
  {
    ByDeviceSpec(files, flash);
  }

  /** What the pipeline leaves: only files it was given, all loosely of the type of one
      of them, none needing Flash on a device without it, ascending in width on a mobile
      device. */
  lemma {:induction false} SetMediaFilesSpec(m: Media, files: seq<Value>, flash: bool, mobile: bool)
    requires SetMediaFiles(m, files, flash, mobile).Ok?
    ensures var p := SetMediaFiles(m, files, flash, mobile).value.preferred;
      && (forall x :: x in p ==> x in files)
      && (|p| > 0 ==> exists y :: y in files && forall x :: x in p ==> SharesType(x, SchemaQueries.Type(y)))
      && (!flash ==> forall x :: x in p ==> MediaFile.RequiresFlash(x) == Ok(false))
      && (mobile ==> Collections.Sorted(p, WidthKey))
  {
    var a := ByFramework(files, m.framework).value;
    var b := ByDevice(a, flash).value;
    var c := ByPriority(b, m.priority);
    var d := ByFirstType(c);
    var p := BySizes(d, mobile);
    assert p == SetMediaFiles(m, files, flash, mobile).value.preferred;
    ByFrameworkWithin(files, m.framework);
    ByDeviceWithin(a, flash);
    SortKeepsFiles(b, PriorityKey(m.priority));
    ByFirstTypeSpec(c);
    assert forall x :: x in p <==> x in d by {
      if mobile {
        SortKeepsFiles(d, WidthKey);
      }
    }
    if mobile {
      Collections.SortSpec(d, WidthKey);
    }
    if |p| > 0 {
      assert c[0] in files;
    }
  }
}
