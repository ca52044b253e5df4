/** `Trackingevents`: the tracking URIs of a linear creative, in twenty named buckets plus a
    `progress` table keyed by the second at which each URI fires. */
module TrackingEvents {
  import opened Strs
  import opened Js
  import opened Schemas
  import opened SchemaQueries
  import opened Units

  /** The named buckets, in the order the constructor creates them. */
  const Names: seq<string> := [
    "start", "firstquartile", "midpoint", "thirdquartile", "complete", "pause", "resume",
    "mute", "unmute", "expand", "collapse", "rewind", "skip", "close", "closelinear",
    "creativeview", "fullscreen", "acceptinvitation", "exitfullscreen", "acceptinvitationlinear"
  ]

  lemma {:induction false} NamesDistinct()
    ensures |Names| == 20
    ensures forall i, j :: 0 <= i < j < |Names| ==> Names[i] != Names[j]
  {
  }

  /** The bucket lists, aligned with `Names`, and the progress table (second → list). */
  datatype Tracking = Tracking(lists: seq<seq<Value>>, progress: Props)

  predicate Valid(t: Tracking) {
    |t.lists| == |Names| && DistinctKeys(t.progress) && ListValued(t.progress)
  }

  /** Where `name` sits in `Names`. */
  function Position(name: string): (r: Option<nat>)
    ensures r.Some? ==> r.value < |Names| && Names[r.value] == name
    ensures r.None? <==> name !in Names
  {
    if name == "start" then Some(0) else if name == "firstquartile" then Some(1)
    else if name == "midpoint" then Some(2) else if name == "thirdquartile" then Some(3)
    else if name == "complete" then Some(4) else if name == "pause" then Some(5)
    else if name == "resume" then Some(6) else if name == "mute" then Some(7)
    else if name == "unmute" then Some(8) else if name == "expand" then Some(9)
    else if name == "collapse" then Some(10) else if name == "rewind" then Some(11)
    else if name == "skip" then Some(12) else if name == "close" then Some(13)
    else if name == "closelinear" then Some(14) else if name == "creativeview" then Some(15)
    else if name == "fullscreen" then Some(16) else if name == "acceptinvitation" then Some(17)
    else if name == "exitfullscreen" then Some(18) else if name == "acceptinvitationlinear" then Some(19)
    else None
  }

  /** The property name under which a number is stored (`String(n)`). */
  function NumberKey(n: Number): string {
    match n
    case NaN => "NaN"
    case Int(i) => IntToString(i)
  }

  /** `_addProgress`: an empty list under each of the keys 1 .. n. The keys are assigned
      in ascending order, so each lands at the end (see `SeedIsPut`). */
  function Seed(n: nat): (r: Props)
    ensures |r| == n && DistinctKeys(r) && ListValued(r)
  {
    var r := seq(n, i requires 0 <= i < n => (NatToString(i + 1), Arr([])));
    NumberedDistinct(r);
    r
  }

  /** Keys that number the entries from 1 are distinct. */
  lemma {:induction false} NumberedDistinct(r: Props)
    requires forall i :: 0 <= i < |r| ==> r[i].0 == NatToString(i + 1)
    ensures DistinctKeys(r)
  {
    forall i, j | 0 <= i < j < |r| ensures r[i].0 != r[j].0 {
      if r[i].0 == r[j].0 { NatToStringInjective(i + 1, j + 1); }
    }
  }

  /** `_addUri` / `_addEvent`: one tracking child of the creative. An event with a truthy
      `offset` is appended to the progress list of that many seconds, created if missing;
      any other is appended to the bucket of its lower-cased `event` name, and dropped when
      there is no such bucket (the name `progress` finds the table, which has no `push`). */
  function Route(t: Tracking, value: Value): (r: Result<Tracking>)
    requires Valid(t)
    ensures r.Ok? ==> Valid(r.value)
    ensures NoVastError(r)
  {
    if value.Undefined? || value.Null? then Err(TypeError)
    else
      var offset := Prop(value, "$offset");
      if Truthy(offset) then
        var secs :- SecondsOf(offset);
        var key := NumberKey(secs);
        if !IsSchema(value) then Err(TypeError)
        else
          var current := Get(t.progress, key);
          var list := if current.Arr? then current.items else [];
          var progress := Put(t.progress, key, Arr(list + [TagValue(value)]));
          assert ListValued(progress) by { PutListValued(t.progress, key, list + [TagValue(value)]); }
          Ok(t.(progress := progress))
      else
        var event := Prop(value, "$event");
        if !event.Str? then Err(TypeError)
        else
          var name := Lower(event.s);
          match Position(name)
          case Some(i) =>
            if !IsSchema(value) then Err(TypeError)
            else Ok(t.(lists := t.lists[i := t.lists[i] + [TagValue(value)]]))
          case None =>
            if name == "progress" then Err(TypeError) else Ok(t)
  }

  /** The children recorded in document order. */
  function Record(t: Tracking, events: seq<Value>): (r: Result<Tracking>)
    requires Valid(t)
    ensures r.Ok? ==> Valid(r.value)
    ensures NoVastError(r)
  {
    if |events| == 0 then Ok(t)
    else
      var before :- Record(t, events[..|events| - 1]);
      Route(before, events[|events| - 1])
  }

  /** `createTrackingEvents(events, duration)`: empty buckets, progress seeded from the
      duration, then every child routed. A falsy `events` counts as no children; anything
      else that is no list has no `forEach`. */
  function New(events: Value, duration: Value): (r: Result<Tracking>)
    ensures r.Ok? ==> Valid(r.value)
    ensures NoVastError(r)
  {
    var secs :- SecondsArray(duration);
    var list :- if !Truthy(events) then Ok([]) else if events.Arr? then Ok(events.items) else Err(TypeError);
    Record(Tracking(seq(|Names|, _ => []), Seed(|secs|)), list)
  }

  /** `trackingEvents.add(other)`: every bucket of `other` is appended to the same bucket
      here; progress lists are appended only for the seconds this table already has. */
  function Add(t: Tracking, other: Tracking): (r: Tracking)
    requires Valid(t) && Valid(other)
    ensures Valid(r)
  {
    var lists := seq(|Names|, i requires 0 <= i < |Names| => t.lists[i] + other.lists[i]);
    var progress := MergeProgress(t.progress, other.progress);
    Tracking(lists, progress)
  }

  /** The receiver's progress table with each list extended by the other table's list for
      the same second, when it has one. */
  function MergeProgress(mine: Props, theirs: Props): (r: Props)
    requires ListValued(mine) && ListValued(theirs)
    ensures Keys(r) == Keys(mine) && ListValued(r)
  {
    seq(|mine|, i requires 0 <= i < |mine| =>
      var other := Get(theirs, mine[i].0);
      (mine[i].0, if other.Arr? then Arr(mine[i].1.items + other.items) else mine[i].1))
  }

  /** The object the constructor leaves behind: the `$name` lists in constructor order,
      then `$progress`. */
  function ToValue(t: Tracking): (r: Value)
    requires Valid(t)
    ensures r.Obj? && r.cls == TrackingEventsClass && DistinctKeys(r.props)
  {
    var ps := seq(|Names|, i requires 0 <= i < |Names| => ("$" + Names[i], Arr(t.lists[i])))
      + [("$progress", Obj(PlainObject, t.progress))];
    assert DistinctKeys(ps) by {
      NamesDistinct();
      forall i, j | 0 <= i < j < |ps| ensures ps[i].0 != ps[j].0 {
        assert ps[i].0[1..] == Names[i];
        if j < |Names| { assert ps[j].0[1..] == Names[j]; }
        else { assert ps[j].0[1..] == "progress"; }
      }
    }
    Obj(TrackingEventsClass, ps)
  }

  /** A tracking object read back for `add`: an object of another class, or one whose buckets
      are not lists, has no usable `add`. */
  function FromValue(v: Value): (r: Result<Tracking>)
    ensures r.Ok? ==> Valid(r.value)
  {
    if !(v.Obj? && v.cls == TrackingEventsClass) then Err(TypeError)
    else
      var progress := Prop(v, "$progress");
      if && (forall i :: 0 <= i < |Names| ==> Prop(v, "$" + Names[i]).Arr?)
         && progress.Obj? && DistinctKeys(progress.props) && ListValued(progress.props)
      then Ok(Tracking(seq(|Names|, i requires 0 <= i < |Names| => Prop(v, "$" + Names[i]).items), progress.props))
      else Err(TypeError)
  }

  /** `trackingEvents()["$" + name]` of a tracking object. */
  function Bucket(v: Value, name: string): Value {
    Prop(v, "$" + name)
  }

  predicate AllValid(ts: seq<Tracking>) {
    forall j :: 0 <= j < |ts| ==> Valid(ts[j])
  }

  /** The receiver after `add` with each of `others` in turn. */
  function AddEach(t: Tracking, others: seq<Tracking>): (r: Tracking)
    requires Valid(t) && AllValid(others)
    ensures Valid(r)
  {
    if |others| == 0 then t
    else
      var init := others[..|others| - 1];
      assert AllValid(init) by { forall j | 0 <= j < |init| ensures Valid(init[j]) { assert init[j] == others[j]; } }
      Add(AddEach(t, init), others[|others| - 1])
  }

  // ---------------------------------------------------------------- properties

  /** The URIs an event list contributes to bucket `name`: those of the children without
      a truthy offset whose lower-cased event name is `name`, in document order. */
  function Routed(events: seq<Value>, name: string): seq<Value> {
    if |events| == 0 then []
    else Routed(events[..|events| - 1], name) + (if Goes(events[|events| - 1], name) then [TagValue(events[|events| - 1])] else [])
  }

  predicate Goes(e: Value, name: string) {
    && !Truthy(Prop(e, "$offset"))
    && Prop(e, "$event").Str?
    && Lower(Prop(e, "$event").s) == name
  }

  /** One child reaches bucket `i` exactly when it goes there by name. */
  lemma {:induction false} RouteList(t: Tracking, value: Value, i: nat)
    requires Valid(t) && i < |Names| && Route(t, value).Ok?
    ensures Route(t, value).value.lists[i] ==
      t.lists[i] + (if Goes(value, Names[i]) then [TagValue(value)] else [])
  {
    NamesDistinct();
  }

  /** Recording appends to each named bucket exactly the URIs routed to it, in document
      order. */
  lemma {:induction false} RecordLists(t: Tracking, events: seq<Value>, i: nat)
    requires Valid(t) && i < |Names| && Record(t, events).Ok?
    ensures Record(t, events).value.lists[i] == t.lists[i] + Routed(events, Names[i])
  {
    if |events| > 0 {
      var init := events[..|events| - 1];
      RecordLists(t, init, i);
      RouteList(Record(t, init).value, events[|events| - 1], i);
    }
  }

  /** A freshly built set has in every named bucket the URIs routed there, and nothing
      else. */
  lemma {:induction false} NewLists(events: seq<Value>, duration: Value, i: nat)
    requires i < |Names| && New(Arr(events), duration).Ok?
    ensures New(Arr(events), duration).value.lists[i] == Routed(events, Names[i])
  {
    var start := NewStart(events, duration, i);
    RecordLists(start, events, i);
  }

  /** The set a list of events is recorded into starts with empty buckets. */
  lemma {:induction false} NewStart(events: seq<Value>, duration: Value, i: nat) returns (start: Tracking)
    requires i < |Names| && New(Arr(events), duration).Ok?
    ensures Valid(start) && start.lists[i] == []
    ensures New(Arr(events), duration) == Record(start, events)
  {
    var secs := SecondsArray(duration).value;
    start := Tracking(seq(|Names|, _ => []), Seed(|secs|));
  }

  /** `k` names one of the seconds 1 .. n. */
  predicate IsSecond(k: string, n: nat) {
    exists s :: 1 <= s <= n && k == NatToString(s)
  }

  /** The progress table of a fresh set has an empty list under exactly the keys 1 .. n. */
  lemma {:induction false} SeedKeys(n: nat, k: string)
    ensures Has(Seed(n), k) <==> IsSecond(k, n)
    ensures Has(Seed(n), k) ==> Get(Seed(n), k) == Arr([])
  {
    if Has(Seed(n), k) {
      SeedHas(n, k);
    }
    if IsSecond(k, n) {
      var s :| 1 <= s <= n && k == NatToString(s);
      SeedSecond(n, s);
    }
  }

  lemma {:induction false} SeedHas(n: nat, k: string)
    requires Has(Seed(n), k)
    ensures IsSecond(k, n) && Get(Seed(n), k) == Arr([])
  {
    var r := Seed(n);
    var i :| 0 <= i < |r| && r[i].0 == k;
    assert 1 <= i + 1 <= n && k == NatToString(i + 1);
    GetAt(r, i);
  }

  lemma {:induction false} SeedSecond(n: nat, s: int)
    requires 1 <= s <= n
    ensures Has(Seed(n), NatToString(s))
  {
    assert Seed(n)[s - 1].0 == NatToString(s);
  }

  /** Seeding one more second is the assignment `progress[n] = []` on the table seeded so
      far. */
  lemma {:induction false} SeedIsPut(n: nat)
    requires n > 0
    ensures Seed(n) == Put(Seed(n - 1), NatToString(n), Arr([]))
  {
    var ps := Seed(n - 1);
    var key := NatToString(n);
    assert !Has(ps, key) by {
      if Has(ps, key) {
        var i :| 0 <= i < |ps| && ps[i].0 == key;
        NatToStringInjective(i + 1, n);
      }
    }
    assert InsertionPoint(ps, key) == |ps| by {
      if IsIndexKey(key) {
        NatToStringValue(n);
        forall i | 0 <= i < |ps| ensures IsIndexKey(ps[i].0) && DigitsValue(ps[i].0) < DigitsValue(key) {
          NatToStringValue(i + 1);
        }
        InsertionPointEnd(ps, key);
      }
    }
    PutAppends(ps, key, Arr([]));
    SeedSnoc(n);
  }

  lemma {:induction false} SeedSnoc(n: nat)
    requires n > 0
    ensures Seed(n) == Seed(n - 1) + [(NatToString(n), Arr([]))]
  {
  }

  /** An index key larger than every key present, all of them index keys, goes last. */
  lemma {:induction false} InsertionPointEnd(ps: Props, k: string)
    requires IsIndexKey(k)
    requires forall i :: 0 <= i < |ps| ==> IsIndexKey(ps[i].0) && DigitsValue(ps[i].0) < DigitsValue(k)
    ensures InsertionPoint(ps, k) == |ps|
  {
    if |ps| > 0 {
      InsertionPointEnd(ps[1..], k);
    }
  }

  /** Progress is seeded from second 1: there is never a key 0. */
  lemma {:induction false} SeedNoZero(n: nat)
    ensures !Has(Seed(n), "0")
  {
    SeedKeys(n, "0");
    if IsSecond("0", n) {
      var s :| 1 <= s <= n && "0" == NatToString(s);
      assert NatToString(0) == "0";
      NatToStringInjective(s, 0);
    }
  }

  /** With no children, a fresh set has empty buckets and the seeded progress table. */
  lemma {:induction false} NewEmpty(duration: Value, n: nat)
    requires SecondsOf(duration) == Ok(Int(n)) && n < 0x1_0000_0000
    ensures New(Arr([]), duration) == Ok(Tracking(seq(|Names|, _ => []), Seed(n)))
  {
  }

  /** A child with a truthy offset lands in the progress list of its second, whatever its
      event name, after what that second already held. */
  lemma {:induction false} RouteOffset(t: Tracking, value: Value)
    requires Valid(t) && IsSchema(value) && Truthy(Prop(value, "$offset"))
    requires SecondsOf(Prop(value, "$offset")).Ok?
    ensures Route(t, value).Ok?
    ensures var key := NumberKey(SecondsOf(Prop(value, "$offset")).value);
      var before := if Get(t.progress, key).Arr? then Get(t.progress, key).items else [];
      && Route(t, value).value.lists == t.lists
      && Get(Route(t, value).value.progress, key) == Arr(before + [TagValue(value)])
  {
  }

  /** A child without offset whose event names no bucket is dropped. */
  lemma {:induction false} RouteUnknown(t: Tracking, value: Value)
    requires Valid(t) && IsSchema(value) && !Truthy(Prop(value, "$offset"))
    requires Prop(value, "$event").Str?
    requires Lower(Prop(value, "$event").s) !in Names && Lower(Prop(value, "$event").s) != "progress"
    ensures Route(t, value) == Ok(t)
  {
  }

  /** `add` concatenates bucket by bucket, the argument's entries after the receiver's. */
  lemma {:induction false} AddLists(t: Tracking, other: Tracking, i: nat)
    requires Valid(t) && Valid(other) && i < |Names|
    ensures Add(t, other).lists[i] == t.lists[i] + other.lists[i]
  {
  }

  /** `add` keeps the receiver's seconds and only those: a second the receiver lacks is
      lost, one it has gains the argument's list for that second, if any. */
  lemma {:induction false} AddProgress(t: Tracking, other: Tracking, key: string)
    requires Valid(t) && Valid(other)
    ensures Has(Add(t, other).progress, key) <==> Has(t.progress, key)
    ensures Has(t.progress, key) && Has(other.progress, key) ==>
      Get(Add(t, other).progress, key) == Arr(Get(t.progress, key).items + Get(other.progress, key).items)
    ensures Has(t.progress, key) && !Has(other.progress, key) ==>
      Get(Add(t, other).progress, key) == Get(t.progress, key)
  {
    var r := Add(t, other).progress;
    FindSameKeys(r, t.progress, key);
    if Has(t.progress, key) {
      var i := Find(t.progress, key);
      GetAt(t.progress, i);
      if Has(other.progress, key) {
        var j := Find(other.progress, key);
        GetAt(other.progress, j);
      }
    }
  }

  /** Adding a set whose buckets and progress lists are all empty changes nothing. */
  lemma {:induction false} AddEmpty(t: Tracking, progress: Props)
    requires Valid(t) && Valid(Tracking(seq(|Names|, _ => []), progress))
    requires forall k :: Has(progress, k) ==> Get(progress, k) == Arr([])
    ensures Add(t, Tracking(seq(|Names|, _ => []), progress)) == t
  {
    var other := Tracking(seq(|Names|, _ => []), progress);
    var r := Add(t, other);
    forall i | 0 <= i < |Names| ensures r.lists[i] == t.lists[i] {
      assert other.lists[i] == [];
      assert t.lists[i] + [] == t.lists[i];
    }
    forall i | 0 <= i < |t.progress| ensures r.progress[i] == t.progress[i] {
      var k := t.progress[i].0;
      if Has(progress, k) {
        assert Get(progress, k) == Arr([]);
        assert t.progress[i].1.items + [] == t.progress[i].1.items;
      }
    }
  }

  /** Reading back the stored object gives the same buckets and progress table. */
  lemma {:induction false} FromToValue(t: Tracking)
    requires Valid(t)
    ensures FromValue(ToValue(t)) == Ok(t)
  {
    var v := ToValue(t);
    forall i | 0 <= i < |Names| ensures Prop(v, "$" + Names[i]) == Arr(t.lists[i]) {
      GetAt(v.props, i);
    }
    GetAt(v.props, |Names|);
    var lists := seq(|Names|, i requires 0 <= i < |Names| => Prop(v, "$" + Names[i]).items);
    assert lists == t.lists;
    assert Prop(v, "$progress").props == t.progress;
  }

  /** Each named bucket of the stored object is that bucket's list. */
  lemma {:induction false} ToValueBucket(t: Tracking, i: nat)
    requires Valid(t) && i < |Names|
    ensures Bucket(ToValue(t), Names[i]) == Arr(t.lists[i])
  {
    GetAt(ToValue(t).props, i);
  }

  lemma {:induction false} ToValueProgress(t: Tracking)
    requires Valid(t)
    ensures Get(ToValue(t).props, "$progress") == Obj(PlainObject, t.progress)
  {
    GetAt(ToValue(t).props, |Names|);
  }

  /** Bucket `i` of every set in `ts`, one after the other. */
  function Joined(ts: seq<Tracking>, i: nat): seq<Value>
    requires i < |Names| && AllValid(ts)
  {
    if |ts| == 0 then []
    else
      var init := ts[..|ts| - 1];
      assert AllValid(init) by { forall j | 0 <= j < |init| ensures Valid(init[j]) { assert init[j] == ts[j]; } }
      Joined(init, i) + ts[|ts| - 1].lists[i]
  }

  /** Adding several sets in turn appends their buckets in that order. */
  lemma {:induction false} AddEachLists(t: Tracking, others: seq<Tracking>, i: nat)
    requires Valid(t) && AllValid(others) && i < |Names|
    ensures AddEach(t, others).lists[i] == t.lists[i] + Joined(others, i)
  {
    if |others| > 0 {
      var init := others[..|others| - 1];
      assert AllValid(init) by { forall j | 0 <= j < |init| ensures Valid(init[j]) { assert init[j] == others[j]; } }
      AddEachLists(t, init, i);
      AddLists(AddEach(t, init), others[|others| - 1], i);
    }
  }

  /** Adding never creates or removes a second of the progress table. */
  lemma {:induction false} AddEachSeconds(t: Tracking, others: seq<Tracking>)
    requires Valid(t) && AllValid(others)
    ensures Keys(AddEach(t, others).progress) == Keys(t.progress)
  {
    if |others| > 0 {
      var init := others[..|others| - 1];
      assert AllValid(init) by { forall j | 0 <= j < |init| ensures Valid(init[j]) { assert init[j] == others[j]; } }
      AddEachSeconds(t, init);
    }
  }
}
