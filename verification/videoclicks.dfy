/** `VideoClicks`: the click URIs of a linear creative, one list per click tag name. The
    object's own properties are the lists, under `$` followed by the tag name. */
module VideoClicks {
  import opened Strs
  import opened Js
  import opened Schemas
  import opened SchemaQueries

  /** The three buckets every set starts with, empty. */
  const Start: Props := [("$clickthrough", Arr([])), ("$clicktracking", Arr([])), ("$customclick", Arr([]))]

  predicate Valid(ps: Props) {
    DistinctKeys(ps) && ListValued(ps)
  }

  /** The list a property holds, empty when it holds none. */
  function ListOf(v: Value): seq<Value> {
    if v.Arr? then v.items else []
  }

  /** The property a click child goes to. */
  function BucketKey(click: Value): string {
    "$" + ToStr(TagName(click))
  }

  /** One click child: its value appended to the bucket named by its tag, which is created
      when missing. Anything that is no Schema has no `tagName()`. */
  function Push(ps: Props, click: Value): (r: Result<Props>)
    requires Valid(ps)
    ensures r.Ok? ==> Valid(r.value)
    ensures r.Ok? <==> IsSchema(click)
    ensures NoVastError(r)
  {
    if !IsSchema(click) then Err(TypeError)
    else
      var key := BucketKey(click);
      var list := ListOf(Get(ps, key)) + [TagValue(click)];
      PutListValued(ps, key, list);
      Ok(Put(ps, key, Arr(list)))
  }

  /** The click children recorded in document order. */
  function Record(ps: Props, clicks: seq<Value>): (r: Result<Props>)
    requires Valid(ps)
    ensures r.Ok? ==> Valid(r.value)
    ensures NoVastError(r)
  {
    if |clicks| == 0 then Ok(ps)
    else
      var before :- Record(ps, clicks[..|clicks| - 1]);
      Push(before, clicks[|clicks| - 1])
  }

  /** `createVideoClicks(clicks)`: a falsy argument counts as no children; anything else
      that is no list has no `forEach`. */
  function New(clicks: Value): (r: Result<Props>)
    ensures r.Ok? ==> Valid(r.value)
    ensures !Truthy(clicks) ==> r == Ok(Start)
    ensures Truthy(clicks) && !clicks.Arr? ==> r == Err(TypeError)
    ensures NoVastError(r)
  {
    assert Valid(Start);
    if !Truthy(clicks) then Ok(Start)
    else if clicks.Arr? then Record(Start, clicks.items)
    else Err(TypeError)
  }

  /** `videoClicks.add(other)`: each list of `other`, in its key order, is appended to the
      receiver's list of the same name; a name the receiver lacks has no `push`. */
  function Add(ps: Props, other: Props): (r: Result<Props>)
    requires Valid(ps) && Valid(other)
    ensures r.Ok? ==> Valid(r.value) && Keys(r.value) == Keys(ps)
  {
    AddFrom(ps, other, 0)
  }

  function AddFrom(ps: Props, other: Props, i: nat): (r: Result<Props>)
    requires Valid(ps) && Valid(other) && i <= |other|
    ensures r.Ok? ==> Valid(r.value) && Keys(r.value) == Keys(ps)
    decreases |other| - i
  {
    if i == |other| then Ok(ps)
    else
      var key := other[i].0;
      if !Has(ps, key) then Err(TypeError)
      else
        var list := ListOf(Get(ps, key)) + other[i].1.items;
        PutListValued(ps, key, list);
        var next := Put(ps, key, Arr(list));
        AddFrom(next, other, i + 1)
  }

  /** `videoClicks.clickThrough()`: the last click-through URI, or `false` when there is
      none; a set without that bucket has no list to measure. */
  function ClickThrough(ps: Props): (r: Result<Value>)
    ensures r.Ok? <==> Get(ps, "$clickthrough").Arr?
    ensures r.Ok? && |Get(ps, "$clickthrough").items| == 0 ==> r.value == Bool(false)
  {
    var list := Get(ps, "$clickthrough");
    if !list.Arr? then Err(TypeError)
    else if |list.items| == 0 then Ok(Bool(false))
    else Ok(list.items[|list.items| - 1])
  }

  /** A video-clicks object read back for `add`: an object of another class, or one whose
      buckets are not lists, has no usable `add`. */
  function FromValue(v: Value): (r: Result<Props>)
    ensures r.Ok? ==> Valid(r.value) && v == Obj(VideoClicksClass, r.value)
  {
    if v.Obj? && v.cls == VideoClicksClass && Valid(v.props) then Ok(v.props) else Err(TypeError)
  }

  predicate AllValid(sets: seq<Props>) {
    forall j :: 0 <= j < |sets| ==> Valid(sets[j])
  }

  /** The receiver after `add` with each of `others` in turn; the first refusal ends it. */
  function AddEach(ps: Props, others: seq<Props>): (r: Result<Props>)
    requires Valid(ps) && AllValid(others)
    ensures r.Ok? ==> Valid(r.value) && Keys(r.value) == Keys(ps)
  {
    if |others| == 0 then Ok(ps)
    else
      var init := others[..|others| - 1];
      assert AllValid(init) by { forall j | 0 <= j < |init| ensures Valid(init[j]) { assert init[j] == others[j]; } }
      var before :- AddEach(ps, init);
      Add(before, others[|others| - 1])
  }

  // ---------------------------------------------------------------- properties

  /** The URIs of the click children whose tag is `name`, in document order. */
  function Named(clicks: seq<Value>, key: string): seq<Value> {
    if |clicks| == 0 then []
    else
      var last := clicks[|clicks| - 1];
      Named(clicks[..|clicks| - 1], key) + (if BucketKey(last) == key then [TagValue(last)] else [])
  }

  /** One click child reaches bucket `key` exactly when its tag names that bucket. */
  lemma {:induction false} PushBucket(ps: Props, click: Value, key: string)
    requires Valid(ps) && Push(ps, click).Ok?
    ensures ListOf(Get(Push(ps, click).value, key)) ==
      ListOf(Get(ps, key)) + (if BucketKey(click) == key then [TagValue(click)] else [])
    ensures Has(Push(ps, click).value, key) <==> Has(ps, key) || BucketKey(click) == key
  {
  }

  /** Recording appends to every bucket exactly the URIs of the children with its name, and
      creates a bucket only for a name some child carries. */
  lemma {:induction false} RecordBuckets(ps: Props, clicks: seq<Value>, key: string)
    requires Valid(ps) && Record(ps, clicks).Ok?
    ensures ListOf(Get(Record(ps, clicks).value, key)) == ListOf(Get(ps, key)) + Named(clicks, key)
    ensures Has(Record(ps, clicks).value, key) <==> Has(ps, key) || |Named(clicks, key)| > 0
  {
    if |clicks| > 0 {
      var init := clicks[..|clicks| - 1];
      var last := clicks[|clicks| - 1];
      var before := Record(ps, init).value;
      assert Record(ps, clicks) == Push(before, last);
      RecordBuckets(ps, init, key);
      PushBucket(before, last, key);
    }
  }

  lemma {:induction false} RecordStep(ps: Props, clicks: seq<Value>)
    requires Valid(ps) && |clicks| > 0
    ensures var before := Record(ps, clicks[..|clicks| - 1]);
      Record(ps, clicks) == if before.Ok? then Push(before.value, clicks[|clicks| - 1]) else before
  {
  }

  /** Recording succeeds exactly when every child is a Schema. */
  lemma {:induction false} RecordOk(ps: Props, clicks: seq<Value>)
    requires Valid(ps)
    ensures Record(ps, clicks).Ok? <==> AllSchemas(clicks)
  {
    if |clicks| > 0 {
      var init := clicks[..|clicks| - 1];
      var last := clicks[|clicks| - 1];
      assert Record(ps, clicks).Ok? <==> Record(ps, init).Ok? && IsSchema(last) by {
        RecordStep(ps, clicks);
      }
      assert Record(ps, init).Ok? <==> AllSchemas(init) by {
        RecordOk(ps, init);
      }
      AllSchemasSnoc(clicks);
    }
  }

  predicate AllSchemas(items: seq<Value>) {
    forall i :: 0 <= i < |items| ==> IsSchema(items[i])
  }

  lemma {:induction false} AllSchemasSnoc(items: seq<Value>)
    requires |items| > 0
    ensures AllSchemas(items) <==> AllSchemas(items[..|items| - 1]) && IsSchema(items[|items| - 1])
  {
    assert forall i :: 0 <= i < |items| - 1 ==> items[..|items| - 1][i] == items[i];
  }

  /** A fresh set holds the three standard buckets, each with the URIs of its children. */
  lemma {:induction false} NewBuckets(clicks: seq<Value>, key: string)
    requires New(Arr(clicks)).Ok?
    requires key == "$clickthrough" || key == "$clicktracking" || key == "$customclick"
    ensures Has(New(Arr(clicks)).value, key)
    ensures Get(New(Arr(clicks)).value, key) == Arr(Named(clicks, key))
  {
    assert Valid(Start) && Get(Start, key) == Arr([]) && Has(Start, key) by {
      GetAt(Start, if key == "$clickthrough" then 0 else if key == "$clicktracking" then 1 else 2);
    }
    var r := Record(Start, clicks).value;
    assert New(Arr(clicks)).value == r;
    assert Has(r, key) && ListOf(Get(r, key)) == Named(clicks, key) by {
      RecordBuckets(Start, clicks, key);
    }
    assert Get(r, key).Arr? by {
      var i := Find(r, key);
      GetAt(r, i);
    }
  }

  /** One step of `add`: bucket `k` of the receiver gains the argument's `k` list. */
  lemma {:induction false} AddStep(ps: Props, other: Props, i: nat, key: string)
    requires Valid(ps) && Valid(other) && i < |other| && Has(ps, other[i].0)
    ensures var k := other[i].0;
      var next := Put(ps, k, Arr(ListOf(Get(ps, k)) + other[i].1.items));
      && Valid(next)
      && (forall x :: Has(next, x) <==> Has(ps, x))
      && ListOf(Get(next, key)) == ListOf(Get(ps, key)) + (if key == k then ListOf(Get(other, key)) else [])
  {
    var k := other[i].0;
    PutListValued(ps, k, ListOf(Get(ps, k)) + other[i].1.items);
    GetAt(other, i);
  }

  /** Every bucket of `other` from position `i` on exists in `ps`. */
  predicate AllPresent(ps: Props, other: Props, i: nat) {
    forall j :: i <= j < |other| ==> Has(ps, other[j].0)
  }

  lemma {:induction false} AllPresentStep(ps: Props, next: Props, other: Props, i: nat)
    requires i < |other| && forall x :: Has(next, x) <==> Has(ps, x)
    ensures AllPresent(ps, other, i) <==> Has(ps, other[i].0) && AllPresent(next, other, i + 1)
  {
  }

  /** `add` succeeds exactly when the receiver has every bucket of the argument. */
  lemma {:induction false} AddFromOk(ps: Props, other: Props, i: nat)
    requires Valid(ps) && Valid(other) && i <= |other|
    ensures AddFrom(ps, other, i).Ok? <==> AllPresent(ps, other, i)
    decreases |other| - i
  {
    if i < |other| {
      var k := other[i].0;
      if Has(ps, k) {
        var next := Put(ps, k, Arr(ListOf(Get(ps, k)) + other[i].1.items));
        assert AddFrom(ps, other, i) == AddFrom(next, other, i + 1);
        assert AllPresent(ps, other, i) <==> AllPresent(next, other, i + 1) by {
          AddStep(ps, other, i, k);
          AllPresentStep(ps, next, other, i);
        }
        AddFromOk(next, other, i + 1);
      } else {
        assert AddFrom(ps, other, i).Err?;
        assert !AllPresent(ps, other, i);
      }
    }
  }

  /** A successful `add` appends, bucket by bucket, the argument's URIs after the
      receiver's. */
  lemma {:induction false} AddFromBucket(ps: Props, other: Props, i: nat, key: string)
    requires Valid(ps) && Valid(other) && i <= |other| && AddFrom(ps, other, i).Ok?
    ensures ListOf(Get(AddFrom(ps, other, i).value, key)) ==
      ListOf(Get(ps, key)) + (if exists j :: i <= j < |other| && other[j].0 == key then ListOf(Get(other, key)) else [])
    decreases |other| - i
  {
    if i < |other| {
      var k := other[i].0;
      var next := Put(ps, k, Arr(ListOf(Get(ps, k)) + other[i].1.items));
      assert AddFrom(ps, other, i) == AddFrom(next, other, i + 1);
      AddStep(ps, other, i, key);
      AddFromBucket(next, other, i + 1, key);
      BucketLater(other, i, key);
      var got := ListOf(Get(AddFrom(next, other, i + 1).value, key));
      if key == k {
        assert got == ListOf(Get(ps, key)) + ListOf(Get(other, key)) + [];
      } else {
        assert ListOf(Get(next, key)) == ListOf(Get(ps, key)) + [];
      }
    }
  }

  /** With distinct keys, the bucket at `i` is the only one of its name from `i` on. */
  lemma {:induction false} BucketLater(other: Props, i: nat, key: string)
    requires DistinctKeys(other) && i < |other|
    ensures other[i].0 == key ==> !exists j :: i + 1 <= j < |other| && other[j].0 == key
    ensures other[i].0 != key ==>
      ((exists j :: i <= j < |other| && other[j].0 == key) <==> (exists j :: i + 1 <= j < |other| && other[j].0 == key))
  {
    if other[i].0 != key {
      if exists j :: i <= j < |other| && other[j].0 == key {
        var j :| i <= j < |other| && other[j].0 == key;
        assert j != i;
      }
    }
  }

  /** The whole-set form: `add` succeeds iff every bucket of the argument exists here, and
      then each bucket is the receiver's list followed by the argument's. */
  lemma {:induction false} AddSpec(ps: Props, other: Props, key: string)
    requires Valid(ps) && Valid(other)
    ensures Add(ps, other).Ok? <==> forall k :: Has(other, k) ==> Has(ps, k)
    ensures Add(ps, other).Ok? ==> ListOf(Get(Add(ps, other).value, key)) == ListOf(Get(ps, key)) + ListOf(Get(other, key))
  {
    AddFromOk(ps, other, 0);
    if Add(ps, other).Ok? { AddFromBucket(ps, other, 0, key); }
    if !Has(other, key) {
      assert !exists j :: 0 <= j < |other| && other[j].0 == key;
    }
    assert AllPresent(ps, other, 0) <==> (forall k :: Has(other, k) ==> Has(ps, k));
  }

  /** `clickThrough` picks the most recent click-through URI. */
  lemma {:induction false} ClickThroughLast(clicks: seq<Value>)
    requires New(Arr(clicks)).Ok? && |Named(clicks, "$clickthrough")| > 0
    ensures ClickThrough(New(Arr(clicks)).value) == Ok(Named(clicks, "$clickthrough")[|Named(clicks, "$clickthrough")| - 1])
  {
    NewBuckets(clicks, "$clickthrough");
  }

  /** The `key` lists of every set in `sets`, one after the other. */
  function Joined(sets: seq<Props>, key: string): seq<Value> {
    if |sets| == 0 then [] else Joined(sets[..|sets| - 1], key) + ListOf(Get(sets[|sets| - 1], key))
  }

  /** Every bucket of every set in `sets` exists in `ps`. */
  ghost predicate Covers(ps: Props, sets: seq<Props>) {
    forall j, k :: 0 <= j < |sets| && Has(sets[j], k) ==> Has(ps, k)
  }

  lemma {:induction false} SameKeysHas(a: Props, b: Props)
    requires Keys(a) == Keys(b)
    ensures forall k :: Has(a, k) <==> Has(b, k)
  {
    forall k ensures Has(a, k) <==> Has(b, k) {
      if Has(a, k) { var i :| 0 <= i < |a| && a[i].0 == k; assert Keys(a)[i] == k; }
      if Has(b, k) { var i :| 0 <= i < |b| && b[i].0 == k; assert Keys(b)[i] == k; }
    }
  }

  /** Adding several sets in turn succeeds exactly when the receiver has every bucket any
      of them has. */
  lemma {:induction false} AddEachOk(ps: Props, others: seq<Props>)
    requires Valid(ps) && AllValid(others)
    ensures AddEach(ps, others).Ok? <==> Covers(ps, others)
  {
    if |others| > 0 {
      var init := others[..|others| - 1];
      AddEachLast(ps, others);
      AddEachOk(ps, init);
      CoversSnoc(ps, others);
      if AddEach(ps, init).Ok? {
        AddWithin(AddEach(ps, init).value, ps, others[|others| - 1]);
      }
    }
  }

  /** Covering a list of sets is covering all but the last, and the last. */
  lemma {:induction false} CoversSnoc(ps: Props, others: seq<Props>)
    requires |others| > 0
    ensures Covers(ps, others) <==> Covers(ps, others[..|others| - 1]) && Within(others[|others| - 1], ps)
  {
    var init := others[..|others| - 1];
    assert forall j :: 0 <= j < |init| ==> init[j] == others[j];
  }

  /** Adding a set succeeds on any table with the same keys as `ps` exactly when `ps` has
      all of the set's buckets. */
  lemma {:induction false} AddWithin(before: Props, ps: Props, last: Props)
    requires Valid(before) && Valid(last) && Keys(before) == Keys(ps)
    ensures Add(before, last).Ok? <==> Within(last, ps)
  {
    SameKeysHas(before, ps);
    AddSpec(before, last, "");
  }

  /** The last set is added to the receiver after the ones before it. */
  lemma {:induction false} AddEachLast(ps: Props, others: seq<Props>)
    requires Valid(ps) && AllValid(others) && |others| > 0
    ensures AllValid(others[..|others| - 1])
    ensures AddEach(ps, others[..|others| - 1]).Err? ==> AddEach(ps, others).Err?
    ensures AddEach(ps, others[..|others| - 1]).Ok? ==>
      AddEach(ps, others) == Add(AddEach(ps, others[..|others| - 1]).value, others[|others| - 1])
  {
    var init := others[..|others| - 1];
    assert AllValid(init) by { forall j | 0 <= j < |init| ensures Valid(init[j]) { assert init[j] == others[j]; } }
  }

  ghost predicate Within(other: Props, ps: Props) {
    forall k :: Has(other, k) ==> Has(ps, k)
  }

  /** ... and then appends their lists in that order. */
  lemma {:induction false} AddEachBucket(ps: Props, others: seq<Props>, key: string)
    requires Valid(ps) && AllValid(others) && AddEach(ps, others).Ok?
    ensures ListOf(Get(AddEach(ps, others).value, key)) == ListOf(Get(ps, key)) + Joined(others, key)
  {
    if |others| > 0 {
      var init := others[..|others| - 1];
      var last := others[|others| - 1];
      AddEachLast(ps, others);
      AddEachBucket(ps, init, key);
      AddBucketAfter(ps, AddEach(ps, init).value, others, AddEach(ps, others).value, key);
    }
  }

  /** Adding the last set after the others appends its list to theirs. */
  lemma {:induction false} AddBucketAfter(ps: Props, before: Props, others: seq<Props>, after: Props, key: string)
    requires |others| > 0 && Valid(before) && Valid(others[|others| - 1])
    requires Add(before, others[|others| - 1]) == Ok(after)
    requires ListOf(Get(before, key)) == ListOf(Get(ps, key)) + Joined(others[..|others| - 1], key)
    ensures ListOf(Get(after, key)) == ListOf(Get(ps, key)) + Joined(others, key)
  {
    var last := others[|others| - 1];
    var mine, theirs := ListOf(Get(ps, key)), ListOf(Get(last, key));
    assert ListOf(Get(after, key)) == ListOf(Get(before, key)) + theirs by {
      AddSpec(before, last, key);
    }
    Regroup(ListOf(Get(after, key)), ListOf(Get(before, key)), mine, Joined(others[..|others| - 1], key), theirs, Joined(others, key));
  }

  lemma {:induction false} Regroup<T>(x: seq<T>, b: seq<T>, m: seq<T>, j: seq<T>, t: seq<T>, joined: seq<T>)
    requires x == b + t && b == m + j && joined == j + t
    ensures x == m + joined
  {
  }
}
