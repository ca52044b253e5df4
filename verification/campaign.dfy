/** A campaign (`src/player/campaign/campaign.js`): the response to the campaign request,
    copied with the fields of its `campaign` object flattened in, and its tags split into a
    guaranteed and a non-guaranteed list. The priority sort that follows the split is not
    part of the model (its comparator answers with booleans, so its order is the engine's),
    so each list keeps the order the tags came in. */
module Campaigns {
  import opened Js
  import ExtendObject
  import Tags

  datatype Campaign = Campaign(info: Props, nonguaranteed: seq<Tags.Tag>, guaranteed: seq<Tags.Tag>)

  /** The tags on which `p` answers `want`, in order: the reference the split and the
      requests are measured against. */
  function Select(ts: seq<Tags.Tag>, p: Tags.Tag -> bool, want: bool): (r: seq<Tags.Tag>)
  {
    if |ts| == 0 then []
    else (if p(ts[0]) == want then [ts[0]] else []) + Select(ts[1..], p, want)
  }

  /** The `forEach` of `separateTags`: each tag is pushed onto the guaranteed list or the
      other one. */
  function Split(ts: seq<Tags.Tag>, p: Tags.Tag -> bool): (r: (seq<Tags.Tag>, seq<Tags.Tag>))
    ensures |r.0| + |r.1| == |ts|
    ensures forall i :: 0 <= i < |r.0| ==> p(r.0[i])
    ensures forall i :: 0 <= i < |r.1| ==> !p(r.1[i])
  {
    if |ts| == 0 then ([], [])
    else
      var rest := Split(ts[..|ts| - 1], p);
      var t := ts[|ts| - 1];
      if p(t) then (rest.0 + [t], rest.1) else (rest.0, rest.1 + [t])
  }

  /** `$tags` as a list: a list as it is, anything else the values of its own keys in key
      order; `Object.keys` refuses `undefined` and `null`. */
  function TagValues(v: Value): (r: Result<seq<Value>>)
    ensures v.Undefined? || v.Null? <==> r.Err?
    ensures v.Arr? ==> r == Ok(v.items)
  {
    if v.Arr? then Ok(v.items)
    else if v.Undefined? || v.Null? then Err(TypeError)
    else
      var keys := OwnKeys(v);
      Ok(seq(|keys|, i requires 0 <= i < |keys| => Prop(v, keys[i])))
  }

  /** `new Tag(tag)` for each value, in order; the first failure propagates. */
  function MakeTags(vs: seq<Value>): (r: Result<seq<Tags.Tag>>)
    ensures r.Ok? ==> |r.value| == |vs|
  {
    if |vs| == 0 then Ok([])
    else
      var t :- Tags.New(vs[0]);
      var rest :- MakeTags(vs[1..]);
      Ok([t] + rest)
  }

  /** `separateTags()`: a `$tags` that is no list is replaced by the list of its values. */
  function SeparateTags(info: Props): (r: Result<Campaign>)
    requires DistinctKeys(info)
    ensures r.Ok? ==> DistinctKeys(r.value.info)
  {
    var tags := Get(info, "$tags");
    var values :- TagValues(tags);
    var info' := if tags.Arr? then info else Put(info, "$tags", Arr(values));
    var made :- MakeTags(values);
    var parts := Split(made, Tags.IsGuaranteed);
    Ok(Campaign(info', parts.1, parts.0))
  }

  /** `new Campaign(response)` up to the sort. */
  function New(response: Value): (r: Result<Campaign>)
  {
    var info :- ExtendObject.Extend([], response, {"campaign"}, true);
    SeparateTags(info)
  }

  /** `hasGuarantees()`: the number of guaranteed tags, truthy when there is one. */
  function HasGuarantees(c: Campaign): (r: nat)
    ensures r > 0 <==> c.guaranteed != []
  {
    |c.guaranteed|
  }

  /** `tags()`: the guaranteed tags when there are any, the others otherwise. */
  function TagList(c: Campaign): (r: seq<Tags.Tag>)
    ensures c.guaranteed != [] ==> r == c.guaranteed
    ensures c.guaranteed == [] ==> r == c.nonguaranteed
  {
    if HasGuarantees(c) > 0 then c.guaranteed else c.nonguaranteed
  }

  /** `tag.canBeLoaded()` on the device. */
  function LoadsOn(mobile: bool): Tags.Tag -> bool {
    t => Tags.CanBeLoaded(t, mobile)
  }

  /** Each tag `load` accepts starts a request; the others stay as they are. */
  function RequestEach(ts: seq<Tags.Tag>, load: Tags.Tag -> bool): (r: (seq<Tags.Tag>, seq<Tags.Tag>))
    ensures |r.0| == |ts|
  {
    if |ts| == 0 then ([], [])
    else
      var rest := RequestEach(ts[1..], load);
      if load(ts[0]) then
        var t := Tags.Request(ts[0]);
        ([t] + rest.0, [t] + rest.1)
      else ([ts[0]] + rest.0, rest.1)
  }

  /** `requestTags()`: the campaign with its current list's loadable tags requested, and
      those tags (what the promise resolves with). */
  function RequestTags(c: Campaign, mobile: bool): (r: (Campaign, seq<Tags.Tag>))
    ensures TagList(r.0) == RequestEach(TagList(c), LoadsOn(mobile)).0
    ensures r.1 == RequestEach(TagList(c), LoadsOn(mobile)).1
  {
    var each := RequestEach(TagList(c), LoadsOn(mobile));
    if HasGuarantees(c) > 0 then
      (c.(guaranteed := each.0), each.1)
    else
      var c' := c.(nonguaranteed := each.0);
      assert c'.guaranteed == [];
      (c', each.1)
  }

  // ---------------------------------------------------------------- properties

  lemma {:induction false} SelectMembers(ts: seq<Tags.Tag>, p: Tags.Tag -> bool, want: bool)
    ensures forall t :: t in Select(ts, p, want) <==> t in ts && p(t) == want
  {
    if |ts| > 0 {
      SelectMembers(ts[1..], p, want);
      assert ts == [ts[0]] + ts[1..];
    }
  }

  lemma {:induction false} SelectSnoc(ts: seq<Tags.Tag>, t: Tags.Tag, p: Tags.Tag -> bool, want: bool)
    ensures Select(ts + [t], p, want) == Select(ts, p, want) + (if p(t) == want then [t] else [])
  {
    if |ts| > 0 {
      assert (ts + [t])[0] == ts[0];
      assert (ts + [t])[1..] == ts[1..] + [t];
      SelectSnoc(ts[1..], t, p, want);
    } else {
      assert ts + [t] == [t];
    }
  }

  /** The split is the pair of order-preserving selections: every tag lands in exactly one
      list, the first exactly when `p` holds, and each list keeps the input order. */
  lemma {:induction false} SplitSpec(ts: seq<Tags.Tag>, p: Tags.Tag -> bool)
    ensures Split(ts, p) == (Select(ts, p, true), Select(ts, p, false))
  {
    if |ts| > 0 {
      var init := ts[..|ts| - 1];
      var t := ts[|ts| - 1];
      SplitSpec(init, p);
      var rest := Split(init, p);
      assert Split(ts, p) == if p(t) then (rest.0 + [t], rest.1) else (rest.0, rest.1 + [t]);
      assert ts == init + [t];
      SelectSnoc(init, t, p, true);
      SelectSnoc(init, t, p, false);
      assert rest.0 + [] == rest.0 && rest.1 + [] == rest.1;
    }
  }

  /** Tags are made one per value, in order, and fail exactly on the first value the Tag
      constructor refuses. */
  lemma {:induction false} MakeTagsSpec(vs: seq<Value>)
    ensures MakeTags(vs).Ok? <==> forall i :: 0 <= i < |vs| ==> Tags.New(vs[i]).Ok?
    ensures MakeTags(vs).Ok? ==> forall i :: 0 <= i < |vs| ==> MakeTags(vs).value[i] == Tags.New(vs[i]).value
  {
    if |vs| > 0 {
      MakeTagsSpec(vs[1..]);
      assert forall i :: 1 <= i < |vs| ==> vs[1..][i - 1] == vs[i];
    }
  }

  /** An object of tags is read as the values of its properties, in property order. */
  lemma {:induction false} TagValuesOfObject(cls: Cls, ps: Props)
    requires DistinctKeys(ps)
    ensures TagValues(Obj(cls, ps)) == Ok(seq(|ps|, i requires 0 <= i < |ps| => ps[i].1))
  {
    var v := Obj(cls, ps);
    var keys := OwnKeys(v);
    var vals := seq(|keys|, i requires 0 <= i < |keys| => Prop(v, keys[i]));
    forall i | 0 <= i < |ps| ensures vals[i] == ps[i].1 {
      GetAt(ps, i);
    }
    assert vals == seq(|ps|, i requires 0 <= i < |ps| => ps[i].1);
  }

  /** The campaign's lists are the guaranteed and the other tags made from `$tags`, in
      order. */
  lemma {:induction false} SeparateTagsSpec(info: Props)
    requires DistinctKeys(info)
    requires SeparateTags(info).Ok?
    ensures var made := MakeTags(TagValues(Get(info, "$tags")).value).value;
      var c := SeparateTags(info).value;
      && c.guaranteed == Select(made, Tags.IsGuaranteed, true)
      && c.nonguaranteed == Select(made, Tags.IsGuaranteed, false)
  {
    SplitSpec(MakeTags(TagValues(Get(info, "$tags")).value).value, Tags.IsGuaranteed);
  }

  lemma {:induction false} RequestEachSpec(ts: seq<Tags.Tag>, load: Tags.Tag -> bool)
    ensures var r := RequestEach(ts, load);
      && (forall i :: 0 <= i < |ts| ==> r.0[i] == if load(ts[i]) then Tags.Request(ts[i]) else ts[i])
      && |r.1| == |Select(ts, load, true)|
      && (forall i :: 0 <= i < |r.1| ==> r.1[i] == Tags.Request(Select(ts, load, true)[i]))
  {
    if |ts| > 0 {
      RequestEachSpec(ts[1..], load);
      assert forall i :: 1 <= i < |ts| ==> ts[1..][i - 1] == ts[i];
    }
  }

  /** `requestTags` requests exactly the loadable tags of the current list, in order, each
      once, and leaves the others untouched. */
  lemma {:induction false} RequestTagsSpec(c: Campaign, mobile: bool)
    ensures var r := RequestTags(c, mobile); var ts := TagList(c);
      var loadable := Select(ts, LoadsOn(mobile), true);
      && |TagList(r.0)| == |ts|
      && (forall i :: 0 <= i < |ts| && !Tags.CanBeLoaded(ts[i], mobile) ==> TagList(r.0)[i] == ts[i])
      && (forall i :: 0 <= i < |ts| && Tags.CanBeLoaded(ts[i], mobile) ==>
            TagList(r.0)[i] == Tags.Request(ts[i]))
      && |r.1| == |loadable|
      && (forall i :: 0 <= i < |r.1| ==> r.1[i] == Tags.Request(loadable[i]))
      && (forall t :: t in loadable <==> t in ts && Tags.CanBeLoaded(t, mobile))
  {
    RequestEachSpec(TagList(c), LoadsOn(mobile));
    SelectMembers(TagList(c), LoadsOn(mobile), true);
  }
}
