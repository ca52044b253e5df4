/** `extend_object(object, source, direct, mark_key)`: copies the source's own keys onto the
    target, as `$key` when keys are marked; a key named in `direct` is not copied but its
    value is flattened into the target the same way (with marked keys). The campaign and
    its tags are built this way from the server's answer. */
module ExtendObject {
  import opened Strs
  import opened Js

  /** What the engine throws when the flattening of a text never ends: a `RangeError`
      whose message is "Maximum call stack size exceeded". */
  const Overflow: Thrown := RangeError

  /** The write one copied key makes: `$key` when marked; an unmarked `__proto__` sets the
      prototype instead of a key, which is not modelled, so it writes nothing. */
  function Write(key: string, v: Value, mark: bool): (r: Props)
    ensures |r| <= 1
  {
    if mark then [("$" + key, v)] else if key == "__proto__" then [] else [(key, v)]
  }

  // ---------------------------------------------------------------- the copy, step by step

  /** `extend_object(object, source, direct, mark)` over the keys `Object.keys(source)` gives:
      `undefined` and `null` throw, booleans and numbers have none, a text has one per
      character and an array one per item. Object values are taken to carry distinct keys. */
  function Extend(target: Props, source: Value, direct: set<string>, mark: bool): (r: Result<Props>)
    requires DistinctKeys(target)
    ensures r.Ok? ==> DistinctKeys(r.value)
    decreases source, 2, 0
  {
    match source
    case Undefined => Err(TypeError)
    case Null => Err(TypeError)
    case Str(s) => ExtendChars(target, s, 0, direct, mark)
    case Arr(items) => ExtendItems(target, items, 0, direct, mark)
    case Obj(_, ps) => ExtendProps(target, ps, 0, direct, mark)
    case _ => Ok(target)
  }

  /** Copies one key's value onto the target. */
  function PutKey(target: Props, key: string, v: Value, mark: bool): (r: Props)
    requires DistinctKeys(target)
    ensures DistinctKeys(r)
  {
    if mark then Put(target, "$" + key, v)
    else if key == "__proto__" then target
    else Put(target, key, v)
  }

  /** The characters of a text from position `i` on. A direct key flattens the one-letter
      text at that position, whose only key is `0`: when `0` is direct too, the flattening
      calls itself on the same letter for ever. */
  function ExtendChars(target: Props, s: string, i: nat, direct: set<string>, mark: bool): (r: Result<Props>)
    requires DistinctKeys(target) && i <= |s|
    ensures r.Ok? ==> DistinctKeys(r.value)
    decreases |s| - i
  {
    if i == |s| then Ok(target)
    else
      var key := NatToString(i);
      var next :-
        if key !in direct then Ok(PutKey(target, key, Str([s[i]]), mark))
        else if "0" in direct then Err(Overflow)
        else Ok(Put(target, "$0", Str([s[i]])));
      ExtendChars(next, s, i + 1, direct, mark)
  }

  /** The items of an array from position `i` on. */
  function ExtendItems(target: Props, items: seq<Value>, i: nat, direct: set<string>, mark: bool): (r: Result<Props>)
    requires DistinctKeys(target) && i <= |items|
    ensures r.Ok? ==> DistinctKeys(r.value)
    decreases items, 1, |items| - i
  {
    if i == |items| then Ok(target)
    else
      var key := NatToString(i);
      var next :-
        if key in direct then Extend(target, items[i], direct, true)
        else Ok(PutKey(target, key, items[i], mark));
      ExtendItems(next, items, i + 1, direct, mark)
  }

  /** The properties of an object from position `i` on. */
  function ExtendProps(target: Props, ps: Props, i: nat, direct: set<string>, mark: bool): (r: Result<Props>)
    requires DistinctKeys(target) && i <= |ps|
    ensures r.Ok? ==> DistinctKeys(r.value)
    decreases ps, 1, |ps| - i
  {
    if i == |ps| then Ok(target)
    else
      assert ps[i].1 < ps[i];
      var next :-
        if ps[i].0 in direct then Extend(target, ps[i].1, direct, true)
        else Ok(PutKey(target, ps[i].0, ps[i].1, mark));
      ExtendProps(next, ps, i + 1, direct, mark)
  }

  // ---------------------------------------------------------------- the writes, as a list

  /** The writes the copy makes, in order: the reference the copy is compared with. */
  function Writes(source: Value, direct: set<string>, mark: bool): Result<Props>
    decreases source, 2, 0
  {
    match source
    case Undefined => Err(TypeError)
    case Null => Err(TypeError)
    case Str(s) => CharWrites(s, 0, direct, mark)
    case Arr(items) => ItemWrites(items, 0, direct, mark)
    case Obj(_, ps) => PropWrites(ps, 0, direct, mark)
    case _ => Ok([])
  }

  function CharWrites(s: string, i: nat, direct: set<string>, mark: bool): Result<Props>
    requires i <= |s|
    decreases |s| - i
  {
    if i == |s| then Ok([])
    else
      var key := NatToString(i);
      var here :-
        if key !in direct then Ok(Write(key, Str([s[i]]), mark))
        else if "0" in direct then Err(Overflow)
        else Ok([("$0", Str([s[i]]))]);
      var rest :- CharWrites(s, i + 1, direct, mark);
      Ok(here + rest)
  }

  function ItemWrites(items: seq<Value>, i: nat, direct: set<string>, mark: bool): Result<Props>
    requires i <= |items|
    decreases items, 1, |items| - i
  {
    if i == |items| then Ok([])
    else
      var key := NatToString(i);
      var here :-
        if key in direct then Writes(items[i], direct, true)
        else Ok(Write(key, items[i], mark));
      var rest :- ItemWrites(items, i + 1, direct, mark);
      Ok(here + rest)
  }

  function PropWrites(ps: Props, i: nat, direct: set<string>, mark: bool): Result<Props>
    requires i <= |ps|
    decreases ps, 1, |ps| - i
  {
    if i == |ps| then Ok([])
    else
      assert ps[i].1 < ps[i];
      var here :-
        if ps[i].0 in direct then Writes(ps[i].1, direct, true)
        else Ok(Write(ps[i].0, ps[i].1, mark));
      var rest :- PropWrites(ps, i + 1, direct, mark);
      Ok(here + rest)
  }

  // ---------------------------------------------------------------- the copy is the writes

  lemma {:induction false} AssignAppend(o: Props, a: Props, b: Props)
    requires DistinctKeys(o)
    ensures Assign(o, a + b) == Assign(Assign(o, a), b)
    decreases |a|
  {
    if |a| > 0 {
      assert (a + b)[1..] == a[1..] + b;
      AssignAppend(Put(o, a[0].0, a[0].1), a[1..], b);
    } else {
      assert a + b == b;
    }
  }

  lemma {:induction false} PutKeyIsWrite(o: Props, key: string, v: Value, mark: bool)
    requires DistinctKeys(o)
    ensures PutKey(o, key, v, mark) == Assign(o, Write(key, v, mark))
  {
    var w := Write(key, v, mark);
    if |w| == 1 {
      assert Assign(o, w) == Assign(Put(o, w[0].0, w[0].1), []);
    }
  }

  /** The copy succeeds exactly when the writes can be listed, and then it is
      `Object.assign` of the writes, in order, onto the target. */
  lemma {:induction false} ExtendWrites(o: Props, source: Value, direct: set<string>, mark: bool)
    requires DistinctKeys(o)
    ensures var r := Extend(o, source, direct, mark); var w := Writes(source, direct, mark);
      (r.Ok? <==> w.Ok?) && (r.Ok? ==> r.value == Assign(o, w.value))
    decreases source, 2, 0
  {
    match source
    case Str(s) =>
      assert Extend(o, source, direct, mark) == ExtendChars(o, s, 0, direct, mark);
      assert Writes(source, direct, mark) == CharWrites(s, 0, direct, mark);
      CharsAssign(o, s, 0, direct, mark);
    case Arr(items) =>
      assert Extend(o, source, direct, mark) == ExtendItems(o, items, 0, direct, mark);
      assert Writes(source, direct, mark) == ItemWrites(items, 0, direct, mark);
      ItemsAssign(o, items, 0, direct, mark);
    case Obj(_, ps) =>
      assert Extend(o, source, direct, mark) == ExtendProps(o, ps, 0, direct, mark);
      assert Writes(source, direct, mark) == PropWrites(ps, 0, direct, mark);
      PropsAssign(o, ps, 0, direct, mark);
    case _ =>
  }

  lemma {:induction false} CharsAssign(o: Props, s: string, i: nat, direct: set<string>, mark: bool)
    requires DistinctKeys(o) && i <= |s|
    ensures var r := ExtendChars(o, s, i, direct, mark); var w := CharWrites(s, i, direct, mark);
      (r.Ok? <==> w.Ok?) && (r.Ok? ==> r.value == Assign(o, w.value))
    decreases |s| - i
  {
    if i < |s| {
      var key := NatToString(i);
      if key !in direct {
        PutKeyIsWrite(o, key, Str([s[i]]), mark);
        var next := PutKey(o, key, Str([s[i]]), mark);
        CharsAssign(next, s, i + 1, direct, mark);
        var rest := CharWrites(s, i + 1, direct, mark);
        if rest.Ok? {
          AssignAppend(o, Write(key, Str([s[i]]), mark), rest.value);
        }
      } else if "0" !in direct {
        var here := [("$0", Str([s[i]]))];
        assert Put(o, "$0", Str([s[i]])) == Assign(o, here) by {
          assert Assign(o, here) == Assign(Put(o, "$0", Str([s[i]])), []);
        }
        CharsAssign(Put(o, "$0", Str([s[i]])), s, i + 1, direct, mark);
        var rest := CharWrites(s, i + 1, direct, mark);
        if rest.Ok? {
          AssignAppend(o, here, rest.value);
        }
      }
    }
  }

  lemma {:induction false} ItemsAssign(o: Props, items: seq<Value>, i: nat, direct: set<string>, mark: bool)
    requires DistinctKeys(o) && i <= |items|
    ensures var r := ExtendItems(o, items, i, direct, mark); var w := ItemWrites(items, i, direct, mark);
      (r.Ok? <==> w.Ok?) && (r.Ok? ==> r.value == Assign(o, w.value))
    decreases items, 1, |items| - i
  {
    if i < |items| {
      var key := NatToString(i);
      if key in direct {
        ExtendWrites(o, items[i], direct, true);
        var first := Extend(o, items[i], direct, true);
        if first.Ok? {
          var here := Writes(items[i], direct, true).value;
          ItemsAssign(first.value, items, i + 1, direct, mark);
          var rest := ItemWrites(items, i + 1, direct, mark);
          if rest.Ok? {
            AssignAppend(o, here, rest.value);
          }
        }
      } else {
        PutKeyIsWrite(o, key, items[i], mark);
        var next := PutKey(o, key, items[i], mark);
        ItemsAssign(next, items, i + 1, direct, mark);
        var rest := ItemWrites(items, i + 1, direct, mark);
        if rest.Ok? {
          AssignAppend(o, Write(key, items[i], mark), rest.value);
        }
      }
    }
  }

  lemma {:induction false} PropsAssign(o: Props, ps: Props, i: nat, direct: set<string>, mark: bool)
    requires DistinctKeys(o) && i <= |ps|
    ensures var r := ExtendProps(o, ps, i, direct, mark); var w := PropWrites(ps, i, direct, mark);
      (r.Ok? <==> w.Ok?) && (r.Ok? ==> r.value == Assign(o, w.value))
    decreases ps, 1, |ps| - i
  {
    if i < |ps| {
      assert ps[i].1 < ps[i];
      if ps[i].0 in direct {
        ExtendWrites(o, ps[i].1, direct, true);
        var first := Extend(o, ps[i].1, direct, true);
        if first.Ok? {
          var here := Writes(ps[i].1, direct, true).value;
          PropsAssign(first.value, ps, i + 1, direct, mark);
          var rest := PropWrites(ps, i + 1, direct, mark);
          if rest.Ok? {
            AssignAppend(o, here, rest.value);
          }
        }
      } else {
        PutKeyIsWrite(o, ps[i].0, ps[i].1, mark);
        var next := PutKey(o, ps[i].0, ps[i].1, mark);
        PropsAssign(next, ps, i + 1, direct, mark);
        var rest := PropWrites(ps, i + 1, direct, mark);
        if rest.Ok? {
          AssignAppend(o, Write(ps[i].0, ps[i].1, mark), rest.value);
        }
      }
    }
  }

  // ---------------------------------------------------------------- properties

  /** What throws and what copies nothing: `undefined` and `null` sources throw a
      TypeError, booleans and numbers leave the target as it is, and a non-empty text with
      `0` among the direct keys never stops flattening. */
  lemma {:induction false} ExtendErrors(target: Props, source: Value, direct: set<string>, mark: bool)
    requires DistinctKeys(target)
    ensures source.Undefined? || source.Null? ==> Extend(target, source, direct, mark) == Err(TypeError)
    ensures source.Bool? || source.Num? ==> Extend(target, source, direct, mark) == Ok(target)
    ensures source.Str? && |source.s| > 0 && "0" in direct ==> Extend(target, source, direct, mark) == Err(Overflow)
  {
    if source.Str? && |source.s| > 0 {
      assert NatToString(0) == "0";
    }
  }

  predicate AllMarked(w: Props) {
    forall i :: 0 <= i < |w| ==> |w[i].0| > 0 && w[i].0[0] == '$'
  }

  lemma {:induction false} MarkedAppend(a: Props, b: Props)
    requires AllMarked(a) && AllMarked(b)
    ensures AllMarked(a + b)
  {
    forall i | 0 <= i < |a + b| ensures |(a + b)[i].0| > 0 && (a + b)[i].0[0] == '$' {
      if i >= |a| {
        assert (a + b)[i] == b[i - |a|];
      }
    }
  }

  /** With marked keys every write, nested ones included, goes to a `$` key. */
  lemma {:induction false} WritesMarked(source: Value, direct: set<string>)
    ensures Writes(source, direct, true).Ok? ==> AllMarked(Writes(source, direct, true).value)
    decreases source, 2, 0
  {
    match source
    case Str(s) => CharWritesMarked(s, 0, direct);
    case Arr(items) => ItemWritesMarked(items, 0, direct);
    case Obj(_, ps) => PropWritesMarked(ps, 0, direct);
    case _ =>
  }

  lemma {:induction false} CharWritesMarked(s: string, i: nat, direct: set<string>)
    requires i <= |s|
    ensures CharWrites(s, i, direct, true).Ok? ==> AllMarked(CharWrites(s, i, direct, true).value)
    decreases |s| - i
  {
    if i < |s| {
      CharWritesMarked(s, i + 1, direct);
      var rest := CharWrites(s, i + 1, direct, true);
      if rest.Ok? {
        var key := NatToString(i);
        var here: Props := if key !in direct then Write(key, Str([s[i]]), true) else [("$0", Str([s[i]]))];
        assert here[0].0[0] == '$';
        MarkedAppend(here, rest.value);
      }
    }
  }

  lemma {:induction false} ItemWritesMarked(items: seq<Value>, i: nat, direct: set<string>)
    requires i <= |items|
    ensures ItemWrites(items, i, direct, true).Ok? ==> AllMarked(ItemWrites(items, i, direct, true).value)
    decreases items, 1, |items| - i
  {
    if i < |items| {
      ItemWritesMarked(items, i + 1, direct);
      WritesMarked(items[i], direct);
      var key := NatToString(i);
      var here := if key in direct then Writes(items[i], direct, true) else Ok(Write(key, items[i], true));
      var rest := ItemWrites(items, i + 1, direct, true);
      if here.Ok? && rest.Ok? {
        MarkedAppend(here.value, rest.value);
      }
    }
  }

  lemma {:induction false} PropWritesMarked(ps: Props, i: nat, direct: set<string>)
    requires i <= |ps|
    ensures PropWrites(ps, i, direct, true).Ok? ==> AllMarked(PropWrites(ps, i, direct, true).value)
    decreases ps, 1, |ps| - i
  {
    if i < |ps| {
      assert ps[i].1 < ps[i];
      PropWritesMarked(ps, i + 1, direct);
      WritesMarked(ps[i].1, direct);
      var here := if ps[i].0 in direct then Writes(ps[i].1, direct, true) else Ok(Write(ps[i].0, ps[i].1, true));
      var rest := PropWrites(ps, i + 1, direct, true);
      if here.Ok? && rest.Ok? {
        MarkedAppend(here.value, rest.value);
      }
    }
  }

  /** With marked keys a field of the target whose name does not start with `$` is left as
      it is, however deep the flattening goes. */
  lemma {:induction false} ExtendKeepsUnmarked(target: Props, source: Value, direct: set<string>, t: string)
    requires DistinctKeys(target) && !(|t| > 0 && t[0] == '$')
    ensures var r := Extend(target, source, direct, true);
      r.Ok? ==> Get(r.value, t) == Get(target, t) && (Has(r.value, t) <==> Has(target, t))
  {
    ExtendWrites(target, source, direct, true);
    WritesMarked(source, direct);
    var w := Writes(source, direct, true);
    if w.Ok? {
      AssignKeys(target, w.value);
      assert !Has(w.value, t);
    }
  }

  /** The marked copy of a flat object's properties. */
  function Marked(ps: Props): (r: Props)
    ensures |r| == |ps|
  {
    seq(|ps|, j requires 0 <= j < |ps| => ("$" + ps[j].0, ps[j].1))
  }

  lemma {:induction false} FlatWrites(ps: Props, i: nat, direct: set<string>)
    requires i <= |ps| && forall j :: 0 <= j < |ps| ==> ps[j].0 !in direct
    ensures PropWrites(ps, i, direct, true) == Ok(Marked(ps[i..]))
    decreases |ps| - i
  {
    if i < |ps| {
      FlatWrites(ps, i + 1, direct);
      assert ps[i..][1..] == ps[i + 1..];
      assert Marked(ps[i..]) == [("$" + ps[i].0, ps[i].1)] + Marked(ps[i + 1..]);
    }
  }

  lemma {:induction false} MarkedDistinct(ps: Props)
    requires DistinctKeys(ps)
    ensures DistinctKeys(Marked(ps))
  {
    var m := Marked(ps);
    forall i, j | 0 <= i < j < |m| ensures m[i].0 != m[j].0 {
      assert m[i].0[1..] == ps[i].0 && m[j].0[1..] == ps[j].0;
    }
  }

  /** A flat object (no key direct) is copied key for key: each key `k` lands on `$k` with
      its value, and the target's unmarked fields stay as they were. */
  lemma {:induction false} MarkedCopy(target: Props, cls: Cls, ps: Props, direct: set<string>, k: string)
    requires DistinctKeys(target) && DistinctKeys(ps) && Has(ps, k)
    requires forall j :: 0 <= j < |ps| ==> ps[j].0 !in direct
    ensures var r := Extend(target, Obj(cls, ps), direct, true);
      r.Ok? && Has(r.value, "$" + k) && Get(r.value, "$" + k) == Get(ps, k)
  {
    ExtendFlat(target, cls, ps, direct);
    MarkedGet(ps, k);
    AssignMarkedGet(target, Marked(ps), "$" + k);
  }

  /** Extending by a flat object assigns its marked copy. */
  lemma {:induction false} ExtendFlat(target: Props, cls: Cls, ps: Props, direct: set<string>)
    requires DistinctKeys(target)
    requires forall j :: 0 <= j < |ps| ==> ps[j].0 !in direct
    ensures Extend(target, Obj(cls, ps), direct, true) == Ok(Assign(target, Marked(ps)))
  {
    ExtendWrites(target, Obj(cls, ps), direct, true);
    FlatWrites(ps, 0, direct);
    assert ps[0..] == ps;
  }

  lemma {:induction false} AssignMarkedGet(target: Props, m: Props, key: string)
    requires DistinctKeys(target) && DistinctKeys(m) && Has(m, key)
    ensures Has(Assign(target, m), key) && Get(Assign(target, m), key) == Get(m, key)
  {
    AssignKeys(target, m);
    AssignGetSource(target, m, key);
  }

  lemma {:induction false} MarkedGet(ps: Props, k: string)
    requires DistinctKeys(ps) && Has(ps, k)
    ensures DistinctKeys(Marked(ps)) && Has(Marked(ps), "$" + k) && Get(Marked(ps), "$" + k) == Get(ps, k)
  {
    var m := Marked(ps);
    MarkedDistinct(ps);
    var i := Find(ps, k);
    assert m[i].0 == "$" + k;
    GetAt(m, i);
    GetAt(ps, i);
  }

  /** The campaign's answer: the fields of the direct `campaign` object are flattened into
      the target next to the answer's other fields, all marked. */
  lemma {:induction false} CampaignFlattened(cls: Cls, inner: Cls, id: Value, tags: Value)
    ensures Extend([], Obj(cls, [("campaign", Obj(inner, [("id", id)])), ("tags", tags)]), {"campaign"}, true)
      == Ok([("$id", id), ("$tags", tags)])
  {
    var d := {"campaign"};
    var ps := [("campaign", Obj(inner, [("id", id)])), ("tags", tags)];
    assert Extend([], Obj(inner, [("id", id)]), d, true) == Ok([("$id", id)]) by {
      CampaignInner(inner, id);
    }
    assert ExtendProps([("$id", id)], ps, 1, d, true) == Ok([("$id", id), ("$tags", tags)]) by {
      CampaignTags(ps, id, tags);
    }
    assert ps[0].0 in d;
  }

  /** The inner `campaign` object's one field lands on `$id`. */
  lemma {:induction false} CampaignInner(inner: Cls, id: Value)
    ensures Extend([], Obj(inner, [("id", id)]), {"campaign"}, true) == Ok([("$id", id)])
  {
    var d := {"campaign"};
    var ps1 := [("id", id)];
    var w1 := [("$id", id)];
    assert Put([], "$id", id) == w1 by {
      assert !IsIndexKey("$id") by { assert !IsDigit("$id"[0]); }
    }
    assert "id" !in d && "$" + "id" == "$id";
    assert ExtendProps(w1, ps1, 1, d, true) == Ok(w1);
  }

  /** The answer's `tags` field lands on `$tags`, after `$id`. */
  lemma {:induction false} CampaignTags(ps: Props, id: Value, tags: Value)
    requires |ps| == 2 && ps[1] == ("tags", tags)
    ensures ExtendProps([("$id", id)], ps, 1, {"campaign"}, true) == Ok([("$id", id), ("$tags", tags)])
  {
    var d := {"campaign"};
    var w1 := [("$id", id)];
    var w2 := [("$id", id), ("$tags", tags)];
    assert Put(w1, "$tags", tags) == w2 by {
      PutTagsAfterId(id, tags);
    }
    assert "tags" !in d && "$" + "tags" == "$tags";
    assert ExtendProps(w2, ps, 2, d, true) == Ok(w2);
  }

  lemma {:induction false} PutTagsAfterId(id: Value, tags: Value)
    ensures Put([("$id", id)], "$tags", tags) == [("$id", id), ("$tags", tags)]
  {
    assert !IsIndexKey("$tags") by { assert !IsDigit("$tags"[0]); }
    assert !Has([("$id", id)], "$tags") by { assert "$id"[1] != "$tags"[1]; }
  }
}
