/** The player's tag cache: a Vast that was requested but not shown is saved, as text, in
    the browser's local storage under a key naming its campaign, tag and time, and a later
    page takes it back instead of asking the server again. The storage, the clock, the
    configuration and the set of keys this page has taken are explicit values here. */
module Cache {
  import opened Strs
  import opened Js
  import Builder

  /** The prefix of every cache key. */
  const KeyPrefix := "__a3m_tag"

  // ---------------------------------------------------------------- local storage

  /** The storage's entries, in the order `for … in` visits them. */
  type Storage = seq<(string, string)>

  predicate WellFormed(st: Storage) {
    forall i, j :: 0 <= i < j < |st| ==> st[i].0 != st[j].0
  }

  predicate HasKey(st: Storage, k: string) {
    exists i :: 0 <= i < |st| && st[i].0 == k
  }

  /** `localStorage.getItem(k)`: `None` stands for `null`. */
  function GetItem(st: Storage, k: string): (r: Option<string>)
    ensures r.Some? <==> HasKey(st, k)
    ensures WellFormed(st) ==> forall i :: 0 <= i < |st| && st[i].0 == k ==> r == Some(st[i].1)
  {
    if |st| == 0 then None
    else if st[0].0 == k then Some(st[0].1)
    else
      var r := GetItem(st[1..], k);
      assert forall i :: 1 <= i < |st| ==> st[1..][i - 1] == st[i];
      r
  }

  /** `localStorage.setItem(k, v)`: an existing key keeps its place, a new one goes last. */
  function SetItem(st: Storage, k: string, v: string): (r: Storage)
    requires WellFormed(st)
    ensures WellFormed(r) && GetItem(r, k) == Some(v)
    ensures forall k' :: k' != k ==> GetItem(r, k') == GetItem(st, k')
  {
    if HasKey(st, k) then
      var i :| 0 <= i < |st| && st[i].0 == k;
      var r := st[i := (k, v)];
      SameOtherKeys(st, r, k);
      r
    else
      var r := st + [(k, v)];
      SameOtherKeys(st, r, k);
      assert r[|st|] == (k, v);
      r
  }

  lemma {:induction false} SameOtherKeys(st: Storage, r: Storage, k: string)
    requires WellFormed(st) && |st| <= |r| <= |st| + 1
    requires forall j :: 0 <= j < |st| && st[j].0 != k ==> r[j] == st[j]
    requires forall j :: 0 <= j < |r| && (j >= |st| || st[j].0 == k) ==> r[j].0 == k
    requires |r| == |st| + 1 ==> !HasKey(st, k)
    ensures WellFormed(r)
    ensures forall k' :: k' != k ==> GetItem(r, k') == GetItem(st, k')
  {
    forall k' | k' != k ensures GetItem(r, k') == GetItem(st, k') {
      if HasKey(st, k') {
        var j :| 0 <= j < |st| && st[j].0 == k';
        assert r[j] == st[j];
      } else {
        forall j | 0 <= j < |r| ensures r[j].0 != k' {
          if j < |st| && st[j].0 != k {
            assert r[j] == st[j];
          }
        }
      }
    }
  }

  /** `localStorage.removeItem(k)` */
  function RemoveItem(st: Storage, k: string): (r: Storage)
    requires WellFormed(st)
    ensures WellFormed(r) && GetItem(r, k) == None
    ensures forall k' :: k' != k ==> GetItem(r, k') == GetItem(st, k')
  {
    Filter(st, k)
  }

  /** The entries whose key is not `k`, in order. */
  function Filter(st: Storage, k: string): (r: Storage)
    requires WellFormed(st)
    ensures WellFormed(r) && !HasKey(r, k)
    ensures forall k' :: k' != k ==> GetItem(r, k') == GetItem(st, k')
  {
    if |st| == 0 then []
    else
      var tail := st[1..];
      assert forall i :: 0 <= i < |tail| ==> tail[i] == st[i + 1];
      var rest := Filter(tail, k);
      if st[0].0 == k then rest
      else
        var r := [st[0]] + rest;
        assert !HasKey(tail, st[0].0);
        assert !HasKey(rest, st[0].0) by {
          assert GetItem(rest, st[0].0) == GetItem(tail, st[0].0);
        }
        assert forall i :: 1 <= i < |r| ==> r[i] == rest[i - 1];
        r
  }

  /** The keys, in order. */
  function KeysOf(st: Storage): (r: seq<string>)
    ensures |r| == |st| && forall i :: 0 <= i < |st| ==> r[i] == st[i].0
  {
    seq(|st|, i requires 0 <= i < |st| => st[i].0)
  }

  // ---------------------------------------------------------------- cache keys

  /** What the cache reads from the page: whether caching is configured, and whether the
      browser has `Storage`. */
  datatype Env = Env(caching: bool, hasStorage: bool)

  /** `Cache.support()` */
  predicate Support(env: Env) {
    env.caching && env.hasStorage
  }

  /** What the cache keeps: the storage, and the keys this page has taken from it. */
  datatype State = State(store: Storage, taken: set<string>)

  /** The key text up to the time stamp. */
  function Head(campaignId: Value, tagId: Value): string {
    KeyPrefix + ":" + ToStr(campaignId) + ":" + ToStr(tagId) + ":"
  }

  /** `Cache._name(campaignId, tagId)` at time `now` (milliseconds since the epoch). */
  function Name(campaignId: Value, tagId: Value, now: nat): (r: string)
    ensures StartsWith(r, Head(campaignId, tagId))
  {
    var h := Head(campaignId, tagId);
    var r := h + NatToString(now);
    assert r[..|h|] == h;
    r
  }

  /** `key.match(Cache._pattern(campaignId, tagId))`: somewhere in the key, the head is
      followed by a digit. */
  predicate Matches(key: string, head: string) {
    exists p :: 0 <= p && p + |head| < |key| && OccursAt(key, head, p) && IsDigit(key[p + |head|])
  }

  /** A key the cache names is one its pattern finds. */
  lemma {:induction false} NameMatches(campaignId: Value, tagId: Value, now: nat)
    ensures Matches(Name(campaignId, tagId, now), Head(campaignId, tagId))
  {
    var h := Head(campaignId, tagId);
    var key := Name(campaignId, tagId, now);
    assert key[|h|] == NatToString(now)[0];
    assert OccursAt(key, h, 0);
  }

  // ---------------------------------------------------------------- write and read

  /** `Cache.write(campaign, tag)`: the Vast's text goes under a fresh key, which the Vast
      records as `_cacheKey`; the answer says whether anything was written. A Vast that came
      from the cache is not written back. The key is made before the Vast is turned into
      text, which throws for anything but a Vast. */
  function Write(env: Env, s: State, campaignId: Value, tagId: Value, vast: Value, now: nat): (r: Result<(State, Value, bool)>)
    requires WellFormed(s.store)
    ensures r.Ok? ==> WellFormed(r.value.0.store) && r.value.0.taken == s.taken
  {
    if !Support(env) || Truthy(Prop(vast, "_fromCache")) then Ok((s, vast, false))
    else
      var key := Name(campaignId, tagId, now);
      var text :- Builder.ToString(vast);
      Ok((s.(store := SetItem(s.store, key, text)), SetProp(vast, "_cacheKey", Str(key)), true))
  }

  /** `Cache.remove(key)`: nothing for an empty key. */
  function Remove(st: Storage, key: string): (r: Storage)
    requires WellFormed(st)
    ensures WellFormed(r)
  {
    if key != "" then RemoveItem(st, key) else st
  }

  /** What a successful read gives: the key and the Vast rebuilt from its text. */
  datatype Found = Found(key: string, vast: Value)

  /** The Vast rebuilt from an entry, marked as coming from the cache under its key. */
  function Restore(text: string, key: string): Result<Value> {
    var v :- Builder.ToVast(Str(text));
    Ok(SetProp(SetProp(v, "_fromCache", Bool(true)), "_cacheKey", Str(key)))
  }

  /** The text stored under `key` rebuilds a Vast. */
  predicate Rebuilds(st: Storage, key: string) {
    GetItem(st, key).Some? && Restore(GetItem(st, key).value, key).Ok?
  }

  /** No key the pattern finds, untaken, among `keys[i..j]` has a text that rebuilds. */
  predicate NoneRebuildBefore(s: State, keys: seq<string>, i: nat, j: nat, head: string)
    requires i <= j <= |keys|
  {
    forall l :: i <= l < j && Matches(keys[l], head) && keys[l] !in s.taken ==> !Rebuilds(s.store, keys[l])
  }

  /** `Cache.read(campaign, tag)`: the first stored key the pattern finds that this page has
      not taken yet, and whose text rebuilds a Vast, is taken; an entry whose text does not
      rebuild is removed on the way. */
  function Read(env: Env, s: State, campaignId: Value, tagId: Value): (r: (State, Option<Found>))
    requires WellFormed(s.store)
    ensures WellFormed(r.0.store)
  {
    if !Support(env) then (s, None)
    else Scan(s, KeysOf(s.store), 0, Head(campaignId, tagId))
  }

  /** The loop of `read` over the keys as they were when it started. */
  function Scan(s: State, keys: seq<string>, i: nat, head: string): (r: (State, Option<Found>))
    requires WellFormed(s.store) && i <= |keys|
    ensures WellFormed(r.0.store)
    decreases |keys| - i
  {
    if i == |keys| then (s, None)
    else
      var key := keys[i];
      if Matches(key, head) && key !in s.taken then
        var text := GetItem(s.store, key);
        var restored := if text.Some? then Restore(text.value, key) else Err(TypeError);
        if restored.Ok? then (s.(taken := s.taken + {key}), Some(Found(key, restored.value)))
        else Scan(s.(store := Remove(s.store, key)), keys, i + 1, head)
      else Scan(s, keys, i + 1, head)
  }

  // ---------------------------------------------------------------- properties

  /** Without support nothing is written or read, and nothing changes. */
  lemma {:induction false} NoSupport(env: Env, s: State, campaignId: Value, tagId: Value, vast: Value, now: nat)
    requires WellFormed(s.store) && !Support(env)
    ensures Write(env, s, campaignId, tagId, vast, now) == Ok((s, vast, false))
    ensures Read(env, s, campaignId, tagId) == (s, None)
  {
  }

  /** A write stores the Vast's text under the name made from the campaign, the tag and the
      time, records that key on the Vast, and leaves every other entry alone; a Vast that
      came from the cache is refused. */
  lemma {:induction false} WriteStores(env: Env, s: State, campaignId: Value, tagId: Value, vast: Value, now: nat)
    requires WellFormed(s.store) && Support(env) && vast.Obj? && DistinctKeys(vast.props)
    ensures var r := Write(env, s, campaignId, tagId, vast, now); var key := Name(campaignId, tagId, now);
      && (Truthy(Prop(vast, "_fromCache")) ==> r == Ok((s, vast, false)))
      && (!Truthy(Prop(vast, "_fromCache")) ==>
            && (r.Ok? <==> Builder.ToString(vast).Ok?)
            && (r.Ok? ==>
                  && r.value.2
                  && GetItem(r.value.0.store, key) == Some(Builder.ToString(vast).value)
                  && (forall k :: k != key ==> GetItem(r.value.0.store, k) == GetItem(s.store, k))
                  && Prop(r.value.1, "_cacheKey") == Str(key)
                  && (forall k :: k != "_cacheKey" ==> Prop(r.value.1, k) == Prop(vast, k))))
  {
  }

  /** The loop of `read`, step by step: what it takes, and what it removes. */
  lemma {:induction false} ScanSpec(s: State, keys: seq<string>, i: nat, head: string)
    requires WellFormed(s.store) && i <= |keys|
    requires forall j :: i <= j < |keys| ==> HasKey(s.store, keys[j])
    requires forall j, l :: i <= j < l < |keys| ==> keys[j] != keys[l]
    ensures var r := Scan(s, keys, i, head);
      && r.0.taken == s.taken + (if r.1.Some? then {r.1.value.key} else {})
      && (r.1.Some? ==>
            && Matches(r.1.value.key, head) && r.1.value.key !in s.taken
            && (exists j :: i <= j < |keys| && keys[j] == r.1.value.key)
            && GetItem(r.0.store, r.1.value.key) == GetItem(s.store, r.1.value.key)
            && GetItem(s.store, r.1.value.key).Some?
            && Restore(GetItem(s.store, r.1.value.key).value, r.1.value.key) == Ok(r.1.value.vast))
      && (forall k :: GetItem(r.0.store, k).Some? ==> GetItem(r.0.store, k) == GetItem(s.store, k))
      && (forall k :: GetItem(s.store, k).Some? && GetItem(r.0.store, k).None? ==>
            && Matches(k, head) && k !in s.taken && (exists j :: i <= j < |keys| && keys[j] == k)
            && Restore(GetItem(s.store, k).value, k).Err?)
      && (r.1.None? ==> forall j :: i <= j < |keys| && Matches(keys[j], head) && keys[j] !in s.taken ==>
            GetItem(r.0.store, keys[j]).None?)
      && (r.1.Some? ==> exists j :: i <= j < |keys| && keys[j] == r.1.value.key && NoneRebuildBefore(s, keys, i, j, head))
  {
    ScanTaken(s, keys, i, head);
    ScanFirst(s, keys, i, head);
    ScanFound(s, keys, i, head);
    ScanKept(s, keys, i, head);
    ScanRemoved(s, keys, i, head);
    ScanNone(s, keys, i, head);
  }

  /** A key whose text fails to rebuild is removed; the later keys stay in the store. */
  lemma {:induction false} RemoveUnmatched(s: State, keys: seq<string>, i: nat, head: string)
    requires WellFormed(s.store) && i < |keys| && Matches(keys[i], head)
    requires forall j :: i <= j < |keys| ==> HasKey(s.store, keys[j])
    requires forall j, l :: i <= j < l < |keys| ==> keys[j] != keys[l]
    ensures keys[i] != ""
    ensures var st := Remove(s.store, keys[i]);
      && GetItem(st, keys[i]).None?
      && (forall k :: k != keys[i] ==> GetItem(st, k) == GetItem(s.store, k))
      && (forall j :: i + 1 <= j < |keys| ==> HasKey(st, keys[j]))
  {
    var key := keys[i];
    assert key != "" by {
      var p :| 0 <= p && p + |head| < |key| && OccursAt(key, head, p) && IsDigit(key[p + |head|]);
    }
    var st := Remove(s.store, key);
    forall j | i + 1 <= j < |keys| ensures HasKey(st, keys[j]) {
      assert GetItem(st, keys[j]) == GetItem(s.store, keys[j]);
    }
  }

  lemma {:induction false} ScanTaken(s: State, keys: seq<string>, i: nat, head: string)
    requires WellFormed(s.store) && i <= |keys|
    requires forall j :: i <= j < |keys| ==> HasKey(s.store, keys[j])
    requires forall j, l :: i <= j < l < |keys| ==> keys[j] != keys[l]
    ensures var r := Scan(s, keys, i, head);
      r.0.taken == s.taken + (if r.1.Some? then {r.1.value.key} else {})
    decreases |keys| - i
  {
    if i < |keys| {
      var key := keys[i];
      if Matches(key, head) && key !in s.taken {
        var text := GetItem(s.store, key);
        var restored := if text.Some? then Restore(text.value, key) else Err(TypeError);
        if restored.Err? {
          var s' := s.(store := Remove(s.store, key));
          RemoveUnmatched(s, keys, i, head);
          ScanTaken(s', keys, i + 1, head);
        }
      } else {
        ScanTaken(s, keys, i + 1, head);
      }
    }
  }

  lemma {:induction false} ScanFound(s: State, keys: seq<string>, i: nat, head: string)
    requires WellFormed(s.store) && i <= |keys|
    requires forall j :: i <= j < |keys| ==> HasKey(s.store, keys[j])
    requires forall j, l :: i <= j < l < |keys| ==> keys[j] != keys[l]
    ensures var r := Scan(s, keys, i, head);
      r.1.Some? ==>
        && Matches(r.1.value.key, head) && r.1.value.key !in s.taken
        && (exists j :: i <= j < |keys| && keys[j] == r.1.value.key)
        && GetItem(r.0.store, r.1.value.key) == GetItem(s.store, r.1.value.key)
        && GetItem(s.store, r.1.value.key).Some?
        && Restore(GetItem(s.store, r.1.value.key).value, r.1.value.key) == Ok(r.1.value.vast)
    decreases |keys| - i
  {
    if i < |keys| {
      var key := keys[i];
      if Matches(key, head) && key !in s.taken {
        var text := GetItem(s.store, key);
        var restored := if text.Some? then Restore(text.value, key) else Err(TypeError);
        if restored.Err? {
          var s' := s.(store := Remove(s.store, key));
          RemoveUnmatched(s, keys, i, head);
          ScanFound(s', keys, i + 1, head);
        }
      } else {
        ScanFound(s, keys, i + 1, head);
      }
    }
  }

  lemma {:induction false} ScanKept(s: State, keys: seq<string>, i: nat, head: string)
    requires WellFormed(s.store) && i <= |keys|
    requires forall j :: i <= j < |keys| ==> HasKey(s.store, keys[j])
    requires forall j, l :: i <= j < l < |keys| ==> keys[j] != keys[l]
    ensures var r := Scan(s, keys, i, head);
      forall k :: GetItem(r.0.store, k).Some? ==> GetItem(r.0.store, k) == GetItem(s.store, k)
    decreases |keys| - i
  {
    if i < |keys| {
      var key := keys[i];
      if Matches(key, head) && key !in s.taken {
        var text := GetItem(s.store, key);
        var restored := if text.Some? then Restore(text.value, key) else Err(TypeError);
        if restored.Err? {
          var s' := s.(store := Remove(s.store, key));
          RemoveUnmatched(s, keys, i, head);
          ScanKept(s', keys, i + 1, head);
        }
      } else {
        ScanKept(s, keys, i + 1, head);
      }
    }
  }

  lemma {:induction false} ScanRemoved(s: State, keys: seq<string>, i: nat, head: string)
    requires WellFormed(s.store) && i <= |keys|
    requires forall j :: i <= j < |keys| ==> HasKey(s.store, keys[j])
    requires forall j, l :: i <= j < l < |keys| ==> keys[j] != keys[l]
    ensures var r := Scan(s, keys, i, head);
      forall k :: GetItem(s.store, k).Some? && GetItem(r.0.store, k).None? ==>
        && Matches(k, head) && k !in s.taken && (exists j :: i <= j < |keys| && keys[j] == k)
        && Restore(GetItem(s.store, k).value, k).Err?
    decreases |keys| - i
  {
    if i < |keys| {
      var key := keys[i];
      if Matches(key, head) && key !in s.taken {
        var text := GetItem(s.store, key);
        var restored := if text.Some? then Restore(text.value, key) else Err(TypeError);
        if restored.Err? {
          var s' := s.(store := Remove(s.store, key));
          RemoveUnmatched(s, keys, i, head);
          ScanRemoved(s', keys, i + 1, head);
        }
      } else {
        ScanRemoved(s, keys, i + 1, head);
      }
    }
  }

  lemma {:induction false} ScanFirst(s: State, keys: seq<string>, i: nat, head: string)
    requires WellFormed(s.store) && i <= |keys|
    requires forall j :: i <= j < |keys| ==> HasKey(s.store, keys[j])
    requires forall j, l :: i <= j < l < |keys| ==> keys[j] != keys[l]
    ensures var r := Scan(s, keys, i, head);
      r.1.Some? ==> exists j :: i <= j < |keys| && keys[j] == r.1.value.key && NoneRebuildBefore(s, keys, i, j, head)
    decreases |keys| - i
  {
    if i < |keys| {
      var r := Scan(s, keys, i, head);
      if !(Matches(keys[i], head) && keys[i] !in s.taken) {
        ScanPasses(s, keys, i, head);
        ScanFirst(s, keys, i + 1, head);
        if r.1.Some? {
          var j :| i + 1 <= j < |keys| && keys[j] == r.1.value.key && NoneRebuildBefore(s, keys, i + 1, j, head);
          assert NoneRebuildBefore(s, keys, i, j, head);
        }
      } else if Rebuilds(s.store, keys[i]) {
        ScanTakes(s, keys, i, head);
        assert NoneRebuildBefore(s, keys, i, i, head);
      } else {
        var s' := s.(store := Remove(s.store, keys[i]));
        ScanDrops(s, keys, i, head);
        ScanFirst(s', keys, i + 1, head);
        if r.1.Some? {
          var j :| i + 1 <= j < |keys| && keys[j] == r.1.value.key && NoneRebuildBefore(s', keys, i + 1, j, head);
          FirstAfterRemoval(s, s', keys, i, j, head);
        }
      }
    }
  }

  /** A key the pattern does not find, or one already taken, is passed over. */
  lemma {:induction false} ScanPasses(s: State, keys: seq<string>, i: nat, head: string)
    requires WellFormed(s.store) && i < |keys|
    requires !(Matches(keys[i], head) && keys[i] !in s.taken)
    ensures Scan(s, keys, i, head) == Scan(s, keys, i + 1, head)
  {
  }

  /** A found, untaken key whose text rebuilds is the one taken. */
  lemma {:induction false} ScanTakes(s: State, keys: seq<string>, i: nat, head: string)
    requires WellFormed(s.store) && i < |keys|
    requires Matches(keys[i], head) && keys[i] !in s.taken && Rebuilds(s.store, keys[i])
    ensures Scan(s, keys, i, head).1.Some? && Scan(s, keys, i, head).1.value.key == keys[i]
  {
  }

  /** A found, untaken key whose text does not rebuild is removed, and the scan goes on. */
  lemma {:induction false} ScanDrops(s: State, keys: seq<string>, i: nat, head: string)
    requires WellFormed(s.store) && i < |keys|
    requires forall j :: i <= j < |keys| ==> HasKey(s.store, keys[j])
    requires forall j, l :: i <= j < l < |keys| ==> keys[j] != keys[l]
    requires Matches(keys[i], head) && keys[i] !in s.taken && !Rebuilds(s.store, keys[i])
    ensures var st := Remove(s.store, keys[i]);
      && WellFormed(st)
      && Scan(s, keys, i, head) == Scan(s.(store := st), keys, i + 1, head)
      && (forall k :: k != keys[i] ==> GetItem(st, k) == GetItem(s.store, k))
      && (forall j :: i + 1 <= j < |keys| ==> HasKey(st, keys[j]))
  {
    RemoveUnmatched(s, keys, i, head);
  }

  /** Removing a key whose text does not rebuild changes no later key's text. */
  lemma {:induction false} FirstAfterRemoval(s: State, s': State, keys: seq<string>, i: nat, j: nat, head: string)
    requires i < j <= |keys| && s'.taken == s.taken
    requires forall l :: i < l < j ==> keys[l] != keys[i]
    requires forall k :: k != keys[i] ==> GetItem(s'.store, k) == GetItem(s.store, k)
    requires Matches(keys[i], head) && keys[i] !in s.taken ==> !Rebuilds(s.store, keys[i])
    requires NoneRebuildBefore(s', keys, i + 1, j, head)
    ensures NoneRebuildBefore(s, keys, i, j, head)
  {
    forall l | i <= l < j && Matches(keys[l], head) && keys[l] !in s.taken ensures !Rebuilds(s.store, keys[l]) {
      if l > i {
        assert keys[l] != keys[i];
        assert !Rebuilds(s'.store, keys[l]);
        RebuildsSame(s'.store, s.store, keys[l]);
        assert !Rebuilds(s.store, keys[l]);
      } else {
        assert keys[l] == keys[i];
      }
    }
  }

  /** Whether a key rebuilds depends only on the text stored under it. */
  lemma {:induction false} RebuildsSame(a: Storage, b: Storage, key: string)
    requires GetItem(a, key) == GetItem(b, key)
    ensures Rebuilds(a, key) == Rebuilds(b, key)
  {
  }

  lemma {:induction false} ScanNone(s: State, keys: seq<string>, i: nat, head: string)
    requires WellFormed(s.store) && i <= |keys|
    requires forall j :: i <= j < |keys| ==> HasKey(s.store, keys[j])
    requires forall j, l :: i <= j < l < |keys| ==> keys[j] != keys[l]
    ensures var r := Scan(s, keys, i, head);
      r.1.None? ==> forall j :: i <= j < |keys| && Matches(keys[j], head) && keys[j] !in s.taken ==>
        GetItem(r.0.store, keys[j]).None?
    decreases |keys| - i
  {
    if i < |keys| {
      var key := keys[i];
      var r := Scan(s, keys, i, head);
      if Matches(key, head) && key !in s.taken {
        var text := GetItem(s.store, key);
        var restored := if text.Some? then Restore(text.value, key) else Err(TypeError);
        if restored.Err? {
          var s' := s.(store := Remove(s.store, key));
          assert r == Scan(s', keys, i + 1, head);
          RemoveUnmatched(s, keys, i, head);
          ScanNone(s', keys, i + 1, head);
          ScanKept(s', keys, i + 1, head);
          assert GetItem(r.0.store, key).None?;
        } else {
          assert r.1.Some?;
        }
      } else {
        assert r == Scan(s, keys, i + 1, head);
        ScanNone(s, keys, i + 1, head);
      }
    }
  }

  /** A read takes the first stored key the pattern finds that this page has not taken and
      whose text rebuilds a Vast: no such key comes before it in the storage, the key joins
      the taken set and its entry stays. Every
      entry that disappears was one the pattern found, not yet taken, whose text did not
      rebuild; nothing else changes. When nothing is taken, no untaken key the pattern finds
      is left in the storage. */
  lemma {:induction false} ReadSpec(env: Env, s: State, campaignId: Value, tagId: Value)
    requires WellFormed(s.store) && Support(env)
    ensures var r := Read(env, s, campaignId, tagId); var head := Head(campaignId, tagId);
      && r.0.taken == s.taken + (if r.1.Some? then {r.1.value.key} else {})
      && (r.1.Some? ==>
            && Matches(r.1.value.key, head) && r.1.value.key !in s.taken
            && GetItem(s.store, r.1.value.key).Some?
            && GetItem(r.0.store, r.1.value.key) == GetItem(s.store, r.1.value.key)
            && Restore(GetItem(s.store, r.1.value.key).value, r.1.value.key) == Ok(r.1.value.vast))
      && (forall k :: GetItem(r.0.store, k).Some? ==> GetItem(r.0.store, k) == GetItem(s.store, k))
      && (forall k :: GetItem(s.store, k).Some? && GetItem(r.0.store, k).None? ==>
            Matches(k, head) && k !in s.taken && Restore(GetItem(s.store, k).value, k).Err?)
      && (r.1.None? ==> forall k :: GetItem(r.0.store, k).Some? && Matches(k, head) ==> k in s.taken)
      && (r.1.Some? ==>
            exists j :: 0 <= j < |s.store| && s.store[j].0 == r.1.value.key &&
              forall l :: 0 <= l < j && Matches(s.store[l].0, head) && s.store[l].0 !in s.taken ==>
                !Rebuilds(s.store, s.store[l].0))
  {
    var keys := KeysOf(s.store);
    var head := Head(campaignId, tagId);
    forall j | 0 <= j < |keys| ensures HasKey(s.store, keys[j]) {
      assert s.store[j].0 == keys[j];
    }
    ScanSpec(s, keys, 0, head);
    var r := Read(env, s, campaignId, tagId);
    if r.1.None? {
      forall k | GetItem(r.0.store, k).Some? && Matches(k, head) ensures k in s.taken {
        var j :| 0 <= j < |s.store| && s.store[j].0 == k;
        assert keys[j] == k;
      }
    } else {
      var j :| 0 <= j < |keys| && keys[j] == r.1.value.key && NoneRebuildBefore(s, keys, 0, j, head);
      assert s.store[j].0 == r.1.value.key;
      forall l | 0 <= l < j && Matches(s.store[l].0, head) && s.store[l].0 !in s.taken
        ensures !Rebuilds(s.store, s.store[l].0)
      {
        assert keys[l] == s.store[l].0;
      }
    }
  }

  /** A key, once taken, is never returned by a read again, whatever campaign and tag ask. */
  lemma {:induction false} TakenOnce(env: Env, s: State, campaignId: Value, tagId: Value, campaignId2: Value, tagId2: Value)
    requires WellFormed(s.store)
    ensures var r := Read(env, s, campaignId, tagId);
      r.1.Some? ==> (var again := Read(env, r.0, campaignId2, tagId2);
        r.1.value.key in r.0.taken && (again.1.Some? ==> again.1.value.key != r.1.value.key))
  {
    var r := Read(env, s, campaignId, tagId);
    if r.1.Some? {
      ReadSpec(env, s, campaignId, tagId);
      ReadSpec(env, r.0, campaignId2, tagId2);
    }
  }

  /** A rebuilt Vast is marked: `_fromCache` is true and `_cacheKey` is its key. */
  lemma {:induction false} RestoreMarks(text: string, key: string)
    requires var v := Builder.ToVast(Str(text)); v.Ok? && v.value.Obj? && DistinctKeys(v.value.props)
    ensures Restore(text, key).Ok?
    ensures Prop(Restore(text, key).value, "_fromCache") == Bool(true)
    ensures Prop(Restore(text, key).value, "_cacheKey") == Str(key)
  {
  }
}
