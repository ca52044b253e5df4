/** The query-string helpers of the player's URI utilities: the file name at the end of a
    path, a query string read into a flat object, and a flat object written as a query. */
module Uri {
  import opened Strs
  import opened Js

  // ---------------------------------------------------------------- file name

  /** `path_file_name(path)`: the last `/`-segment when it holds a `.`, otherwise `''`. */
  function PathFileName(path: string): (r: string)
    ensures r == "" || Contains(r, ".")
  {
    var name := LastPiece(path);
    if Contains(name, ".") then name else ""
  }

  /** `path.split('/').pop()` */
  function LastPiece(path: string): string {
    var parts := Split(path, "/");
    parts[|parts| - 1]
  }

  /** `t` is the last segment of `path`: a suffix free of `/` that is the whole path or
      follows a `/`. */
  predicate IsLastSegment(path: string, t: string) {
    && |t| <= |path|
    && path[|path| - |t|..] == t
    && !Contains(t, "/")
    && (|t| == |path| || path[|path| - |t| - 1] == '/')
  }

  /** A string joined from two or more parts ends with the separator and the last part. */
  lemma {:induction false} JoinLast(parts: seq<string>, sep: string)
    requires |parts| >= 2
    ensures Join(parts, sep) == Join(parts[..|parts| - 1], sep) + sep + parts[|parts| - 1]
    decreases |parts|
  {
    if |parts| > 2 {
      JoinLast(parts[1..], sep);
      assert parts[1..][..|parts| - 2] == parts[1..|parts| - 1];
      assert parts[..|parts| - 1][1..] == parts[1..|parts| - 1];
    }
  }

  /** The last piece of the split is the last segment. */
  lemma {:induction false} SplitLastSegment(path: string)
    ensures IsLastSegment(path, LastPiece(path))
  {
    var parts := Split(path, "/");
    var last := parts[|parts| - 1];
    if |parts| >= 2 {
      JoinLast(parts, "/");
      var head := Join(parts[..|parts| - 1], "/");
      assert path == head + "/" + last;
      assert path[|path| - |last|..] == last;
      assert path[|path| - |last| - 1] == '/';
    }
  }

  /** A path has only one last segment. */
  lemma {:induction false} LastSegmentUnique(path: string, a: string, b: string)
    requires IsLastSegment(path, a) && IsLastSegment(path, b)
    ensures a == b
  {
    SuffixesCompared(path, a, b);
    SuffixesCompared(path, b, a);
  }

  /** Of two `/`-delimited suffixes of a path, the longer holds a `/` where the shorter
      starts, and two of the same length are the same. */
  lemma {:induction false} SuffixesCompared(path: string, a: string, b: string)
    requires |a| <= |path| && path[|path| - |a|..] == a && (|a| == |path| || path[|path| - |a| - 1] == '/')
    requires |b| <= |path| && path[|path| - |b|..] == b
    ensures |a| < |b| ==> OccursAt(b, "/", |b| - |a| - 1)
    ensures |a| == |b| ==> a == b
  {
    if |a| < |b| {
      var i := |b| - |a| - 1;
      assert b[i] == path[|path| - |a| - 1];
      assert b[i..i + 1] == "/";
    }
  }

  /** `path_file_name` answers the last segment of the path when it holds a `.`, and `''`
      otherwise. */
  lemma {:induction false} PathFileNameSpec(path: string, t: string)
    requires IsLastSegment(path, t)
    ensures PathFileName(path) == if Contains(t, ".") then t else ""
  {
    SplitLastSegment(path);
    LastSegmentUnique(path, t, LastPiece(path));
  }

  // ---------------------------------------------------------------- query to object

  /** The assignments `query_to_object` makes, in order: each non-empty `&`-piece assigns
      its second `=`-part, `undefined` when there is none, to its first. Assigning a text
      or `undefined` to `__proto__` changes nothing. */
  function Entries(pieces: seq<string>): (r: seq<(string, Value)>)
    ensures |r| <= |pieces|
    ensures forall i :: 0 <= i < |r| ==> r[i].0 != "__proto__" && (r[i].1.Str? || r[i].1.Undefined?)
  {
    if |pieces| == 0 then []
    else
      var rest := Entries(pieces[1..]);
      var pair := pieces[0];
      if |pair| == 0 then rest
      else
        var kv := Split(pair, "=");
        if kv[0] == "__proto__" then rest
        else [(kv[0], if |kv| > 1 then Str(kv[1]) else Undefined)] + rest
  }

  /** `query_to_object(query)`: the first `?` is dropped and the `&`-pieces are assigned in
      order onto an empty object. */
  function QueryToObject(query: string): (r: Props)
    ensures OwnKeyOrder(r)
  {
    FromPairs(Entries(Split(ReplaceFirst(query, "?", ""), "&")))
  }

  /** The value the last pair with key `k` carries, `undefined` when there is none. */
  function LastValue(pairs: seq<(string, Value)>, k: string): Value {
    if |pairs| == 0 then Undefined
    else if pairs[|pairs| - 1].0 == k then pairs[|pairs| - 1].1
    else LastValue(pairs[..|pairs| - 1], k)
  }

  /** Successive assignment leaves at each key the value assigned last, and has exactly the
      keys assigned. */
  lemma {:induction false} FromPairsLast(pairs: seq<(string, Value)>, k: string)
    ensures Get(FromPairs(pairs), k) == LastValue(pairs, k)
    ensures Has(FromPairs(pairs), k) <==> exists i | 0 <= i < |pairs| :: pairs[i].0 == k
  {
    if |pairs| > 0 {
      var init := pairs[..|pairs| - 1];
      FromPairsLast(init, k);
      if exists i | 0 <= i < |pairs| :: pairs[i].0 == k {
        var i :| 0 <= i < |pairs| && pairs[i].0 == k;
        if i < |pairs| - 1 { assert init[i].0 == k; }
      }
      if exists i | 0 <= i < |init| :: init[i].0 == k {
        var i :| 0 <= i < |init| && init[i].0 == k;
        assert pairs[i].0 == k;
      }
    }
  }

  /** A later piece with the same key overwrites an earlier one. */
  lemma {:induction false} QueryLastWins(query: string, k: string)
    ensures var entries := Entries(Split(ReplaceFirst(query, "?", ""), "&"));
      && Get(QueryToObject(query), k) == LastValue(entries, k)
      && (Has(QueryToObject(query), k) <==> exists i | 0 <= i < |entries| :: entries[i].0 == k)
  {
    FromPairsLast(Entries(Split(ReplaceFirst(query, "?", ""), "&")), k);
  }

  // ---------------------------------------------------------------- object to query

  /** The `key=value` pieces of an object, in key order. */
  function Pieces(obj: Props): (r: seq<string>)
    ensures |r| == |obj|
  {
    seq(|obj|, i requires 0 <= i < |obj| => obj[i].0 + "=" + ToStr(obj[i].1))
  }

  /** `object_to_query(obj)` */
  function ObjectToQuery(obj: Props): (r: string)
    ensures r == "" <==> |obj| == 0
  {
    var inline := Pieces(obj);
    if |inline| == 0 then ""
    else
      assert inline[0] == obj[0].0 + "=" + ToStr(obj[0].1);
      JoinNonEmpty(inline, "&");
      Join(inline, "&")
  }

  lemma {:induction false} JoinNonEmpty(parts: seq<string>, sep: string)
    requires |parts| >= 1 && |parts[0]| >= 1
    ensures |Join(parts, sep)| >= 1
  {
  }

  // ---------------------------------------------------------------- the round trip

  predicate NoChar(s: string, c: char) {
    forall i :: 0 <= i < |s| ==> s[i] != c
  }

  /** Text free of the three query delimiters. */
  predicate Plain(s: string) {
    NoChar(s, '&') && NoChar(s, '=') && NoChar(s, '?')
  }

  lemma {:induction false} NoCharContains(s: string, c: char)
    requires NoChar(s, c)
    ensures !Contains(s, [c])
  {
    forall i | 0 <= i < |s| ensures !OccursAt(s, [c], i) {
      assert s[i..i + 1] == [s[i]];
    }
  }

  /** A one-character separator is first found right after a part free of it. */
  lemma {:induction false} FirstOccurrence(p: string, sep: string, tail: string)
    requires |sep| == 1 && NoChar(p, sep[0])
    ensures IndexOf(p + sep + tail, sep) == |p|
  {
    var s := p + sep + tail;
    assert s[|p|..|p| + 1] == sep;
    assert OccursAt(s, sep, |p|);
  }

  /** Splitting on a one-character separator undoes joining parts free of it. */
  lemma {:induction false} SplitJoin(parts: seq<string>, sep: string)
    requires |sep| == 1 && |parts| >= 1
    requires forall i :: 0 <= i < |parts| ==> NoChar(parts[i], sep[0])
    ensures Split(Join(parts, sep), sep) == parts
    decreases |parts|
  {
    if |parts| == 1 {
      NoCharContains(parts[0], sep[0]);
      assert [sep[0]] == sep;
    } else {
      var rest := Join(parts[1..], sep);
      assert Split(Join(parts, sep), sep) == [parts[0]] + Split(rest, sep) by {
        SplitStep(parts[0], sep, rest);
      }
      SplitJoin(parts[1..], sep);
      assert parts == [parts[0]] + parts[1..];
    }
  }

  /** The first piece split off is the part before the first separator. */
  lemma {:induction false} SplitStep(p: string, sep: string, rest: string)
    requires |sep| == 1 && NoChar(p, sep[0])
    ensures Split(p + sep + rest, sep) == [p] + Split(rest, sep)
  {
    var s := p + sep + rest;
    FirstOccurrence(p, sep, rest);
    assert s[|p| + |sep|..] == rest;
    assert s[..|p|] == p;
  }

  /** A plain `key=value` piece splits back into its key and value. */
  lemma {:induction false} SplitPair(k: string, v: string)
    requires Plain(k) && Plain(v)
    ensures Split(k + "=" + v, "=") == [k, v]
  {
    SplitJoin([k, v], "=");
    assert Join([k, v], "=") == k + "=" + Join([v], "=");
  }

  lemma {:induction false} JoinNoChar(parts: seq<string>, sep: string, c: char)
    requires NoChar(sep, c) && forall i :: 0 <= i < |parts| ==> NoChar(parts[i], c)
    ensures NoChar(Join(parts, sep), c)
    decreases |parts|
  {
    if |parts| > 1 {
      JoinNoChar(parts[1..], sep, c);
    }
  }

  /** An object with plain keys other than `__proto__` and plain text values. */
  predicate PlainObject(o: Props) {
    && OwnKeyOrder(o)
    && forall i :: 0 <= i < |o| ==>
         o[i].0 != "__proto__" && Plain(o[i].0) && o[i].1.Str? && Plain(o[i].1.s)
  }

  /** Each plain piece assigns its own key and value. */
  lemma {:induction false} EntriesOfPieces(o: Props)
    requires PlainObject(o)
    ensures Entries(Pieces(o)) == o
    decreases |o|
  {
    if |o| > 0 {
      PlainTail(o);
      EntriesOfPieces(o[1..]);
      HeadEntry(o);
      assert o == [o[0]] + o[1..];
    }
  }

  lemma {:induction false} PlainTail(o: Props)
    requires PlainObject(o) && |o| > 0
    ensures PlainObject(o[1..]) && Pieces(o)[1..] == Pieces(o[1..])
  {
    assert OwnKeyOrder(o[1..]) by {
      assert forall i, j :: 0 <= i < j < |o[1..]| ==> o[1..][i] == o[i + 1] && o[1..][j] == o[j + 1];
    }
  }

  /** The first piece of a plain object assigns its first key and value. */
  lemma {:induction false} HeadEntry(o: Props)
    requires PlainObject(o) && |o| > 0
    ensures Entries(Pieces(o)) == [o[0]] + Entries(Pieces(o)[1..])
  {
    var pieces := Pieces(o);
    var (k, v) := o[0];
    assert pieces[0] == k + "=" + v.s;
    SplitPair(k, v.s);
  }

  /** Assigning the pairs of an object already in own-key order, in order, rebuilds it. */
  lemma {:induction false} FromPairsOrdered(o: Props)
    requires OwnKeyOrder(o)
    ensures FromPairs(o) == o
  {
    if |o| > 0 {
      var init := o[..|o| - 1];
      var (k, v) := o[|o| - 1];
      assert OwnKeyOrder(init);
      FromPairsOrdered(init);
      assert !Has(init, k);
      if IsIndexKey(k) {
        InsertionPointEnd(init, k);
      }
      PutAppends(init, k, v);
      assert init + [(k, v)] == o;
    }
  }

  /** An index key larger than every key present, all of them index keys, goes last. */
  lemma {:induction false} InsertionPointEnd(ps: Props, k: string)
    requires IsIndexKey(k)
    requires forall i :: 0 <= i < |ps| ==> IsIndexKey(ps[i].0) && DigitsValue(ps[i].0) < DigitsValue(k)
    ensures InsertionPoint(ps, k) == |ps|
  {
    if |ps| > 0 {
      InsertionPointEnd(ps[1..], k);
    }
  }

  /** For keys and values free of `&`, `=` and `?`, reading the query an object writes
      gives the object back. */
  lemma {:induction false} QueryRoundTrip(o: Props)
    requires PlainObject(o)
    ensures QueryToObject(ObjectToQuery(o)) == o
  {
    var q := ObjectToQuery(o);
    var pieces := Pieces(o);
    if |o| == 0 {
      assert q == "";
      NoCharContains("", '?');
      assert Split("", "&") == [""];
    } else {
      forall i | 0 <= i < |pieces|
        ensures NoChar(pieces[i], '&') && NoChar(pieces[i], '?')
      {
        assert pieces[i] == o[i].0 + "=" + o[i].1.s;
      }
      JoinNoChar(pieces, "&", '?');
      NoCharContains(q, '?');
      SplitJoin(pieces, "&");
      EntriesOfPieces(o);
      FromPairsOrdered(o);
    }
  }
}
