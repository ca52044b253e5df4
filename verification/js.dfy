/** The JavaScript value universe the source manipulates: primitives, arrays and objects
    whose own properties are an ordered list. Objects remember the class that built them
    (`instanceof`), since the source dispatches on it. Also: truthiness, property lookup
    and update with the language's own-key order, `parseInt`, `String(v)`, and the
    exceptions the source throws. */
module Js {
  import opened Strs

  datatype Option<T> = None | Some(value: T)

  /** The constructors whose instances the source creates or tests with `instanceof`, and
      `Reprototyped`: an object whose prototype a `__proto__` assignment replaced, by `null`
      when `toNull` and otherwise by a parsed JSON object or array. */
  datatype Cls =
    | PlainObject
    | SchemaClass | VastClass | AdClass | CreativeClass | MediaFileClass
    | AdsClass | CreativesClass | MediaFilesClass
    | TrackingEventsClass | VideoClicksClass
    | Reprototyped(toNull: bool)

  /** `x instanceof Schema` */
  predicate IsSchemaClass(c: Cls) {
    c == SchemaClass || c == VastClass || c == AdClass || c == CreativeClass || c == MediaFileClass
  }

  /** `x instanceof Collection` (the objects that have an `all()` method). */
  predicate IsCollectionClass(c: Cls) {
    c == AdsClass || c == CreativesClass || c == MediaFilesClass
  }

  /** Integers stand for JavaScript numbers; the source only ever stores integral ones. */
  datatype Value =
    | Undefined
    | Null
    | Bool(b: bool)
    | Num(n: int)
    | Str(s: string)
    | Arr(items: seq<Value>)
    | Obj(cls: Cls, props: seq<(string, Value)>)

  type Props = seq<(string, Value)>

  /** The result of `parseInt`: an integer or NaN. */
  datatype Number = NaN | Int(i: int)

  /** Why a Schema refused its input; each carries what the source's message mentions. */
  datatype SchemaProblem =
    | NotAnObject(typeName: string)
    | NoTagName(json: string)
    | NoAttributes(tagName: string)
    | UnexpectedName(className: string, expected: string, actual: string)
    | NameMissing

  /** What the source throws. A TypeError is the engine's reaction to a method call or a
      property read on a value that does not support it. */
  datatype Thrown =
    | XmlParserError(message: string)
    | SchemaError(problem: SchemaProblem)
    | VastError(code: int, info: Option<string>)
    | Failure(message: string)
    | SyntaxError
    | TypeError
    | RangeError

  datatype Result<T> = Ok(value: T) | Err(error: Thrown) {
    predicate IsFailure() { Err? }
    function PropagateFailure<U>(): Result<U> requires Err? { Err(error) }
    function Extract(): T requires Ok? { value }
  }

  /** A result that is no VAST error of the player's own: a success, or a failure of the
      Schema layer, the parser or the engine. */
  predicate NoVastError<T>(r: Result<T>) {
    r.Err? ==> !r.error.VastError?
  }

  /** `!!v` */
  predicate Truthy(v: Value) {
    match v
    case Undefined => false
    case Null => false
    case Bool(b) => b
    case Num(n) => n != 0
    case Str(s) => s != ""
    case Arr(_) => true
    case Obj(_, _) => true
  }

  /** `typeof v` */
  function TypeOf(v: Value): string {
    match v
    case Undefined => "undefined"
    case Null => "object"
    case Bool(_) => "boolean"
    case Num(_) => "number"
    case Str(_) => "string"
    case Arr(_) => "object"
    case Obj(_, _) => "object"
  }

  /** `v instanceof Object`: every array and object but one without a prototype. */
  predicate IsObject(v: Value) {
    v.Arr? || (v.Obj? && v.cls != Reprototyped(true))
  }

  // ---------------------------------------------------------------- own properties

  /** Canonical array-index property names, which every object lists first, ascending. */
  predicate IsIndexKey(k: string) {
    && |k| >= 1
    && (forall i :: 0 <= i < |k| ==> IsDigit(k[i]))
    && (|k| == 1 || k[0] != '0')
    && DigitsValue(k) < 0xFFFF_FFFF
  }

  function Keys(ps: Props): (r: seq<string>)
    ensures |r| == |ps| && forall i :: 0 <= i < |ps| ==> r[i] == ps[i].0
  {
    seq(|ps|, i requires 0 <= i < |ps| => ps[i].0)
  }

  predicate DistinctKeys(ps: Props) {
    forall i, j :: 0 <= i < j < |ps| ==> ps[i].0 != ps[j].0
  }

  predicate Has(ps: Props, k: string) {
    exists i | 0 <= i < |ps| :: ps[i].0 == k
  }

  /** Position of `k` in the property list, or -1. */
  function Find(ps: Props, k: string): (r: int)
    ensures -1 <= r < |ps|
    ensures r == -1 <==> !Has(ps, k)
    ensures r >= 0 ==> ps[r].0 == k && forall i :: 0 <= i < r ==> ps[i].0 != k
  {
    if |ps| == 0 then -1
    else if ps[0].0 == k then 0
    else var r := Find(ps[1..], k); if r < 0 then -1 else r + 1
  }

  /** `o[k]` for an own property, `undefined` when absent. */
  function Get(ps: Props, k: string): (r: Value)
    ensures !Has(ps, k) ==> r == Undefined
  {
    var i := Find(ps, k);
    if i < 0 then Undefined else ps[i].1
  }

  lemma {:induction false} GetAt(ps: Props, i: int)
    requires DistinctKeys(ps) && 0 <= i < |ps|
    ensures Get(ps, ps[i].0) == ps[i].1
  {
  }

  /** Where a new key goes: index keys before the first non-index or larger index key,
      every other key at the end. */
  function InsertionPoint(ps: Props, k: string): (r: nat)
    ensures r <= |ps|
    ensures !IsIndexKey(k) ==> r == |ps|
  {
    if !IsIndexKey(k) then |ps|
    else if |ps| == 0 then 0
    else if !IsIndexKey(ps[0].0) || DigitsValue(ps[0].0) > DigitsValue(k) then 0
    else 1 + InsertionPoint(ps[1..], k)
  }

  /** The order in which the language lists own keys: index keys first, ascending. */
  predicate OwnKeyOrder(ps: Props) {
    && DistinctKeys(ps)
    && forall i, j :: 0 <= i < j < |ps| && IsIndexKey(ps[j].0) ==>
         IsIndexKey(ps[i].0) && DigitsValue(ps[i].0) < DigitsValue(ps[j].0)
  }

  lemma {:induction false} DigitsValuePositive(s: string)
    requires |s| >= 1 && (forall i :: 0 <= i < |s| ==> IsDigit(s[i])) && s[0] != '0'
    ensures DigitsValue(s) >= 1
  {
    if |s| > 1 {
      DigitsValuePositive(s[..|s| - 1]);
    }
  }

  /** An index key is the decimal rendering of its value. */
  lemma {:induction false} IndexKeyCanonical(s: string)
    requires |s| >= 1 && (forall i :: 0 <= i < |s| ==> IsDigit(s[i])) && (|s| == 1 || s[0] != '0')
    ensures NatToString(DigitsValue(s)) == s
  {
    var c := s[|s| - 1];
    var d := c as int - '0' as int;
    assert DigitChar(d) == c;
    if |s| > 1 {
      var p := s[..|s| - 1];
      IndexKeyCanonical(p);
      DigitsValuePositive(p);
      var q := DigitsValue(p);
      assert DigitsValue(s) == 10 * q + d;
      DivMod10(q, d);
      assert s == p + [c];
    }
  }

  lemma {:induction false} DivMod10(q: nat, d: int)
    requires 0 <= d < 10
    ensures (10 * q + d) / 10 == q && (10 * q + d) % 10 == d && 10 * q + d >= 10 * q
  {
  }

  lemma {:induction false} IndexKeyInjective(a: string, b: string)
    requires IsIndexKey(a) && IsIndexKey(b) && DigitsValue(a) == DigitsValue(b)
    ensures a == b
  {
    IndexKeyCanonical(a);
    IndexKeyCanonical(b);
  }

  lemma {:induction false} InsertionPointOrdered(ps: Props, k: string)
    requires OwnKeyOrder(ps) && IsIndexKey(k) && !Has(ps, k)
    ensures var p := InsertionPoint(ps, k);
      && (forall i :: 0 <= i < p ==> IsIndexKey(ps[i].0) && DigitsValue(ps[i].0) < DigitsValue(k))
      && (p < |ps| ==> !IsIndexKey(ps[p].0) || DigitsValue(ps[p].0) > DigitsValue(k))
  {
    if |ps| > 0 && IsIndexKey(ps[0].0) && DigitsValue(ps[0].0) <= DigitsValue(k) {
      if DigitsValue(ps[0].0) == DigitsValue(k) {
        IndexKeyInjective(ps[0].0, k);
        assert false;
      }
      assert !Has(ps[1..], k) by {
        forall q | 0 <= q < |ps[1..]| ensures ps[1..][q].0 != k { assert ps[1..][q] == ps[q + 1]; }
      }
      InsertionPointOrdered(ps[1..], k);
      var p := InsertionPoint(ps[1..], k);
      forall i | 0 <= i < p + 1
        ensures IsIndexKey(ps[i].0) && DigitsValue(ps[i].0) < DigitsValue(k)
      {
        if i > 0 { assert ps[i] == ps[1..][i - 1]; }
      }
    }
  }

  lemma {:induction false} PutNewOrdered(ps: Props, k: string, v: Value)
    requires OwnKeyOrder(ps) && !Has(ps, k)
    ensures var p := InsertionPoint(ps, k); OwnKeyOrder(ps[..p] + [(k, v)] + ps[p..])
  {
    var p := InsertionPoint(ps, k);
    var r := ps[..p] + [(k, v)] + ps[p..];
    PutNewDistinct(ps, p, k, v);
    if IsIndexKey(k) {
      InsertionPointOrdered(ps, k);
    }
    forall i, j | 0 <= i < j < |r| && IsIndexKey(r[j].0)
      ensures IsIndexKey(r[i].0) && DigitsValue(r[i].0) < DigitsValue(r[j].0)
    {
      if j < p {
        assert r[i] == ps[i] && r[j] == ps[j];
      } else if j == p {
        assert r[i] == ps[i];
      } else if i < p {
        assert r[i] == ps[i] && r[j] == ps[j - 1];
      } else if i == p {
        assert r[j] == ps[j - 1];
        if j - 1 > p {
          assert IsIndexKey(ps[p].0) && DigitsValue(ps[p].0) < DigitsValue(ps[j - 1].0);
        }
      } else {
        assert r[i] == ps[i - 1] && r[j] == ps[j - 1];
      }
    }
  }

  /** `o[k] = v`: an existing property keeps its place, a new one is inserted in
      own-key order. */
  function Put(ps: Props, k: string, v: Value): (r: Props)
    requires DistinctKeys(ps)
    ensures DistinctKeys(r)
    ensures Has(r, k) && Get(r, k) == v
    ensures forall k' :: k' != k ==> Get(r, k') == Get(ps, k') && (Has(r, k') <==> Has(ps, k'))
    ensures Has(ps, k) ==> Keys(r) == Keys(ps)
    ensures !Has(ps, k) && !IsIndexKey(k) ==> r == ps + [(k, v)]
    ensures |r| == if Has(ps, k) then |ps| else |ps| + 1
    ensures OwnKeyOrder(ps) ==> OwnKeyOrder(r)
  {
    var i := Find(ps, k);
    if i >= 0 then
      PutExisting(ps, k, v, i);
      ps[i := (k, v)]
    else
      var p := InsertionPoint(ps, k);
      PutNew(ps, k, v, p);
      ps[..p] + [(k, v)] + ps[p..]
  }

  /** Overwriting an existing key keeps the keys and their order. */
  lemma {:induction false} PutExisting(ps: Props, k: string, v: Value, i: int)
    requires DistinctKeys(ps) && i == Find(ps, k) && i >= 0
    ensures var r := ps[i := (k, v)];
      && DistinctKeys(r) && Has(r, k) && Get(r, k) == v && Has(ps, k)
      && (forall k' :: k' != k ==> Get(r, k') == Get(ps, k') && (Has(r, k') <==> Has(ps, k')))
      && Keys(r) == Keys(ps) && |r| == |ps| && (OwnKeyOrder(ps) ==> OwnKeyOrder(r))
  {
    var r := ps[i := (k, v)];
    assert Keys(r) == Keys(ps);
    forall k' | k' != k
      ensures Get(r, k') == Get(ps, k') && (Has(r, k') <==> Has(ps, k'))
    {
      FindSameKeys(r, ps, k');
    }
  }

  /** A new key goes in at its insertion point, which is the end unless it is an index. */
  lemma {:induction false} PutNew(ps: Props, k: string, v: Value, p: nat)
    requires DistinctKeys(ps) && Find(ps, k) < 0 && p == InsertionPoint(ps, k)
    ensures var r := ps[..p] + [(k, v)] + ps[p..];
      && DistinctKeys(r) && Has(r, k) && Get(r, k) == v && !Has(ps, k)
      && (forall k' :: k' != k ==> Get(r, k') == Get(ps, k') && (Has(r, k') <==> Has(ps, k')))
      && (!IsIndexKey(k) ==> r == ps + [(k, v)]) && |r| == |ps| + 1
      && (OwnKeyOrder(ps) ==> OwnKeyOrder(r))
  {
    var r := ps[..p] + [(k, v)] + ps[p..];
    PutNewDistinct(ps, p, k, v);
    assert OwnKeyOrder(ps) ==> OwnKeyOrder(r) by {
      if OwnKeyOrder(ps) { PutNewOrdered(ps, k, v); }
    }
    GetAt(r, p);
    forall k' | k' != k
      ensures Get(r, k') == Get(ps, k') && (Has(r, k') <==> Has(ps, k'))
    {
      PutNewOther(ps, p, k, v, k');
    }
  }

  /** Every property holds a list. */
  predicate ListValued(ps: Props) {
    forall i :: 0 <= i < |ps| ==> ps[i].1.Arr?
  }

  lemma {:induction false} PutListValued(ps: Props, k: string, items: seq<Value>)
    requires DistinctKeys(ps) && ListValued(ps)
    ensures ListValued(Put(ps, k, Arr(items)))
  {
    var r := Put(ps, k, Arr(items));
    forall i | 0 <= i < |r| ensures r[i].1.Arr? {
      GetAt(r, i);
      if r[i].0 != k {
        assert Has(ps, r[i].0);
        var q :| 0 <= q < |ps| && ps[q].0 == r[i].0;
        GetAt(ps, q);
      }
    }
  }

  /** A new key whose insertion point is the end is appended. */
  lemma {:induction false} PutAppends(ps: Props, k: string, v: Value)
    requires DistinctKeys(ps) && !Has(ps, k) && InsertionPoint(ps, k) == |ps|
    ensures Put(ps, k, v) == ps + [(k, v)]
  {
    assert ps[..|ps|] == ps && ps[|ps|..] == [];
  }

  lemma {:induction false} FindSameKeys(a: Props, b: Props, k: string)
    requires Keys(a) == Keys(b)
    ensures Find(a, k) == Find(b, k)
  {
    if |a| > 0 {
      assert Keys(a[1..]) == Keys(b[1..]) by { assert Keys(a[1..]) == Keys(a)[1..]; assert Keys(b[1..]) == Keys(b)[1..]; }
      FindSameKeys(a[1..], b[1..], k);
    }
  }

  lemma {:induction false} PutNewDistinct(ps: Props, p: nat, k: string, v: Value)
    requires DistinctKeys(ps) && !Has(ps, k) && p <= |ps|
    ensures DistinctKeys(ps[..p] + [(k, v)] + ps[p..])
  {
    var r := ps[..p] + [(k, v)] + ps[p..];
    forall a, b | 0 <= a < b < |r|
      ensures r[a].0 != r[b].0
    {
      if a < p && b < p { assert r[a] == ps[a] && r[b] == ps[b]; }
      else if a < p && b == p { assert r[a] == ps[a]; }
      else if a < p { assert r[a] == ps[a] && r[b] == ps[b - 1]; }
      else if a == p { assert r[b] == ps[b - 1]; }
      else { assert r[a] == ps[a - 1] && r[b] == ps[b - 1]; }
    }
  }

  lemma {:induction false} PutNewOther(ps: Props, p: nat, k: string, v: Value, k': string)
    requires DistinctKeys(ps) && !Has(ps, k) && p <= |ps| && k != k'
    ensures var r := ps[..p] + [(k, v)] + ps[p..];
      Get(r, k') == Get(ps, k') && (Has(r, k') <==> Has(ps, k'))
  {
    var r := ps[..p] + [(k, v)] + ps[p..];
    PutNewDistinct(ps, p, k, v);
    var i := Find(ps, k');
    if i >= 0 {
      var j := if i < p then i else i + 1;
      assert r[j] == ps[i];
      GetAt(r, j);
      GetAt(ps, i);
    } else {
      forall q | 0 <= q < |r|
        ensures r[q].0 != k'
      {
        if q < p { assert r[q] == ps[q]; } else if q > p { assert r[q] == ps[q - 1]; }
      }
    }
  }

  /** Object with its properties listed in own-key order, built by successive assignment. */
  function FromPairs(pairs: seq<(string, Value)>): (r: Props)
    ensures OwnKeyOrder(r)
  {
    if |pairs| == 0 then [] else Put(FromPairs(pairs[..|pairs| - 1]), pairs[|pairs| - 1].0, pairs[|pairs| - 1].1)
  }

  lemma {:induction false} HasTail(source: Props, k: string)
    requires |source| > 0
    ensures Has(source, k) <==> source[0].0 == k || Has(source[1..], k)
  {
    if Has(source[1..], k) {
      var i :| 0 <= i < |source[1..]| && source[1..][i].0 == k;
      assert source[i + 1].0 == k;
    }
    if Has(source, k) && source[0].0 != k {
      var i :| 0 <= i < |source| && source[i].0 == k;
      assert source[1..][i - 1].0 == k;
    }
  }

  /** `Object.assign(target, source)`: every own property of `source`, in order,
      assigned onto `target`. */
  function Assign(target: Props, source: Props): (r: Props)
    requires DistinctKeys(target)
    ensures DistinctKeys(r)
    decreases |source|
  {
    if |source| == 0 then target
    else Assign(Put(target, source[0].0, source[0].1), source[1..])
  }

  /** After `Object.assign(target, source)` the object has every key of either, and a key
      `source` lacks keeps the target's value. */
  lemma {:induction false} AssignKeys(target: Props, source: Props)
    requires DistinctKeys(target)
    ensures forall k :: Has(Assign(target, source), k) <==> Has(target, k) || Has(source, k)
    ensures forall k :: !Has(source, k) ==> Get(Assign(target, source), k) == Get(target, k)
    decreases |source|
  {
    if |source| > 0 {
      var t := Put(target, source[0].0, source[0].1);
      AssignKeys(t, source[1..]);
      forall k ensures Has(source, k) <==> source[0].0 == k || Has(source[1..], k) {
        HasTail(source, k);
      }
    }
  }

  /** The value of `Object.assign(target, source)` at a key of `source`: the source's value
      wins. */
  lemma {:induction false} AssignGetSource(target: Props, source: Props, k: string)
    requires DistinctKeys(target) && DistinctKeys(source) && Has(source, k)
    ensures Get(Assign(target, source), k) == Get(source, k)
    decreases |source|
  {
    var t := Put(target, source[0].0, source[0].1);
    HasTail(source, k);
    if source[0].0 == k {
      AssignGetHead(target, source);
    } else {
      TailDistinct(source);
      AssignGetSource(t, source[1..], k);
      var i := Find(source, k);
      assert source[1..][i - 1] == source[i];
      GetAt(source, i);
      GetAt(source[1..], i - 1);
    }
  }

  lemma {:induction false} TailDistinct(source: Props)
    requires DistinctKeys(source) && |source| > 0
    ensures DistinctKeys(source[1..]) && !Has(source[1..], source[0].0)
  {
    forall q | 0 <= q < |source[1..]| ensures source[1..][q].0 != source[0].0 {
      assert source[1..][q] == source[q + 1];
    }
  }

  lemma {:induction false} AssignGetHead(target: Props, source: Props)
    requires DistinctKeys(target) && DistinctKeys(source) && |source| > 0
    ensures Get(Assign(target, source), source[0].0) == source[0].1
  {
    var t := Put(target, source[0].0, source[0].1);
    TailDistinct(source);
    AssignKeys(t, source[1..]);
  }

  // ---------------------------------------------------------------- generic property access

  /** `Object.keys(v)` for the values the source passes to it. */
  function OwnKeys(v: Value): seq<string> {
    match v
    case Obj(_, ps) => Keys(ps)
    case Arr(items) => seq(|items|, i requires 0 <= i < |items| => NatToString(i))
    case Str(s) => seq(|s|, i requires 0 <= i < |s| => NatToString(i))
    case _ => []
  }

  /** `v[k]` on a value that is neither `null` nor `undefined`. */
  function Prop(v: Value, k: string): Value {
    match v
    case Obj(_, ps) => Get(ps, k)
    case Arr(items) => if IsIndexKey(k) && DigitsValue(k) < |items| then items[DigitsValue(k)] else Undefined
    case Str(s) => if IsIndexKey(k) && DigitsValue(k) < |s| then Str([s[DigitsValue(k)]]) else Undefined
    case _ => Undefined
  }

  /** `v[k] = x` on an object. Objects always carry distinct keys; a value that is no such
      object is left as it is. */
  function SetProp(v: Value, k: string, x: Value): (r: Value)
    ensures v.Obj? && DistinctKeys(v.props) ==>
      (r.Obj? && DistinctKeys(r.props) && r.cls == v.cls
       && Prop(r, k) == x && forall k' :: k' != k ==> Prop(r, k') == Prop(v, k'))
    ensures !(v.Obj? && DistinctKeys(v.props)) ==> r == v
  {
    if v.Obj? && DistinctKeys(v.props) then Obj(v.cls, Put(v.props, k, x)) else v
  }

  /** On an object, a property read is a lookup in its own properties. */
  lemma {:induction false} ObjProps(v: Value)
    requires v.Obj?
    ensures forall k :: Prop(v, k) == Get(v.props, k)
  {
  }

  lemma {:induction false} PropObj(v: Value, k: string)
    requires v.Obj?
    ensures Prop(v, k) == Get(v.props, k)
  {
  }

  /** `String(v)` */
  function ToStr(v: Value): string {
    match v
    case Undefined => "undefined"
    case Null => "null"
    case Bool(b) => if b then "true" else "false"
    case Num(n) => IntToString(n)
    case Str(s) => s
    case Arr(items) => JoinValues(items)
    case Obj(_, _) => "[object Object]"
  }

  /** `String(array)`: the elements joined with commas, `null`/`undefined` as empty text. */
  function JoinValues(items: seq<Value>): string
    decreases items
  {
    if |items| == 0 then ""
    else
      var head := if items[0].Undefined? || items[0].Null? then "" else ToStr(items[0]);
      if |items| == 1 then head else head + "," + JoinValues(items[1..])
  }

  // ---------------------------------------------------------------- parseInt

  /** Value of a digit in base 36, or 36 when `c` is no digit at all. */
  function DigitValue(c: char): nat {
    if '0' <= c <= '9' then c as nat - '0' as nat
    else if 'a' <= c <= 'z' then c as nat - 'a' as nat + 10
    else if 'A' <= c <= 'Z' then c as nat - 'A' as nat + 10
    else 36
  }

  /** Length of the longest prefix made of digits of the given radix. */
  function DigitRun(s: string, radix: nat): (n: nat)
    ensures n <= |s|
  {
    if |s| > 0 && DigitValue(s[0]) < radix then 1 + DigitRun(s[1..], radix) else 0
  }

  function RadixValue(s: string, radix: nat): nat {
    if |s| == 0 then 0 else radix * RadixValue(s[..|s| - 1], radix) + (if DigitValue(s[|s| - 1]) < radix then DigitValue(s[|s| - 1]) else 0)
  }

  /** `parseInt(s)` (`hex == false`) and `parseInt(s, 16)` (`hex == true`): leading white
      space, a sign, a `0x` prefix (which switches the default radix to 16), then the longest
      run of digits; NaN when that run is empty. */
  function ParseInt(s: string, hex: bool): Number {
    var t := TrimStart(s);
    if |t| > 0 && t[0] == '-' then
      match ParseUnsigned(t[1..], hex)
      case NaN => NaN
      case Int(m) => Int(-m)
    else if |t| > 0 && t[0] == '+' then ParseUnsigned(t[1..], hex)
    else ParseUnsigned(t, hex)
  }

  /** The unsigned part of `parseInt`: an optional `0x` prefix, then the longest run of
      digits of the radix. */
  function ParseUnsigned(u: string, hex: bool): (r: Number)
    ensures r.Int? ==> r.i >= 0
  {
    var prefixed := |u| >= 2 && u[0] == '0' && (u[1] == 'x' || u[1] == 'X');
    var radix := if hex || prefixed then 16 else 10;
    var w := if prefixed then u[2..] else u;
    var n := DigitRun(w, radix);
    if n == 0 then NaN else Int(RadixValue(w[..n], radix))
  }

  /** `parseInt(v)` on any value: the value is first turned into text. */
  function ParseIntValue(v: Value): Number {
    ParseInt(ToStr(v), false)
  }

  lemma {:induction false} RadixValueDecimal(s: string)
    requires forall i :: 0 <= i < |s| ==> IsDigit(s[i])
    ensures RadixValue(s, 10) == DigitsValue(s)
  {
    if |s| > 0 {
      RadixValueDecimal(s[..|s| - 1]);
    }
  }

  /** `parseInt(String(n)) == n` for every natural number. */
  lemma {:induction false} ParseIntOfNat(n: nat)
    ensures ParseInt(NatToString(n), false) == Int(n)
  {
    var s := NatToString(n);
    ParseIntUnsigned(s, false);
    ParseUnsignedDecimal(s);
    NatToStringValue(n);
  }

  /** Text that starts with neither white space nor a sign is read by `ParseUnsigned`. */
  lemma {:induction false} ParseIntUnsigned(s: string, hex: bool)
    requires |s| > 0 && !IsSpace(s[0]) && s[0] != '-' && s[0] != '+'
    ensures ParseInt(s, hex) == ParseUnsigned(s, hex)
  {
  }

  /** A run of decimal digits with no `0x` prefix reads as its decimal value. */
  lemma {:induction false} ParseUnsignedDecimal(s: string)
    requires |s| > 0 && forall i :: 0 <= i < |s| ==> IsDigit(s[i])
    ensures ParseUnsigned(s, false) == Int(DigitsValue(s))
  {
    assert |s| >= 2 ==> IsDigit(s[1]);
    DigitRunAll(s, 10);
    assert s[..|s|] == s;
    RadixValueDecimal(s);
  }

  lemma {:induction false} DigitRunAll(s: string, radix: nat)
    requires forall i :: 0 <= i < |s| ==> DigitValue(s[i]) < radix
    ensures DigitRun(s, radix) == |s|
  {
    if |s| > 0 {
      DigitRunAll(s[1..], radix);
    }
  }
}
