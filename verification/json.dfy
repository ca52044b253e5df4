/** JSON text as `JSON.stringify` writes it and `JSON.parse` reads it, restricted to the
    values the model has (integral numbers). The round trip `Parse(Serialize(v))` gives back
    `v` with class tags and `undefined` members erased. */
module JsonText {
  import opened Strs
  import opened Js

  /** Lower-case hexadecimal digit. */
  function HexDigit(d: nat): (c: char)
    requires d < 16
    ensures DigitValue(c) == d
  {
    if d < 10 then ('0' as int + d) as char else ('a' as int + d - 10) as char
  }

  /** Four lower-case hexadecimal digits. */
  function Hex4(n: nat): (r: string)
    requires n < 0x1_0000
    ensures |r| == 4
  {
    [HexDigit(n / 16 / 16 / 16), HexDigit(n / 16 / 16 % 16), HexDigit(n / 16 % 16), HexDigit(n % 16)]
  }

  /** The high UTF-16 half of a character beyond U+FFFF. */
  function HighHalf(c: char): (r: nat)
    requires c as int >= 0x1_0000
    ensures 0xD800 <= r < 0xDC00
  {
    0xD800 + (c as int - 0x1_0000) / 0x400
  }

  /** The low UTF-16 half of a character beyond U+FFFF. */
  function LowHalf(c: char): (r: nat)
    requires c as int >= 0x1_0000
    ensures 0xDC00 <= r < 0xE000
  {
    0xDC00 + (c as int - 0x1_0000) % 0x400
  }

  /** A character beyond U+FFFF written as the `\u` escapes of its two UTF-16 halves. */
  function PairEscape(c: char): (r: string)
    requires c as int >= 0x1_0000
  {
    "\\u" + Hex4(HighHalf(c)) + "\\u" + Hex4(LowHalf(c))
  }

  /** How `JSON.stringify` writes one character inside a string literal. */
  function EscapeChar(c: char): (r: string)
    ensures |r| >= 1
  {
    if c == '"' then "\\\""
    else if c == '\\' then "\\\\"
    else if c == '\U{0008}' then "\\b"
    else if c == '\U{000C}' then "\\f"
    else if c == '\n' then "\\n"
    else if c == '\r' then "\\r"
    else if c == '\t' then "\\t"
    else if c < ' ' then "\\u00" + [HexDigit(c as int / 16), HexDigit(c as int % 16)]
    else [c]
  }

  function Escape(s: string): string {
    if |s| == 0 then "" else EscapeChar(s[0]) + Escape(s[1..])
  }

  /** A string literal. */
  function Quote(s: string): string {
    "\"" + Escape(s) + "\""
  }

  /** `JSON.stringify(v)`. Objects are written with their own enumerable properties in
      order, skipping `undefined` members; an `undefined` array element is written as
      `null`. Class tags do not show. */
  function Serialize(v: Value): string
    decreases v, 1
  {
    match v
    case Undefined => "null"
    case Null => "null"
    case Bool(b) => if b then "true" else "false"
    case Num(n) => IntToString(n)
    case Str(s) => Quote(s)
    case Arr(items) => "[" + SerializeItems(items) + "]"
    case Obj(_, ps) => "{" + SerializeMembers(ps) + "}"
  }

  function SerializeItems(items: seq<Value>): string
    decreases items, 0
  {
    if |items| == 0 then ""
    else if |items| == 1 then Serialize(items[0])
    else Serialize(items[0]) + "," + SerializeItems(items[1..])
  }

  function SerializeMembers(ps: Props): string
    decreases ps, 0
  {
    if |ps| == 0 then ""
    else
      var rest := SerializeMembers(ps[1..]);
      if ps[0].1.Undefined? then rest
      else
        assert ps[0].1 < ps[0];
        var member := Quote(ps[0].0) + ":" + Serialize(ps[0].1);
        if rest == "" then member else member + "," + rest
  }

  /** What a serialized value reads back as: classes become plain objects, `undefined`
      members disappear and `undefined` elements become `null`. */
  function Plain(v: Value): (r: Value)
    decreases v, 1
  {
    match v
    case Undefined => Null
    case Arr(items) => Arr(PlainItems(items))
    case Obj(_, ps) => Obj(PlainObject, PlainProps(ps))
    case _ => v
  }

  function PlainItems(items: seq<Value>): (r: seq<Value>)
    ensures |r| == |items|
    decreases items, 0
  {
    if |items| == 0 then [] else [Plain(items[0])] + PlainItems(items[1..])
  }

  function PlainProps(ps: Props): (r: Props)
    decreases ps, 0
  {
    if |ps| == 0 then []
    else if ps[0].1.Undefined? then PlainProps(ps[1..])
    else
      assert ps[0].1 < ps[0];
      [(ps[0].0, Plain(ps[0].1))] + PlainProps(ps[1..])
  }

  /** Every object inside `v` lists its properties in the language's own-key order. */
  predicate WellOrdered(v: Value)
    decreases v, 1
  {
    match v
    case Arr(items) => ItemsWellOrdered(items)
    case Obj(_, ps) => OwnKeyOrder(ps) && PropsWellOrdered(ps)
    case _ => true
  }

  predicate ItemsWellOrdered(items: seq<Value>)
    decreases items, 0
  {
    |items| == 0 || (WellOrdered(items[0]) && ItemsWellOrdered(items[1..]))
  }

  predicate PropsWellOrdered(ps: Props)
    decreases ps, 0
  {
    |ps| == 0 || (assert ps[0].1 < ps[0]; WellOrdered(ps[0].1) && PropsWellOrdered(ps[1..]))
  }

  // ---------------------------------------------------------------- reading

  predicate IsJsonSpace(c: char) {
    c == ' ' || c == '\t' || c == '\n' || c == '\r'
  }

  function SkipSpace(s: string): (r: string)
    ensures |r| <= |s|
    ensures |s| > 0 && !IsJsonSpace(s[0]) ==> r == s
  {
    if |s| > 0 && IsJsonSpace(s[0]) then SkipSpace(s[1..]) else s
  }

  function HexValue(s: string): nat {
    if |s| == 0 then 0 else 16 * HexValue(s[..|s| - 1]) + DigitValue(s[|s| - 1])
  }

  predicate AllHex(s: string) {
    forall i :: 0 <= i < |s| ==> DigitValue(s[i]) < 16
  }

  /** The body of a string literal after its opening quote: the decoded text and what
      follows the closing quote. */
  function ParseStringBody(s: string): (r: Result<(string, string)>)
    ensures r.Ok? ==> |r.value.1| < |s|
    decreases |s|
  {
    if |s| == 0 then Err(SyntaxError)
    else if s[0] == '"' then Ok(("", s[1..]))
    else
      var c :- NextChar(s);
      var tail :- ParseStringBody(s[c.1..]);
      Ok(([c.0] + tail.0, tail.1))
  }

  /** One character of a string literal that is not its closing quote, and how many
      characters of text it took. A raw control character is refused. A `\u` escape of a
      high surrogate half followed by one of a low half is the character the pair encodes;
      any other escaped surrogate half is refused, since a lone half is no character. */
  function NextChar(s: string): (r: Result<(char, nat)>)
    requires |s| > 0
    ensures r.Ok? ==> 1 <= r.value.1 <= |s|
  {
    if s[0] < ' ' then Err(SyntaxError)
    else if s[0] != '\\' then Ok((s[0], 1))
    else if |s| < 2 then Err(SyntaxError)
    else if s[1] == 'u' then
      if |s| < 6 || !AllHex(s[2..6]) then Err(SyntaxError)
      else
        var code := HexValue(s[2..6]);
        if 0xD800 <= code < 0xDC00 then SurrogatePair(code, s[6..])
        else if 0xDC00 <= code < 0xE000 || code >= 0x1_0000 then Err(SyntaxError)
        else Ok((code as char, 6))
    else
      var c :- SimpleEscape(s[1]);
      Ok((c, 2))
  }

  /** The rest of a `\u` escape pair after its high half `high`: the low half must be
      escaped right after it, and the two make one character beyond U+FFFF. */
  function SurrogatePair(high: nat, t: string): (r: Result<(char, nat)>)
    requires 0xD800 <= high < 0xDC00
    ensures r.Ok? ==> r.value.1 == 12 && |t| >= 6
    ensures r.Ok? ==> 0x1_0000 <= r.value.0 as int
  {
    if |t| < 6 || t[0] != '\\' || t[1] != 'u' || !AllHex(t[2..6]) then Err(SyntaxError)
    else
      var low := HexValue(t[2..6]);
      if !(0xDC00 <= low < 0xE000) then Err(SyntaxError)
      else Ok(((0x1_0000 + (high - 0xD800) * 0x400 + (low - 0xDC00)) as char, 12))
  }

  function SimpleEscape(e: char): Result<char> {
    if e == '"' then Ok('"')
    else if e == '\\' then Ok('\\')
    else if e == '/' then Ok('/')
    else if e == 'b' then Ok('\U{0008}')
    else if e == 'f' then Ok('\U{000C}')
    else if e == 'n' then Ok('\n')
    else if e == 'r' then Ok('\r')
    else if e == 't' then Ok('\t')
    else Err(SyntaxError)
  }

  function DecimalRun(s: string): (n: nat)
    ensures n <= |s| && forall i :: 0 <= i < n ==> IsDigit(s[i])
    ensures n < |s| ==> !IsDigit(s[n])
  {
    if |s| > 0 && IsDigit(s[0]) then 1 + DecimalRun(s[1..]) else 0
  }

  /** An integer literal: optional minus, then `0` or a digit run without leading zero.
      A fraction or exponent part is refused (the model has integers only). */
  function ParseNumber(s: string): (r: Result<(Value, string)>)
    ensures r.Ok? ==> |r.value.1| < |s|
  {
    if |s| > 0 && s[0] == '-' then
      var m :- ParseMagnitude(s[1..]);
      var k: int := m.0;
      Ok((Num(-k), m.1))
    else
      var m :- ParseMagnitude(s);
      Ok((Num(m.0), m.1))
  }

  function ParseMagnitude(u: string): (r: Result<(nat, string)>)
    ensures r.Ok? ==> |r.value.1| < |u|
  {
    if |u| == 0 || !IsDigit(u[0]) then Err(SyntaxError)
    else
      var n := if u[0] == '0' then 1 else DecimalRun(u);
      var rest := u[n..];
      if |rest| > 0 && (rest[0] == '.' || rest[0] == 'e' || rest[0] == 'E') then Err(SyntaxError)
      else Ok((DigitsValue(u[..n]), rest))
  }

  /** One value after optional white space, and the text after it. */
  function ParseValue(s: string): (r: Result<(Value, string)>)
    ensures r.Ok? ==> |r.value.1| < |s|
    decreases |s|, 2
  {
    var t := SkipSpace(s);
    if |t| == 0 then Err(SyntaxError)
    else if t[0] == '{' then ParseObject(t[1..])
    else if t[0] == '[' then ParseArray(t[1..])
    else ParseScalar(t)
  }

  /** A string, literal or number starting right at `t`. */
  function ParseScalar(t: string): (r: Result<(Value, string)>)
    ensures r.Ok? ==> |r.value.1| < |t|
  {
    if |t| == 0 then Err(SyntaxError)
    else if t[0] == '"' then
      var m :- ParseStringBody(t[1..]);
      Ok((Str(m.0), m.1))
    else if t[0] == 't' then
      if StartsWith(t, "true") then Ok((Bool(true), t[4..])) else Err(SyntaxError)
    else if t[0] == 'f' then
      if StartsWith(t, "false") then Ok((Bool(false), t[5..])) else Err(SyntaxError)
    else if t[0] == 'n' then
      if StartsWith(t, "null") then Ok((Null, t[4..])) else Err(SyntaxError)
    else ParseNumber(t)
  }

  /** An object after its opening brace. Members are assigned in text order, so a repeated
      key keeps its first place and its last value. */
  function ParseObject(s: string): (r: Result<(Value, string)>)
    ensures r.Ok? ==> |r.value.1| < |s|
    decreases |s|, 4
  {
    var u := SkipSpace(s);
    if |u| > 0 && u[0] == '}' then Ok((Obj(PlainObject, []), u[1..]))
    else
      var m :- ParseMembers(s);
      Ok((Obj(PlainObject, FromPairs(m.0)), m.1))
  }

  /** An array after its opening bracket. */
  function ParseArray(s: string): (r: Result<(Value, string)>)
    ensures r.Ok? ==> |r.value.1| < |s|
    decreases |s|, 4
  {
    var u := SkipSpace(s);
    if |u| > 0 && u[0] == ']' then Ok((Arr([]), u[1..]))
    else
      var m :- ParseItems(s);
      Ok((Arr(m.0), m.1))
  }

  /** Array elements up to and including the closing bracket. */
  function ParseItems(s: string): (r: Result<(seq<Value>, string)>)
    ensures r.Ok? ==> |r.value.1| < |s|
    decreases |s|, 3
  {
    var first :- ParseValue(s);
    var u := SkipSpace(first.1);
    if |u| > 0 && u[0] == ',' then
      var more :- ParseItems(u[1..]);
      Ok(([first.0] + more.0, more.1))
    else if |u| > 0 && u[0] == ']' then Ok(([first.0], u[1..]))
    else Err(SyntaxError)
  }

  /** One `"key": value` member. */
  function ParseMember(s: string): (r: Result<((string, Value), string)>)
    ensures r.Ok? ==> |r.value.1| < |s|
    decreases |s|, 1
  {
    var key :- ParseKey(s);
    var value :- ParseValue(key.1);
    Ok(((key.0, value.0), value.1))
  }

  /** A member's key and the colon after it: the key, and the text after the colon. */
  function ParseKey(s: string): (r: Result<(string, string)>)
    ensures r.Ok? ==> |r.value.1| < |s|
  {
    var t := SkipSpace(s);
    if |t| == 0 || t[0] != '"' then Err(SyntaxError)
    else
      var key :- ParseStringBody(t[1..]);
      var u := SkipSpace(key.1);
      if |u| == 0 || u[0] != ':' then Err(SyntaxError)
      else Ok((key.0, u[1..]))
  }

  /** Object members up to and including the closing brace, in text order. */
  function ParseMembers(s: string): (r: Result<(seq<(string, Value)>, string)>)
    ensures r.Ok? ==> |r.value.1| < |s|
    decreases |s|, 3
  {
    var first :- ParseMember(s);
    var w := SkipSpace(first.1);
    if |w| > 0 && w[0] == ',' then
      var more :- ParseMembers(w[1..]);
      Ok(([first.0] + more.0, more.1))
    else if |w| > 0 && w[0] == '}' then Ok(([first.0], w[1..]))
    else Err(SyntaxError)
  }

  /** `JSON.parse(s)`: one value, surrounded by nothing but white space. */
  function Parse(s: string): Result<Value> {
    var m :- ParseValue(s);
    if SkipSpace(m.1) != "" then Err(SyntaxError) else Ok(m.0)
  }
}
