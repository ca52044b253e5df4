/** `JSON.parse(JSON.stringify(v))` gives back the plain shape of `v`: the property the
    cache relies on when it stores a Vast as text and rebuilds it later. */
module JsonRoundTrip {
  import opened Strs
  import opened Js
  import opened JsonText

  /** What may follow a value inside serialized text. */
  predicate Delimited(rest: string) {
    |rest| == 0 || rest[0] == ',' || rest[0] == ']' || rest[0] == '}'
  }

  function Cons(c: char, r: Result<(string, string)>): Result<(string, string)> {
    if r.Ok? then Ok(([c] + r.value.0, r.value.1)) else r
  }

  lemma {:induction false} HexValue4(a: char, b: char, c: char, d: char)
    ensures HexValue([a, b, c, d]) ==
      ((DigitValue(a) * 16 + DigitValue(b)) * 16 + DigitValue(c)) * 16 + DigitValue(d)
  {
    assert HexValue([a]) == DigitValue(a) by { assert [a][..0] == []; }
    assert HexValue([a, b]) == 16 * HexValue([a]) + DigitValue(b) by { assert [a, b][..1] == [a]; }
    assert HexValue([a, b, c]) == 16 * HexValue([a, b]) + DigitValue(c) by { assert [a, b, c][..2] == [a, b]; }
    assert HexValue([a, b, c, d]) == 16 * HexValue([a, b, c]) + DigitValue(d) by { assert [a, b, c, d][..3] == [a, b, c]; }
  }

  /** Four hexadecimal digits read back as their value. */
  lemma {:induction false} Hex4Value(n: nat)
    requires n < 0x1_0000
    ensures AllHex(Hex4(n)) && HexValue(Hex4(n)) == n
  {
    var h := Hex4(n);
    HexValue4(h[0], h[1], h[2], h[3]);
    assert h == [h[0], h[1], h[2], h[3]];
    var q1 := n / 16;
    var q2 := q1 / 16;
    assert n == q1 * 16 + n % 16;
    assert q1 == q2 * 16 + q1 % 16;
    assert q2 == q2 / 16 * 16 + q2 % 16;
  }

  /** The escapes of both UTF-16 halves of a character beyond U+FFFF read back as that one
      character. */
  lemma {:induction false} PairRoundTrip(c: char, more: string)
    requires c as int >= 0x1_0000
    ensures NextChar(PairEscape(c) + more) == Ok((c, 12))
  {
    PairHalves(c);
    PairRead(HighHalf(c), LowHalf(c), more);
  }

  /** The two halves of a character beyond U+FFFF combine back into it. */
  lemma {:induction false} PairHalves(c: char)
    requires c as int >= 0x1_0000
    ensures 0x1_0000 + (HighHalf(c) - 0xD800) * 0x400 + (LowHalf(c) - 0xDC00) == c as int
  {
    var v := c as int - 0x1_0000;
    assert v == v / 0x400 * 0x400 + v % 0x400;
  }

  /** An escaped high half followed by an escaped low half reads as one character. */
  lemma {:induction false} PairRead(high: nat, low: nat, more: string)
    requires 0xD800 <= high < 0xDC00 && 0xDC00 <= low < 0xE000
    ensures NextChar("\\u" + Hex4(high) + "\\u" + Hex4(low) + more) ==
      Ok(((0x1_0000 + (high - 0xD800) * 0x400 + (low - 0xDC00)) as char, 12))
  {
    Hex4Value(high);
    Hex4Value(low);
    var t := "\\u" + Hex4(low) + more;
    var s := "\\u" + Hex4(high) + t;
    assert "\\u" + Hex4(high) + "\\u" + Hex4(low) + more == s;
    assert s[2..6] == Hex4(high) && s[6..] == t;
    assert t[2..6] == Hex4(low);
  }

  /** `"\ud83d\ude00"` is the one character U+1F600. */
  lemma {:induction false} PairExample()
    ensures NextChar("\\ud83d\\ude00\"") == Ok(('\U{1F600}', 12))
  {
    Hex4Example();
    PairRead(0xD83D, 0xDE00, "\"");
    assert "\\u" + Hex4(0xD83D) + "\\u" + Hex4(0xDE00) + "\"" == "\\ud83d\\ude00\"";
  }

  lemma {:induction false} Hex4Example()
    ensures Hex4(0xD83D) == "d83d" && Hex4(0xDE00) == "de00"
  {
    Hex4Digits(0xD83D, 13, 8, 3, 13);
    Hex4Digits(0xDE00, 13, 14, 0, 0);
    assert [HexDigit(13), HexDigit(8), HexDigit(3), HexDigit(13)] == "d83d";
    assert [HexDigit(13), HexDigit(14), HexDigit(0), HexDigit(0)] == "de00";
  }

  lemma {:induction false} Hex4Digits(n: nat, a: nat, b: nat, c: nat, d: nat)
    requires a < 16 && b < 16 && c < 16 && d < 16 && n == ((a * 16 + b) * 16 + c) * 16 + d
    ensures Hex4(n) == [HexDigit(a), HexDigit(b), HexDigit(c), HexDigit(d)]
  {
    assert n / 16 == (a * 16 + b) * 16 + c && n % 16 == d;
    assert n / 16 / 16 == a * 16 + b;
  }

  /** An escaped low half, and an escaped high half that no escape follows, are refused. */
  lemma {:induction false} LoneHalfRefused(half: nat, more: string)
    requires 0xD800 <= half < 0xE000
    requires half < 0xDC00 ==> |more| < 2 || more[0] != '\\' || more[1] != 'u'
    ensures NextChar("\\u" + Hex4(half) + more).Err?
  {
    Hex4Value(half);
    var s := "\\u" + Hex4(half) + more;
    assert s[2..6] == Hex4(half);
    assert s[6..] == more;
  }

  /** Reading one escaped character yields that character. */
  lemma {:induction false} EscapeStep(c: char, more: string)
    ensures NextChar(EscapeChar(c) + more) == Ok((c, |EscapeChar(c)|))
  {
    if c == '"' || c == '\\' || c == '\U{0008}' || c == '\U{000C}' || c == '\n' || c == '\r' || c == '\t' {
      EscapeStepShort(c, more);
    } else if c < ' ' {
      EscapeStepUnicode(c, more);
    } else {
      var s := EscapeChar(c) + more;
      assert EscapeChar(c) == [c];
      assert s[0] == c;
    }
  }

  lemma {:induction false} EscapeStepShort(c: char, more: string)
    requires c == '"' || c == '\\' || c == '\U{0008}' || c == '\U{000C}' || c == '\n' || c == '\r' || c == '\t'
    ensures NextChar(EscapeChar(c) + more) == Ok((c, |EscapeChar(c)|))
  {
    var e := EscapeChar(c);
    var s := e + more;
    assert |e| == 2 && e[0] == '\\';
    assert SimpleEscape(e[1]) == Ok(c);
    assert s[0] == '\\' && s[1] == e[1];
  }

  lemma {:induction false} EscapeStepUnicode(c: char, more: string)
    requires c < ' ' && c != '\U{0008}' && c != '\U{000C}' && c != '\n' && c != '\r' && c != '\t'
    ensures NextChar(EscapeChar(c) + more) == Ok((c, |EscapeChar(c)|))
  {
    var h := HexDigit(c as int / 16);
    var l := HexDigit(c as int % 16);
    var e := EscapeChar(c);
    assert e == ['\\', 'u', '0', '0', h, l];
    var s := e + more;
    assert s[0] == '\\' && s[1] == 'u';
    assert s[2..6] == ['0', '0', h, l];
    HexValue4('0', '0', h, l);
    assert HexValue(s[2..6]) == c as int;
  }

  lemma {:induction false} StringBodyStep(s: string, c: char, n: nat, tail: (string, string))
    requires |s| > 0 && s[0] != '"' && NextChar(s) == Ok((c, n))
    requires ParseStringBody(s[n..]) == Ok(tail)
    ensures ParseStringBody(s) == Ok(([c] + tail.0, tail.1))
  {
  }

  lemma {:induction false} EscapeRoundTrip(str: string, rest: string)
    ensures ParseStringBody(Escape(str) + "\"" + rest) == Ok((str, rest))
  {
    if |str| == 0 {
      assert Escape(str) + "\"" + rest == "\"" + rest;
    } else {
      var e := EscapeChar(str[0]);
      var more := Escape(str[1..]) + "\"" + rest;
      var s := e + more;
      assert Escape(str) + "\"" + rest == s;
      EscapeStep(str[0], more);
      assert s[0] != '"';
      assert s[|e|..] == more;
      EscapeRoundTrip(str[1..], rest);
      StringBodyStep(s, str[0], |e|, (str[1..], rest));
      assert [str[0]] + str[1..] == str;
    }
  }

  lemma {:induction false} DecimalRunPrefix(a: string, b: string)
    requires forall i :: 0 <= i < |a| ==> IsDigit(a[i])
    requires |b| == 0 || !IsDigit(b[0])
    ensures DecimalRun(a + b) == |a|
    decreases |a|
  {
    if |a| > 0 {
      assert (a + b)[1..] == a[1..] + b;
      DecimalRunPrefix(a[1..], b);
    }
  }

  lemma {:induction false} MagnitudeRoundTrip(m: nat, rest: string)
    requires Delimited(rest)
    ensures ParseMagnitude(NatToString(m) + rest) == Ok((m, rest))
  {
    var digits := NatToString(m);
    var u := digits + rest;
    NatToStringValue(m);
    assert u[0] == digits[0];
    if u[0] == '0' {
      assert |digits| == 1;
      assert u[..1] == digits && u[1..] == rest;
    } else {
      DecimalRunPrefix(digits, rest);
      assert u[..|digits|] == digits && u[|digits|..] == rest;
    }
  }

  lemma {:induction false} NegativeStep(s: string, m: nat, rest: string)
    requires |s| > 0 && s[0] == '-' && ParseMagnitude(s[1..]) == Ok((m, rest))
    ensures ParseNumber(s) == Ok((Num(-(m as int)), rest))
  {
  }

  lemma {:induction false} NonNegativeStep(s: string, m: nat, rest: string)
    requires |s| > 0 && s[0] != '-' && ParseMagnitude(s) == Ok((m, rest))
    ensures ParseNumber(s) == Ok((Num(m), rest))
  {
  }

  lemma {:induction false} NumberRoundTrip(n: int, rest: string)
    requires Delimited(rest)
    ensures ParseNumber(IntToString(n) + rest) == Ok((Num(n), rest))
  {
    if n < 0 {
      var m: nat := -n;
      assert IntToString(n) + rest == "-" + NatToString(m) + rest by {
        assert IntToString(n) == "-" + NatToString(m);
      }
      NegativeRoundTrip(m, rest);
      assert -(m as int) == n;
    } else {
      assert IntToString(n) == NatToString(n);
      NonNegativeRoundTrip(n, rest);
    }
  }

  lemma {:induction false} NegativeRoundTrip(m: nat, rest: string)
    requires m > 0 && Delimited(rest)
    ensures ParseNumber("-" + NatToString(m) + rest) == Ok((Num(-(m as int)), rest))
  {
    var u := NatToString(m) + rest;
    var s := "-" + NatToString(m) + rest;
    assert s == "-" + u;
    assert s[0] == '-' && s[1..] == u;
    MagnitudeRoundTrip(m, rest);
    NegativeStep(s, m, rest);
  }

  lemma {:induction false} NonNegativeRoundTrip(m: nat, rest: string)
    requires Delimited(rest)
    ensures ParseNumber(NatToString(m) + rest) == Ok((Num(m), rest))
  {
    var s := NatToString(m) + rest;
    assert s[0] == NatToString(m)[0];
    MagnitudeRoundTrip(m, rest);
    NonNegativeStep(s, m, rest);
  }

  lemma {:induction false} SerializeStart(v: Value)
    ensures var s := Serialize(v);
      |s| > 0 && !IsJsonSpace(s[0]) && s[0] != ']' && s[0] != '}' && s[0] != ','
  {
    match v
    case Num(n) =>
      if n >= 0 { assert Serialize(v)[0] == NatToString(n)[0]; }
    case Str(str) =>
      assert Serialize(v)[0] == '"';
    case Arr(_) =>
    case Obj(_, _) =>
    case _ =>
  }

  lemma {:induction false} MembersEmpty(ps: Props)
    ensures SerializeMembers(ps) == "" <==> PlainProps(ps) == []
    decreases ps
  {
    if |ps| > 0 {
      MembersEmpty(ps[1..]);
    }
  }

  /** Every member left after erasure is a member of the original. */
  lemma {:induction false} PlainPropsFrom(ps: Props)
    ensures forall i :: 0 <= i < |PlainProps(ps)| ==> Has(ps, PlainProps(ps)[i].0)
    decreases ps
  {
    if |ps| > 0 {
      PlainPropsFrom(ps[1..]);
      var tail := PlainProps(ps[1..]);
      var r := PlainProps(ps);
      forall i | 0 <= i < |r| ensures Has(ps, r[i].0) {
        HasTail(ps, r[i].0);
        if !ps[0].1.Undefined? && i > 0 { assert r[i] == tail[i - 1]; }
      }
    }
  }

  lemma {:induction false} TailOrdered(ps: Props)
    requires OwnKeyOrder(ps) && |ps| > 0
    ensures OwnKeyOrder(ps[1..])
  {
    forall i, j | 0 <= i < j < |ps[1..]| ensures ps[1..][i].0 != ps[1..][j].0 {
      assert ps[1..][i] == ps[i + 1] && ps[1..][j] == ps[j + 1];
    }
    forall i, j | 0 <= i < j < |ps[1..]| && IsIndexKey(ps[1..][j].0)
      ensures IsIndexKey(ps[1..][i].0) && DigitsValue(ps[1..][i].0) < DigitsValue(ps[1..][j].0)
    {
      assert ps[1..][i] == ps[i + 1] && ps[1..][j] == ps[j + 1];
    }
  }

  lemma {:induction false} PlainPropsOrdered(ps: Props)
    requires OwnKeyOrder(ps)
    ensures OwnKeyOrder(PlainProps(ps))
    decreases ps
  {
    if |ps| > 0 {
      TailOrdered(ps);
      PlainPropsOrdered(ps[1..]);
      if !ps[0].1.Undefined? {
        var tail := PlainProps(ps[1..]);
        var r := PlainProps(ps);
        PlainPropsFrom(ps[1..]);
        assert r == [(ps[0].0, Plain(ps[0].1))] + tail;
        forall i, j | 0 <= i < j < |r|
          ensures r[i].0 != r[j].0
          ensures IsIndexKey(r[j].0) ==> IsIndexKey(r[i].0) && DigitsValue(r[i].0) < DigitsValue(r[j].0)
        {
          assert r[j] == tail[j - 1];
          if i == 0 {
            assert Has(ps[1..], tail[j - 1].0);
            var q :| 0 <= q < |ps[1..]| && ps[1..][q].0 == tail[j - 1].0;
            assert ps[1..][q] == ps[q + 1];
          } else {
            assert r[i] == tail[i - 1];
          }
        }
      }
    }
  }

  lemma {:induction false} InsertionPointEnd(ps: Props, k: string)
    requires IsIndexKey(k)
    requires forall i :: 0 <= i < |ps| ==> IsIndexKey(ps[i].0) && DigitsValue(ps[i].0) < DigitsValue(k)
    ensures InsertionPoint(ps, k) == |ps|
  {
    if |ps| > 0 {
      InsertionPointEnd(ps[1..], k);
    }
  }

  lemma {:induction false} PutNewAt(ps: Props, k: string, v: Value)
    requires DistinctKeys(ps) && !Has(ps, k)
    ensures var p := InsertionPoint(ps, k); Put(ps, k, v) == ps[..p] + [(k, v)] + ps[p..]
  {
  }

  lemma {:induction false} InitOrdered(ps: Props)
    requires OwnKeyOrder(ps) && |ps| > 0
    ensures OwnKeyOrder(ps[..|ps| - 1]) && !Has(ps[..|ps| - 1], ps[|ps| - 1].0)
    ensures IsIndexKey(ps[|ps| - 1].0) ==> forall i :: 0 <= i < |ps| - 1 ==>
      IsIndexKey(ps[i].0) && DigitsValue(ps[i].0) < DigitsValue(ps[|ps| - 1].0)
  {
    var init := ps[..|ps| - 1];
    forall i, j | 0 <= i < j < |init| ensures init[i].0 != init[j].0 {
      assert init[i] == ps[i] && init[j] == ps[j];
    }
    forall i, j | 0 <= i < j < |init| && IsIndexKey(init[j].0)
      ensures IsIndexKey(init[i].0) && DigitsValue(init[i].0) < DigitsValue(init[j].0)
    {
      assert init[i] == ps[i] && init[j] == ps[j];
    }
    forall q | 0 <= q < |init| ensures init[q].0 != ps[|ps| - 1].0 { assert init[q] == ps[q]; }
  }

  lemma {:induction false} AppendOrdered(init: Props, last: (string, Value))
    requires OwnKeyOrder(init) && !Has(init, last.0)
    requires IsIndexKey(last.0) ==> forall i :: 0 <= i < |init| ==>
      IsIndexKey(init[i].0) && DigitsValue(init[i].0) < DigitsValue(last.0)
    ensures Put(init, last.0, last.1) == init + [last]
  {
    PutNewAt(init, last.0, last.1);
    if IsIndexKey(last.0) {
      InsertionPointEnd(init, last.0);
    }
    assert init[..|init|] == init && init[|init|..] == [];
  }

  /** Re-assigning the members of an object in own-key order rebuilds it exactly. */
  lemma {:induction false} FromOrderedPairs(ps: Props)
    requires OwnKeyOrder(ps)
    ensures FromPairs(ps) == ps
  {
    if |ps| > 0 {
      var init := ps[..|ps| - 1];
      var last := ps[|ps| - 1];
      InitOrdered(ps);
      FromOrderedPairs(init);
      assert FromPairs(ps) == Put(init, last.0, last.1);
      AppendOrdered(init, last);
      assert init + [last] == ps;
    }
  }

  lemma {:induction false} ParseValueObject(s: string)
    requires |s| > 0 && s[0] == '{'
    ensures ParseValue(s) == ParseObject(s[1..])
  {
  }

  lemma {:induction false} ParseValueArray(s: string)
    requires |s| > 0 && s[0] == '['
    ensures ParseValue(s) == ParseArray(s[1..])
  {
  }

  lemma {:induction false} ParseValueScalar(s: string)
    requires |s| > 0 && !IsJsonSpace(s[0]) && s[0] != '{' && s[0] != '['
    ensures ParseValue(s) == ParseScalar(s)
  {
  }

  lemma {:induction false} ValueRoundTrip(v: Value, rest: string)
    requires WellOrdered(v) && Delimited(rest)
    ensures ParseValue(Serialize(v) + rest) == Ok((Plain(v), rest))
    decreases v, 3
  {
    match v
    case Arr(items) => ArrayRoundTrip(items, rest);
    case Obj(c, ps) => ObjectRoundTrip(c, ps, rest);
    case Str(str) => StringRoundTrip(str, rest);
    case Num(n) => NumberValueRoundTrip(n, rest);
    case _ => LiteralRoundTrip(v, rest);
  }

  lemma {:induction false} LiteralRoundTrip(v: Value, rest: string)
    requires v.Undefined? || v.Null? || v.Bool?
    ensures ParseValue(Serialize(v) + rest) == Ok((Plain(v), rest))
  {
    var s := Serialize(v) + rest;
    var w := Serialize(v);
    ParseValueScalar(s);
    if v.Bool? && !v.b {
      assert s[0] == 'f' && s[..5] == "false" && s[5..] == rest;
    } else {
      assert |w| == 4 && s[..4] == w && s[4..] == rest;
    }
  }

  lemma {:induction false} StringRoundTrip(str: string, rest: string)
    ensures ParseValue(Serialize(Str(str)) + rest) == Ok((Str(str), rest))
  {
    var s := Serialize(Str(str)) + rest;
    assert s == "\"" + (Escape(str) + "\"" + rest);
    ParseValueScalar(s);
    assert s[1..] == Escape(str) + "\"" + rest;
    EscapeRoundTrip(str, rest);
  }

  lemma {:induction false} NumberValueRoundTrip(n: int, rest: string)
    requires Delimited(rest)
    ensures ParseValue(Serialize(Num(n)) + rest) == Ok((Num(n), rest))
  {
    var s := IntToString(n) + rest;
    assert Serialize(Num(n)) + rest == s;
    assert s[0] == '-' || IsDigit(s[0]) by {
      if n >= 0 { assert s[0] == NatToString(n)[0]; }
    }
    ParseValueScalar(s);
    ScalarNumber(s);
    NumberRoundTrip(n, rest);
  }

  lemma {:induction false} ScalarNumber(s: string)
    requires |s| > 0 && (s[0] == '-' || IsDigit(s[0]))
    ensures ParseScalar(s) == ParseNumber(s)
  {
  }

  lemma {:induction false} ArrayText(items: seq<Value>, rest: string)
    ensures ParseValue(Serialize(Arr(items)) + rest) == ParseArray(SerializeItems(items) + "]" + rest)
  {
    var body := SerializeItems(items) + "]" + rest;
    var s := "[" + body;
    assert Serialize(Arr(items)) + rest == s;
    ParseValueArray(s);
    assert s[1..] == body;
  }

  lemma {:induction false} ArrayEmpty(rest: string)
    ensures ParseArray(SerializeItems([]) + "]" + rest) == Ok((Arr([]), rest))
  {
    assert SerializeItems([]) + "]" + rest == "]" + rest;
    assert ("]" + rest)[1..] == rest;
  }

  lemma {:induction false} ArrayBody(items: seq<Value>, rest: string)
    requires |items| > 0
    requires ParseItems(SerializeItems(items) + "]" + rest) == Ok((PlainItems(items), rest))
    ensures ParseArray(SerializeItems(items) + "]" + rest) == Ok((Arr(PlainItems(items)), rest))
  {
    var body := SerializeItems(items) + "]" + rest;
    ItemsStart(items);
    assert SkipSpace(body) == body;
  }

  lemma {:induction false} ArrayRoundTrip(items: seq<Value>, rest: string)
    requires ItemsWellOrdered(items) && Delimited(rest)
    ensures ParseValue(Serialize(Arr(items)) + rest) == Ok((Plain(Arr(items)), rest))
    decreases items, 2
  {
    ArrayText(items, rest);
    if |items| == 0 {
      ArrayEmpty(rest);
    } else {
      ItemsRoundTrip(items, rest);
      ArrayBody(items, rest);
    }
  }

  lemma {:induction false} ObjectText(c: Cls, ps: Props, rest: string)
    ensures ParseValue(Serialize(Obj(c, ps)) + rest) == ParseObject(SerializeMembers(ps) + "}" + rest)
  {
    var body := SerializeMembers(ps) + "}" + rest;
    var s := "{" + body;
    assert Serialize(Obj(c, ps)) + rest == s;
    ParseValueObject(s);
    assert s[1..] == body;
  }

  lemma {:induction false} ObjectEmpty(ps: Props, rest: string)
    requires SerializeMembers(ps) == ""
    ensures ParseObject(SerializeMembers(ps) + "}" + rest) == Ok((Obj(PlainObject, []), rest))
  {
    assert SerializeMembers(ps) + "}" + rest == "}" + rest;
    assert ("}" + rest)[1..] == rest;
  }

  lemma {:induction false} ObjectBody(ps: Props, rest: string)
    requires SerializeMembers(ps) != ""
    requires ParseMembers(SerializeMembers(ps) + "}" + rest) == Ok((PlainProps(ps), rest))
    ensures ParseObject(SerializeMembers(ps) + "}" + rest) == Ok((Obj(PlainObject, FromPairs(PlainProps(ps))), rest))
  {
    var body := SerializeMembers(ps) + "}" + rest;
    MembersStart(ps);
    assert SkipSpace(body) == body;
  }

  lemma {:induction false} ObjectRoundTrip(c: Cls, ps: Props, rest: string)
    requires OwnKeyOrder(ps) && PropsWellOrdered(ps) && Delimited(rest)
    ensures ParseValue(Serialize(Obj(c, ps)) + rest) == Ok((Plain(Obj(c, ps)), rest))
    decreases ps, 3
  {
    ObjectText(c, ps, rest);
    MembersEmpty(ps);
    if SerializeMembers(ps) == "" {
      ObjectEmpty(ps, rest);
    } else {
      NonEmptyObjectRoundTrip(c, ps, rest);
    }
  }

  lemma {:induction false} NonEmptyObjectRoundTrip(c: Cls, ps: Props, rest: string)
    requires SerializeMembers(ps) != ""
    requires OwnKeyOrder(ps) && PropsWellOrdered(ps) && Delimited(rest)
    ensures ParseObject(SerializeMembers(ps) + "}" + rest) == Ok((Plain(Obj(c, ps)), rest))
    decreases ps, 2
  {
    MembersRoundTrip(ps, rest);
    ObjectBody(ps, rest);
    PlainObjectOrdered(c, ps);
  }

  /** Rebuilding the members of an erased object in own-key order changes nothing. */
  lemma {:induction false} PlainObjectOrdered(c: Cls, ps: Props)
    requires OwnKeyOrder(ps)
    ensures Obj(PlainObject, FromPairs(PlainProps(ps))) == Plain(Obj(c, ps))
  {
    PlainPropsOrdered(ps);
    FromOrderedPairs(PlainProps(ps));
  }

  lemma {:induction false} ItemsStart(items: seq<Value>)
    requires |items| > 0
    ensures var s := SerializeItems(items);
      |s| > 0 && !IsJsonSpace(s[0]) && s[0] != ']'
  {
    SerializeStart(items[0]);
    if |items| > 1 {
      assert SerializeItems(items)[0] == Serialize(items[0])[0];
    }
  }

  lemma {:induction false} MembersStart(ps: Props)
    requires SerializeMembers(ps) != ""
    ensures var s := SerializeMembers(ps); s[0] == '"'
    decreases ps
  {
    if ps[0].1.Undefined? {
      MembersStart(ps[1..]);
    }
  }

  function ConsItem(x: Value, r: Result<(seq<Value>, string)>): Result<(seq<Value>, string)> {
    if r.Ok? then Ok(([x] + r.value.0, r.value.1)) else r
  }

  /** Reading the last element and the closing bracket. */
  lemma {:induction false} ItemLast(x: Value, s: string, after: string)
    requires ParseValue(s) == Ok((x, after))
    requires |after| > 0 && after[0] == ']'
    ensures ParseItems(s) == Ok(([x], after[1..]))
  {
    assert SkipSpace(after) == after;
  }

  /** Reading an element followed by a comma. */
  lemma {:induction false} ItemNext(x: Value, s: string, after: string)
    requires ParseValue(s) == Ok((x, after))
    requires |after| > 0 && after[0] == ','
    ensures ParseItems(s) == ConsItem(x, ParseItems(after[1..]))
  {
    assert SkipSpace(after) == after;
  }

  lemma {:induction false} ItemsRoundTrip(items: seq<Value>, rest: string)
    requires |items| > 0 && ItemsWellOrdered(items) && Delimited(rest)
    ensures ParseItems(SerializeItems(items) + "]" + rest) == Ok((PlainItems(items), rest))
    decreases items, 1
  {
    if |items| == 1 {
      LastItemRoundTrip(items, rest);
    } else {
      NextItemRoundTrip(items, rest);
    }
  }

  lemma {:induction false} LastItemRoundTrip(items: seq<Value>, rest: string)
    requires |items| == 1 && ItemsWellOrdered(items) && Delimited(rest)
    ensures ParseItems(SerializeItems(items) + "]" + rest) == Ok((PlainItems(items), rest))
    decreases items, 0
  {
    var x := items[0];
    var after := "]" + rest;
    var s := Serialize(x) + after;
    assert SerializeItems(items) + "]" + rest == s;
    ValueRoundTrip(x, after);
    ItemLast(Plain(x), s, after);
    assert after[1..] == rest;
    assert items[1..] == [];
    assert PlainItems(items) == [Plain(x)];
  }

  lemma {:induction false} NextItemRoundTrip(items: seq<Value>, rest: string)
    requires |items| > 1 && ItemsWellOrdered(items) && Delimited(rest)
    ensures ParseItems(SerializeItems(items) + "]" + rest) == Ok((PlainItems(items), rest))
    decreases items, 0
  {
    var x := items[0];
    var more := SerializeItems(items[1..]) + "]" + rest;
    var after := "," + more;
    var s := Serialize(x) + after;
    assert SerializeItems(items) + "]" + rest == s;
    ValueRoundTrip(x, after);
    ItemNext(Plain(x), s, after);
    assert after[1..] == more;
    ItemsRoundTrip(items[1..], rest);
    assert PlainItems(items) == [Plain(x)] + PlainItems(items[1..]);
  }

  lemma {:induction false} KeyStep(s: string, k: string, tail: string)
    requires |s| > 0 && s[0] == '"' && ParseStringBody(s[1..]) == Ok((k, tail))
    requires |tail| > 0 && tail[0] == ':'
    ensures ParseKey(s) == Ok((k, tail[1..]))
  {
    assert SkipSpace(s) == s;
    assert SkipSpace(tail) == tail;
  }

  /** Reading one `"key":value` member. */
  lemma {:induction false} MemberRoundTrip(k: string, x: Value, after: string)
    requires WellOrdered(x) && Delimited(after)
    ensures ParseMember(Quote(k) + ":" + Serialize(x) + after) == Ok(((k, Plain(x)), after))
    decreases x, 4
  {
    var valueText := Serialize(x) + after;
    assert Quote(k) + ":" + Serialize(x) + after == Quote(k) + ":" + valueText;
    KeyRoundTrip(k, valueText);
    ValueRoundTrip(x, after);
  }

  /** Reading a written key and its colon. */
  lemma {:induction false} KeyRoundTrip(k: string, valueText: string)
    ensures ParseKey(Quote(k) + ":" + valueText) == Ok((k, valueText))
  {
    var tail := ":" + valueText;
    var s := "\"" + (Escape(k) + "\"" + tail);
    assert Quote(k) + ":" + valueText == s;
    assert s[1..] == Escape(k) + "\"" + tail;
    EscapeRoundTrip(k, tail);
    assert tail[1..] == valueText;
    KeyStep(s, k, tail);
  }

  function ConsMember(m: (string, Value), r: Result<(seq<(string, Value)>, string)>): Result<(seq<(string, Value)>, string)> {
    if r.Ok? then Ok(([m] + r.value.0, r.value.1)) else r
  }

  /** Reading the last member and the closing brace. */
  lemma {:induction false} MemberLast(m: (string, Value), s: string, after: string)
    requires ParseMember(s) == Ok((m, after))
    requires |after| > 0 && after[0] == '}'
    ensures ParseMembers(s) == Ok(([m], after[1..]))
  {
    assert SkipSpace(after) == after;
  }

  /** Reading a member followed by a comma. */
  lemma {:induction false} MemberNext(m: (string, Value), s: string, after: string)
    requires ParseMember(s) == Ok((m, after))
    requires |after| > 0 && after[0] == ','
    ensures ParseMembers(s) == ConsMember(m, ParseMembers(after[1..]))
  {
    assert SkipSpace(after) == after;
  }

  lemma {:induction false} MembersRoundTrip(ps: Props, rest: string)
    requires SerializeMembers(ps) != "" && PropsWellOrdered(ps) && Delimited(rest)
    ensures ParseMembers(SerializeMembers(ps) + "}" + rest) == Ok((PlainProps(ps), rest))
    decreases ps, 1
  {
    if ps[0].1.Undefined? {
      MembersRoundTrip(ps[1..], rest);
    } else {
      MembersEmpty(ps[1..]);
      if SerializeMembers(ps[1..]) == "" {
        LastMemberRoundTrip(ps, rest);
      } else {
        NextMemberRoundTrip(ps, rest);
      }
    }
  }

  lemma {:induction false} LastMemberRoundTrip(ps: Props, rest: string)
    requires |ps| > 0 && !ps[0].1.Undefined? && SerializeMembers(ps[1..]) == ""
    requires PropsWellOrdered(ps) && Delimited(rest)
    ensures ParseMembers(SerializeMembers(ps) + "}" + rest) == Ok((PlainProps(ps), rest))
    decreases ps, 0
  {
    var k := ps[0].0;
    var x := ps[0].1;
    assert x < ps[0];
    assert WellOrdered(x);
    MembersEmpty(ps[1..]);
    assert PlainProps(ps) == [(k, Plain(x))];
    var after := "}" + rest;
    var s := Quote(k) + ":" + Serialize(x) + after;
    assert SerializeMembers(ps) + "}" + rest == s;
    MemberRoundTrip(k, x, after);
    MemberLast((k, Plain(x)), s, after);
    assert after[1..] == rest;
  }

  lemma {:induction false} NextMemberRoundTrip(ps: Props, rest: string)
    requires |ps| > 0 && !ps[0].1.Undefined? && SerializeMembers(ps[1..]) != ""
    requires PropsWellOrdered(ps) && Delimited(rest)
    ensures ParseMembers(SerializeMembers(ps) + "}" + rest) == Ok((PlainProps(ps), rest))
    decreases ps, 0
  {
    var k := ps[0].0;
    var x := ps[0].1;
    assert x < ps[0];
    assert WellOrdered(x);
    assert PlainProps(ps) == [(k, Plain(x))] + PlainProps(ps[1..]);
    var more := SerializeMembers(ps[1..]) + "}" + rest;
    var after := "," + more;
    var s := Quote(k) + ":" + Serialize(x) + after;
    assert SerializeMembers(ps) + "}" + rest == s;
    MemberRoundTrip(k, x, after);
    MemberNext((k, Plain(x)), s, after);
    assert after[1..] == more;
    MembersRoundTrip(ps[1..], rest);
  }

  /** `JSON.parse(JSON.stringify(v))` for an object or array `v`. */
  lemma {:induction false} ParseSerialize(v: Value)
    requires WellOrdered(v)
    ensures Parse(Serialize(v)) == Ok(Plain(v))
  {
    ValueRoundTrip(v, "");
    assert Serialize(v) + "" == Serialize(v);
  }
}
