/** The three value helpers of the VAST layer: `seconds` (clock text to a number of
    seconds), `offset` (a clock text or a percentage of a duration) and `boolean` (attribute
    text to a flag with a default). */
module Units {
  import opened Strs
  import opened Js
  import opened Coerce

  // ---------------------------------------------------------------- seconds

  /** `a + b` on numbers, NaN absorbing. */
  function AddNumbers(a: Number, b: Number): Number {
    match (a, b)
    case (Int(x), Int(y)) => Int(x + y)
    case _ => NaN
  }

  /** `k * a` on numbers, NaN absorbing. */
  function Scale(k: int, a: Number): Number {
    match a
    case Int(x) => Int(k * x)
    case NaN => NaN
  }

  /** The `i`-th part of a split, or what `parseInt` reads for a missing one. */
  function Part(parts: seq<string>, i: nat): string {
    if i < |parts| then parts[i] else "undefined"
  }

  /** `seconds(time).toInteger()`: a number is returned as it is; text is split at `:` into
      hour, minute and second, each read with `parseInt`, so a missing or unreadable part
      makes the whole NaN; anything else has no `split` and throws. */
  function SecondsOf(time: Value): (r: Result<Number>)
    ensures time.Num? ==> r == Ok(Int(time.n))
    ensures time.Str? <==> r.Ok? && !time.Num?
    ensures r.Err? ==> r.error == TypeError
  {
    match time
    case Num(n) => Ok(Int(n))
    case Str(s) => Ok(Clock(Split(s, ":")))
    case _ => Err(TypeError)
  }

  /** Hour, minute and second parts read with `parseInt` and summed. */
  function Clock(parts: seq<string>): Number {
    var second := ParseInt(Part(parts, 2), false);
    var minute := ParseInt(Part(parts, 1), false);
    var hour := ParseInt(Part(parts, 0), false);
    AddNumbers(AddNumbers(second, Scale(60, minute)), Scale(3600, hour))
  }

  /** `seconds(time).toArray()`: the numbers 0 .. n-1 for a count of n seconds; `Array(n)`
      refuses NaN and any count that is no array length. */
  function SecondsArray(time: Value): (r: Result<seq<int>>)
    ensures r.Ok? ==> SecondsOf(time) == Ok(Int(|r.value|))
    ensures r.Ok? ==> forall i :: 0 <= i < |r.value| ==> r.value[i] == i
    ensures SecondsOf(time) == Ok(NaN) ==> r == Err(RangeError)
    ensures (SecondsOf(time).Ok? && SecondsOf(time).value.Int? && 0 <= SecondsOf(time).value.i < 0x1_0000_0000) ==> r.Ok?
    ensures NoVastError(r)
  {
    var n :- SecondsOf(time);
    match n
    case NaN => Err(RangeError)
    case Int(k) =>
      if k < 0 || k >= 0x1_0000_0000 then Err(RangeError)
      else Ok(seq(k, i requires 0 <= i < k => i))
  }

  // ---------------------------------------------------------------- offset

  /** `Math.round(p / 100 * duration)` on exact values: the nearest integer, halves up. */
  function RoundPercent(p: Number, duration: Number): (r: Number)
    ensures r.Int? <==> p.Int? && duration.Int?
    ensures r.Int? ==> 100 * r.i - 50 <= p.i * duration.i < 100 * r.i + 50
  {
    match (p, duration)
    case (Int(a), Int(d)) => Int((a * d + 50) / 100)
    case _ => NaN
  }

  /** `x.includes('%')` for the text or array the offset attribute can hold. */
  function IncludesPercent(x: Value): (r: Result<bool>)
    ensures x.Str? ==> r == Ok(Contains(x.s, "%"))
    ensures !x.Str? && !x.Arr? ==> r == Err(TypeError)
  {
    match x
    case Str(s) => Ok(Contains(s, "%"))
    case Arr(items) => Ok(Str("%") in items)
    case _ => Err(TypeError)
  }

  /** `offset(duration, offset)`: a percentage is taken of the duration in seconds, any
      other offset is read as a clock text. */
  function Offset(duration: Value, offset: Value): (r: Result<Number>)
    ensures r.Ok? ==> SecondsOf(duration).Ok? && IncludesPercent(offset).Ok?
    ensures r.Ok? && !IncludesPercent(offset).value ==> r == SecondsOf(offset)
    ensures r.Ok? && IncludesPercent(offset).value ==>
      r.value == RoundPercent(ParseIntValue(offset), SecondsOf(duration).value)
  {
    var d :- SecondsOf(duration);
    OffsetFrom(d, offset)
  }

  /** The same once the duration is a number of seconds, which `seconds` hands back as it is. */
  function OffsetFrom(d: Number, offset: Value): (r: Result<Number>)
    ensures r.Ok? ==> IncludesPercent(offset).Ok?
    ensures r.Ok? && !IncludesPercent(offset).value ==> r == SecondsOf(offset)
    ensures r.Ok? && IncludesPercent(offset).value ==> r.value == RoundPercent(ParseIntValue(offset), d)
  {
    var percent :- IncludesPercent(offset);
    if !percent then SecondsOf(offset) else Ok(RoundPercent(ParseIntValue(offset), d))
  }

  // ---------------------------------------------------------------- boolean

  /** `boolean(value, default)`: a falsy value yields the default when there is one;
      otherwise the value is true exactly when it loosely equals `'true'` or `true`. */
  function Boolean(value: Value, default: Option<bool>): (r: bool)
    ensures !Truthy(value) && default.Some? ==> r == default.value
    ensures value == Str("true") || value == Bool(true) ==> r
  {
    if !Truthy(value) && default.Some? then default.value
    else LooseEq(value, Str("true")) || LooseEq(value, Bool(true))
  }

  // ---------------------------------------------------------------- properties

  predicate AllDigits(s: string) {
    forall i :: 0 <= i < |s| ==> IsDigit(s[i])
  }

  lemma {:induction false} DigitsNoColon(s: string)
    requires AllDigits(s)
    ensures !Contains(s, ":")
  {
    forall i | 0 <= i <= |s| ensures !OccursAt(s, ":", i) {
      if i + 1 <= |s| {
        assert s[i..i + 1][0] == s[i] && IsDigit(s[i]);
        assert s[i..i + 1][0] != ":"[0];
      }
    }
  }

  /** Text without the separator splits off at the separator that follows it. */
  lemma {:induction false} SplitHead(a: string, rest: string)
    requires !Contains(a, ":")
    ensures Split(a + ":" + rest, ":") == [a] + Split(rest, ":")
  {
    var s := a + ":" + rest;
    assert OccursAt(s, ":", |a|);
    forall i | 0 <= i < |a| ensures !OccursAt(s, ":", i) {
      assert s[i..i + 1] == a[i..i + 1] && !OccursAt(a, ":", i);
    }
    assert IndexOf(s, ":") == |a|;
    assert s[|a| + 1..] == rest;
    assert s[..|a|] == a;
  }

  lemma {:induction false} SplitNone(a: string)
    requires !Contains(a, ":")
    ensures Split(a, ":") == [a]
  {
  }

  /** `parseInt` reads a digit run that ends the text or is followed by a non-digit. */
  lemma {:induction false} ParseIntLeading(d: string, rest: string)
    requires |d| > 0 && AllDigits(d)
    requires |rest| > 0 ==> DigitValue(rest[0]) >= 10 && rest[0] != 'x' && rest[0] != 'X'
    ensures ParseInt(d + rest, false) == Int(DigitsValue(d))
  {
    var s := d + rest;
    assert IsDigit(s[0]);
    ParseIntUnsigned(s, false);
    assert !(|s| >= 2 && s[0] == '0' && (s[1] == 'x' || s[1] == 'X')) by {
      if |d| >= 2 { assert IsDigit(d[1]); }
    }
    DigitRunPrefix(d, rest);
    assert s[..|d|] == d;
    RadixValueDecimal(d);
  }

  lemma {:induction false} DigitRunPrefix(d: string, rest: string)
    requires AllDigits(d)
    requires |rest| > 0 ==> DigitValue(rest[0]) >= 10
    ensures DigitRun(d + rest, 10) == |d|
  {
    if |d| > 0 {
      assert (d + rest)[1..] == d[1..] + rest;
      DigitRunPrefix(d[1..], rest);
    } else {
      assert d + rest == rest;
    }
  }

  /** A clock text `hh:mm:ss` (or `hh:mm:ss.fff`) is worth 3600 h + 60 m + s; the
      fraction is dropped. */
  lemma {:induction false} ClockValue(h: string, m: string, s: string, frac: string)
    requires |h| > 0 && |m| > 0 && |s| > 0 && AllDigits(h) && AllDigits(m) && AllDigits(s)
    requires frac == "" || (frac[0] == '.' && !Contains(frac, ":"))
    ensures var r := SecondsOf(Str(h + ":" + m + ":" + s + frac));
      r.Ok? && r.value.Int? && r.value.i == 3600 * DigitsValue(h) + 60 * DigitsValue(m) + DigitsValue(s)
  {
    var total := 3600 * DigitsValue(h) + 60 * DigitsValue(m) + DigitsValue(s);
    ClockOfDigits(h, m, s, frac);
    ClockText(h, m, s, frac, total);
  }

  lemma {:induction false} ClockOfDigits(h: string, m: string, s: string, frac: string)
    requires |h| > 0 && |m| > 0 && |s| > 0 && AllDigits(h) && AllDigits(m) && AllDigits(s)
    requires frac == "" || frac[0] == '.'
    ensures var c := Clock([h, m, s + frac]);
      c.Int? && c.i == 3600 * DigitsValue(h) + 60 * DigitsValue(m) + DigitsValue(s)
  {
    var x, y, z := DigitsValue(h), DigitsValue(m), DigitsValue(s);
    ParseIntDigits(h);
    ParseIntDigits(m);
    ParseIntLeading(s, frac);
    ClockOfThree(h, m, s + frac, x, y, z);
  }

  lemma {:induction false} ClockText(h: string, m: string, s: string, frac: string, total: int)
    requires AllDigits(h) && AllDigits(m) && AllDigits(s)
    requires frac == "" || (frac[0] == '.' && !Contains(frac, ":"))
    requires Clock([h, m, s + frac]) == Int(total)
    ensures var r := SecondsOf(Str(h + ":" + m + ":" + s + frac)); r.Ok? && r.value == Int(total)
  {
    ClockParts(h, m, s, frac);
  }

  lemma {:induction false} ClockOfThree(a: string, b: string, c: string, x: int, y: int, z: int)
    requires ParseInt(a, false) == Int(x) && ParseInt(b, false) == Int(y) && ParseInt(c, false) == Int(z)
    ensures Clock([a, b, c]) == Int(3600 * x + 60 * y + z)
  {
  }

  lemma {:induction false} ParseIntDigits(d: string)
    requires |d| > 0 && AllDigits(d)
    ensures ParseInt(d, false) == Int(DigitsValue(d))
  {
    ParseIntLeading(d, "");
    assert d + "" == d;
  }

  lemma {:induction false} ClockParts(h: string, m: string, s: string, frac: string)
    requires AllDigits(h) && AllDigits(m) && AllDigits(s)
    requires frac == "" || !Contains(frac, ":")
    ensures Split(h + ":" + m + ":" + s + frac, ":") == [h, m, s + frac]
  {
    var tail := s + frac;
    var mid := m + ":" + tail;
    assert h + ":" + m + ":" + s + frac == h + ":" + mid;
    DigitsNoColon(h);
    DigitsNoColon(m);
    SecondsNoColon(s, frac);
    SplitHead(h, mid);
    SplitHead(m, tail);
    SplitNone(tail);
  }

  lemma {:induction false} SecondsNoColon(s: string, frac: string)
    requires AllDigits(s)
    requires frac == "" || !Contains(frac, ":")
    ensures !Contains(s + frac, ":")
  {
    var t := s + frac;
    forall i | 0 <= i <= |t| ensures !OccursAt(t, ":", i) {
      if i + 1 <= |t| {
        if i < |s| {
          var u := t[i..i + 1];
          assert |u| == 1 && u[0] == s[i] && IsDigit(s[i]);
          assert u[0] != ":"[0];
        } else {
          var j := i - |s|;
          assert j + 1 <= |frac| && !OccursAt(frac, ":", j);
          assert t[i..i + 1] == frac[j..j + 1];
        }
      }
    }
  }

  /** A percentage between 0 and 100 of a non-negative duration lies within it. */
  lemma {:induction false} PercentWithinDuration(p: int, d: int)
    requires 0 <= p <= 100 && 0 <= d
    ensures var r := RoundPercent(Int(p), Int(d)); r.Int? && 0 <= r.i <= d
  {
    var r := RoundPercent(Int(p), Int(d));
    assert 0 <= p * d <= 100 * d;
  }

  /** `offset(duration, "<p>%")` with a whole-number percentage. */
  lemma {:induction false} OffsetOfPercent(duration: Value, p: nat)
    requires duration.Num? || duration.Str?
    ensures Offset(duration, Str(NatToString(p) + "%"))
         == Ok(RoundPercent(Int(p), SecondsOf(duration).value))
  {
    OffsetFromPercent(SecondsOf(duration).value, p);
  }

  /** The same for a duration already in seconds, as a creative's skip offset uses it. */
  lemma {:induction false} OffsetFromPercent(d: Number, p: nat)
    ensures OffsetFrom(d, Str(NatToString(p) + "%")) == Ok(RoundPercent(Int(p), d))
  {
    var t := NatToString(p) + "%";
    assert OccursAt(t, "%", |t| - 1);
    ParseIntLeading(NatToString(p), "%");
    NatToStringValue(p);
  }

  /** A falsy value without a default is a false flag. */
  lemma {:induction false} BooleanFalsyNoDefault(value: Value)
    requires !Truthy(value)
    ensures !Boolean(value, None)
  {
    if value.Str? {
      assert Trim(value.s) == "";
      LooseEqStrings(value.s, "true");
    } else if value.Num? || value.Bool? {
      TrueTextNotANumber();
    }
  }

  /** The text "false" is a false flag even when the default is true. */
  lemma {:induction false} BooleanOfFalse(default: Option<bool>)
    ensures !Boolean(Str("false"), default)
  {
    BooleanOfWord("false", default);
  }

  /** Loose equality makes the text "1" a true flag as well. */
  lemma {:induction false} BooleanOfOne(default: Option<bool>)
    ensures Boolean(Str("1"), default)
  {
    LooseEqTrue(Str("1"));
    StringToNumberOfNat(1);
    assert NatToString(1) == "1";
  }

  /** Any other text that is no number (here: one starting with a lower-case letter other
      than the `t` of "true") is a false flag, whatever the default. */
  lemma {:induction false} BooleanOfWord(s: string, default: Option<bool>)
    requires |s| > 0 && 'a' <= s[0] <= 'z' && s[0] != 't'
    ensures !Boolean(Str(s), default)
  {
    LooseEqTrue(Str(s));
    WordIsNaN(s);
  }

  lemma {:induction false} WordIsNaN(s: string)
    requires |s| > 0 && 'a' <= s[0] <= 'z'
    ensures StringToNumber(s) == NotANumber
  {
    assert !IsSpace(s[0]);
    var t := Trim(s);
    TrimEndSpec(s);
    assert TrimStart(s) == s;
    assert |t| > 0 && t[0] == s[0];
    assert t != "Infinity" by { assert t[0] != "Infinity"[0]; }
    assert DigitRun(t, 10) == 0;
  }
}
