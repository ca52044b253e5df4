/** The implicit conversions of the language that the source leans on: `Number(v)` (the
    string-to-number grammar), loose equality `==` and the relational `<=`. Numbers are
    exact rationals here, so what a double would round is left out. */
module Coerce {
  import opened Strs
  import opened Js

  type Positive = n: int | n >= 1 witness 1

  /** A number as `Number(...)` produces it: NaN, an exact finite value `num / den`, or an
      infinity. */
  datatype Numeric = NotANumber | Finite(num: int, den: Positive) | Infinite(positive: bool)

  function Pow10(e: nat): (r: Positive) {
    if e == 0 then 1 else 10 * Pow10(e - 1)
  }

  function Negate(n: Numeric): Numeric {
    match n
    case NotANumber => NotANumber
    case Finite(a, b) => Finite(-a, b)
    case Infinite(p) => Infinite(!p)
  }

  /** `Number(s)` for text: surrounding white space ignored, the empty text is 0, then a
      `0x`/`0o`/`0b` integer, or a signed decimal literal or `Infinity`; anything else NaN. */
  function StringToNumber(s: string): Numeric {
    var t := Trim(s);
    if |t| == 0 then Finite(0, 1) else Literal(t)
  }

  function Literal(t: string): Numeric
    requires |t| > 0
  {
    var radix := if |t| > 2 && t[0] == '0' then Prefix(t[1]) else 10;
    if radix != 10 then NonDecimal(t[2..], radix)
    else if t[0] == '-' then Negate(Unsigned(t[1..]))
    else if t[0] == '+' then Unsigned(t[1..])
    else Unsigned(t)
  }

  /** The radix a `0x`, `0o` or `0b` prefix announces; 10 for any other second letter. */
  function Prefix(c: char): nat {
    if c == 'x' || c == 'X' then 16 else if c == 'o' || c == 'O' then 8 else if c == 'b' || c == 'B' then 2 else 10
  }

  function NonDecimal(d: string, radix: nat): Numeric {
    if |d| > 0 && DigitRun(d, radix) == |d| then Finite(RadixValue(d, radix), 1) else NotANumber
  }

  function Unsigned(u: string): Numeric {
    if u == "Infinity" then Infinite(true) else Decimal(u)
  }

  /** Digits, an optional fraction after `.`, an optional exponent; at least one digit. */
  function Decimal(u: string): Numeric {
    var a := DigitRun(u, 10);
    var whole := u[..a];
    var r1 := u[a..];
    var hasDot := |r1| > 0 && r1[0] == '.';
    var afterDot := if hasDot then r1[1..] else r1;
    var f := if hasDot then DigitRun(afterDot, 10) else 0;
    var frac := afterDot[..f];
    var r2 := afterDot[f..];
    if |whole| + |frac| == 0 then NotANumber
    else
      match Exponent(r2)
      case None => NotANumber
      case Some(e) =>
        var n := RadixValue(whole + frac, 10);
        var k := e - |frac|;
        if k >= 0 then Finite(n * Pow10(k), 1) else Finite(n, Pow10(-k))
  }

  /** The exponent part that must end the literal: nothing (0) or `e`/`E`, a sign, digits. */
  function Exponent(r: string): Option<int> {
    if r == "" then Some(0)
    else if r[0] != 'e' && r[0] != 'E' then None
    else
      var body := r[1..];
      var neg := |body| > 0 && body[0] == '-';
      var digits := if |body| > 0 && (body[0] == '-' || body[0] == '+') then body[1..] else body;
      if |digits| > 0 && DigitRun(digits, 10) == |digits| then
        var m := RadixValue(digits, 10) as int;
        Some(if neg then -m else m)
      else None
  }

  /** `Number(v)` */
  function ToNumber(v: Value): Numeric {
    match v
    case Undefined => NotANumber
    case Null => Finite(0, 1)
    case Bool(b) => Finite(if b then 1 else 0, 1)
    case Num(n) => Finite(n, 1)
    case Str(s) => StringToNumber(s)
    case Arr(_) => StringToNumber(ToStr(v))
    case Obj(_, _) => StringToNumber(ToStr(v))
  }

  /** The numeric `==`: NaN equals nothing. */
  predicate NumEq(a: Numeric, b: Numeric) {
    match (a, b)
    case (Finite(p, q), Finite(r, s)) => p * s == r * q
    case (Infinite(x), Infinite(y)) => x == y
    case _ => false
  }

  /** The numeric `<=`: false whenever NaN takes part. */
  predicate NumLe(a: Numeric, b: Numeric) {
    match (a, b)
    case (NotANumber, _) => false
    case (_, NotANumber) => false
    case (Infinite(x), Infinite(y)) => !x || y
    case (Infinite(x), _) => !x
    case (_, Infinite(y)) => y
    case (Finite(p, q), Finite(r, s)) => p * s <= r * q
  }

  /** A `parseInt` result as a number. */
  function FromNumber(n: Number): Numeric {
    match n
    case NaN => NotANumber
    case Int(i) => Finite(i, 1)
  }

  /** Code-unit order of two texts. */
  predicate StrLe(a: string, b: string)
    decreases |a|
  {
    if |a| == 0 then true
    else if |b| == 0 then false
    else if a[0] != b[0] then a[0] < b[0]
    else StrLe(a[1..], b[1..])
  }

  /** `ToPrimitive(v)`: an array or object becomes its text. */
  function ToPrimitive(v: Value): (r: Value)
    ensures !r.Arr? && !r.Obj?
  {
    if v.Arr? || v.Obj? then Str(ToStr(v)) else v
  }

  /** `a <= b` */
  predicate LessEq(a: Value, b: Value) {
    var x := ToPrimitive(a);
    var y := ToPrimitive(b);
    if x.Str? && y.Str? then StrLe(x.s, y.s) else NumLe(ToNumber(x), ToNumber(y))
  }

  /** The operand a loose comparison of two non-nullish values actually compares: a
      boolean as the number 0 or 1, an array or object as its text. */
  function Norm(v: Value): (r: Value)
    ensures !r.Arr? && !r.Obj? && !r.Bool?
  {
    if v.Bool? then Num(if v.b then 1 else 0) else ToPrimitive(v)
  }

  /** `a == b`. Two arrays or objects are compared by content, since the model has no
      object identity. */
  predicate LooseEq(a: Value, b: Value) {
    if a.Undefined? || a.Null? || b.Undefined? || b.Null? then
      (a.Undefined? || a.Null?) && (b.Undefined? || b.Null?)
    else if (a.Arr? || a.Obj?) && (b.Arr? || b.Obj?) then a == b
    else
      var x := Norm(a);
      var y := Norm(b);
      if x.Str? && y.Str? then x.s == y.s else NumEq(ToNumber(x), ToNumber(y))
  }

  // ---------------------------------------------------------------- properties

  /** Loose equality does not depend on the order of its operands. */
  lemma {:induction false} LooseEqSymmetric(a: Value, b: Value)
    ensures LooseEq(a, b) == LooseEq(b, a)
  {
  }

  /** Two texts are loosely equal exactly when they are equal. */
  lemma {:induction false} LooseEqStrings(a: string, b: string)
    ensures LooseEq(Str(a), Str(b)) == (a == b)
  {
  }

  /** Loose equality with a boolean compares numbers: `true` stands for 1. */
  lemma {:induction false} LooseEqTrue(a: Value)
    requires !a.Undefined? && !a.Null? && !a.Bool?
    ensures LooseEq(a, Bool(true)) == NumEq(ToNumber(Norm(a)), Finite(1, 1))
  {
  }

  /** `Number(String(n)) == n` for every natural number. */
  /** The text "true" is no number. */
  lemma {:induction false} TrueTextNotANumber()
    ensures StringToNumber("true") == NotANumber
  {
    var t := "true";
    assert Trim(t) == t by { TrimNoSpace(t); }
    assert DigitRun(t, 10) == 0 by { assert DigitValue(t[0]) == 29; }
    assert |t| != |"Infinity"|;
  }

  lemma {:induction false} StringToNumberOfNat(n: nat)
    ensures StringToNumber(NatToString(n)) == Finite(n, 1)
  {
    var t := NatToString(n);
    TrimDigits(t);
    TrimmedLiteral(t);
    LiteralOfDigits(t);
    DecimalOfDigits(t);
    NatToStringValue(n);
  }

  lemma {:induction false} TrimmedLiteral(t: string)
    requires |t| > 0 && Trim(t) == t
    ensures StringToNumber(t) == Literal(t)
  {
  }

  lemma {:induction false} LiteralOfDigits(t: string)
    requires |t| > 0 && forall i :: 0 <= i < |t| ==> IsDigit(t[i])
    ensures Literal(t) == Decimal(t)
  {
    assert IsDigit(t[0]);
    assert |t| > 2 ==> IsDigit(t[1]);
    assert Literal(t) == Unsigned(t);
    assert t != "Infinity" by { assert t[0] != "Infinity"[0]; }
  }

  lemma {:induction false} TrimDigits(t: string)
    requires |t| > 0 && forall i :: 0 <= i < |t| ==> IsDigit(t[i])
    ensures Trim(t) == t
  {
    assert IsDigit(t[0]) && IsDigit(t[|t| - 1]);
    TrimNoSpace(t);
  }

  /** A plain run of decimal digits denotes its decimal value. */
  lemma {:induction false} DecimalOfDigits(t: string)
    requires |t| > 0 && forall i :: 0 <= i < |t| ==> IsDigit(t[i])
    ensures Decimal(t) == Finite(DigitsValue(t), 1)
  {
    DigitRunAll(t, 10);
    assert t[..|t|] == t && t[|t|..] == "";
    assert t + "" == t;
    RadixValueDecimal(t);
  }
}
