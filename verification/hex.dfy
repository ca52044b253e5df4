/** The text codec of the packed player: the compressed bytes are written as base16 text
    (section 8 of RFC 4648, lower-case digits, no separators) and read back in the page. */
module Hex {
  import opened Strs
  import opened Js

  // ---------------------------------------------------------------- encoding

  /** The lower-case digit of value `k`. */
  function HexDigit(k: nat): (c: char)
    requires k < 16
    ensures IsHexDigit(c) && !('A' <= c <= 'Z') && DigitValue(c) == k
  {
    if k < 10 then ('0' as int + k) as char else ('a' as int + k - 10) as char
  }

  /** `n.toString(16)` for a whole number: the shortest run of digits, most significant
      first. */
  function HexOf(n: nat): (r: string)
    ensures 1 <= |r|
    decreases n
  {
    if n < 16 then [HexDigit(n)] else HexOf(n / 16) + [HexDigit(n % 16)]
  }

  /** The digits of `n.toString(16)` read back as `n`. */
  lemma {:induction false} HexOfValue(n: nat)
    ensures AllHex(HexOf(n)) && RadixValue(HexOf(n), 16) == n
    decreases n
  {
    if n >= 16 {
      HexOfValue(n / 16);
      var r := HexOf(n);
      assert r[..|r| - 1] == HexOf(n / 16);
    }
  }

  /** `v.toString(16)` for an integer: a minus sign before the digits of a negative one. */
  function IntToHex(v: int): (r: string)
    ensures 1 <= |r|
  {
    if v < 0 then "-" + HexOf(-v) else HexOf(v)
  }

  /** The text of `v.toString(16)` reads back as `v`: its digits, after a minus sign when
      `v` is negative. */
  lemma {:induction false} IntToHexValue(v: int)
    ensures v >= 0 ==> RadixValue(IntToHex(v), 16) == v
    ensures v < 0 ==> IntToHex(v)[0] == '-' && RadixValue(IntToHex(v)[1..], 16) == -v
  {
    if v < 0 {
      HexOfValue(-v);
      assert IntToHex(v)[1..] == HexOf(-v);
    } else {
      HexOfValue(v);
    }
  }

  /** What the encoder stores back into the array: a negative byte shifted by 256, and an
      `undefined` entry replaced by 0. */
  function Normalise(b: Option<int>): (v: int)
    ensures b.Some? && -256 <= b.value < 256 ==> 0 <= v < 256
    ensures b.Some? && 0 <= b.value ==> v == b.value
    ensures b.Some? && b.value < 0 ==> v == b.value + 256
    ensures b.None? ==> v == 0
  {
    match b
    case None => 0
    case Some(x) => if x < 0 then x + 256 else x
  }

  /** One encoded value: its digits, with a leading `0` when there is only one. */
  function HexPair(v: int): (r: string)
    ensures 0 <= v < 256 ==> r == [HexDigit(v / 16), HexDigit(v % 16)]
  {
    var t := IntToHex(v);
    assert 0 <= v < 16 ==> t == [HexDigit(v)];
    assert 16 <= v < 256 ==> t == HexOf(v / 16) + [HexDigit(v % 16)];
    if |t| == 1 then "0" + t else t
  }

  /** The encoded values one after the other, in array order. */
  function Concat(norm: seq<int>): string {
    Joined(HexPair, norm)
  }

  /** Each value's text `f(v)`, one after the other. */
  function Joined(f: int -> string, vs: seq<int>): string {
    if |vs| == 0 then "" else f(vs[0]) + Joined(f, vs[1..])
  }

  lemma {:induction false} JoinedSnoc(f: int -> string, vs: seq<int>, v: int)
    ensures Joined(f, vs + [v]) == Joined(f, vs) + f(v)
    decreases |vs|
  {
    if |vs| == 0 {
      assert vs + [v] == [v];
      assert Joined(f, [v]) == f(v) + Joined(f, []);
    } else {
      assert (vs + [v])[1..] == vs[1..] + [v];
      JoinedSnoc(f, vs[1..], v);
    }
  }

  lemma {:induction false} ConcatSnoc(norm: seq<int>, v: int)
    ensures Concat(norm + [v]) == Concat(norm) + HexPair(v)
  {
    JoinedSnoc(HexPair, norm, v);
  }

  /** `convert_to_formated_hex(byte_arr)`: the array is normalised in place and each value
      appended as its hex digits; the result is trimmed. The source's guard
      `!(typeof byte_arr !== 'array')` is never true, since no value's `typeof` is
      `'array'` (see `TypeGuardNeverFires`), so the early `false` return is not modelled. */
  method Encode(bytes: seq<Option<int>>) returns (text: string, norm: seq<int>)
    ensures |norm| == |bytes| && forall i :: 0 <= i < |bytes| ==> norm[i] == Normalise(bytes[i])
    ensures text == Trim(Concat(norm))
  {
    var hex := "";
    norm := [];
    var i := 0;
    while i < |bytes|
      invariant 0 <= i <= |bytes| && |norm| == i
      invariant forall k :: 0 <= k < i ==> norm[k] == Normalise(bytes[k])
      invariant hex == Concat(norm)
    {
      var b := Normalise(bytes[i]);
      var t := HexPair(b);
      ConcatSnoc(norm, b);
      hex := hex + t;
      norm := norm + [b];
      i := i + 1;
    }
    text := Trim(hex);
  }

  /** No value's `typeof` is `'array'`. */
  lemma {:induction false} TypeGuardNeverFires(v: Value)
    ensures TypeOf(v) != "array"
  {
  }

  // ---------------------------------------------------------------- decoding

  predicate IsHexDigit(c: char) {
    '0' <= c <= '9' || 'a' <= c <= 'f' || 'A' <= c <= 'F'
  }

  predicate AllHex(s: string) {
    forall i :: 0 <= i < |s| ==> IsHexDigit(s[i])
  }

  /** `/[^0-9a-fA-F]{2}/.test(s)` */
  predicate HasNonHexPair(s: string) {
    exists i :: 0 <= i < |s| - 1 && !IsHexDigit(s[i]) && !IsHexDigit(s[i + 1])
  }

  /** Where the next two hex digits in a row start, at or after `q`; -1 when there are none. */
  function FirstPair(s: string, q: nat): (r: int)
    requires q <= |s|
    ensures r == -1 || (q <= r && r + 2 <= |s| && IsHexDigit(s[r]) && IsHexDigit(s[r + 1]))
    ensures forall i :: q <= i && i + 2 <= |s| && (r == -1 || i < r) ==> !(IsHexDigit(s[i]) && IsHexDigit(s[i + 1]))
    decreases |s| - q
  {
    if q + 2 > |s| then -1
    else if IsHexDigit(s[q]) && IsHexDigit(s[q + 1]) then q
    else FirstPair(s, q + 1)
  }

  /** The pieces joined back together. */
  function Flatten(pieces: seq<string>): string {
    if |pieces| == 0 then "" else pieces[0] + Flatten(pieces[1..])
  }

  /** `s.split(/([0-9a-fA-F]{2})/g)`: the text between matches, with each match (the captured
      pair) between them; matches are found from left to right without overlap. */
  function SplitPairs(s: string): (r: seq<string>)
    ensures |r| % 2 == 1
    ensures forall k :: 0 <= k < |r| && k % 2 == 1 ==> |r[k]| == 2 && AllHex(r[k])
    decreases |s|
  {
    var q := FirstPair(s, 0);
    if q < 0 then [s]
    else
      var rest := SplitPairs(s[q + 2..]);
      var r := [s[..q], s[q..q + 2]] + rest;
      assert forall k :: 2 <= k < |r| ==> r[k] == rest[k - 2];
      r
  }

  /** The values of the non-blank pieces, each read with `parseInt(piece, 16)`. */
  function Values(pieces: seq<string>): seq<Number> {
    if |pieces| == 0 then []
    else (if Trim(pieces[0]) == "" then [] else [ParseInt(pieces[0], true)]) + Values(pieces[1..])
  }

  /** What the decoder answers: the values read, or `false` for text it refuses. */
  datatype Decoded = Bytes(values: seq<Number>) | Refused

  /** `convert_formated_hex_to_bytes(hex_str)` (the same in the build script and in the
      page's loader). */
  function Decode(s: string): (r: Decoded)
    ensures r.Refused? <==> Trim(s) != "" && HasNonHexPair(s)
    ensures Trim(s) == "" ==> r == Bytes([])
  {
    if Trim(s) == "" then Bytes([])
    else if HasNonHexPair(s) then Refused
    else Bytes(Values(SplitPairs(s)))
  }

  // ---------------------------------------------------------------- properties

  /** Splitting loses nothing: the pieces join back into the text. */
  lemma {:induction false} SplitPairsJoin(s: string)
    ensures Flatten(SplitPairs(s)) == s
    decreases |s|
  {
    var q := FirstPair(s, 0);
    if q >= 0 {
      var rest := SplitPairs(s[q + 2..]);
      var r := [s[..q], s[q..q + 2]] + rest;
      assert r[1..][1..] == rest;
      SplitPairsJoin(s[q + 2..]);
      assert s == s[..q] + (s[q..q + 2] + s[q + 2..]);
    } else {
      assert [s][1..] == [];
      assert s + "" == s;
    }
  }

  /** The reference reading of hex text: each pair of digits is one value, and a trailing
      odd digit is a value of its own. */
  function PairValues(s: string): (r: seq<Number>)
    ensures |r| == (|s| + 1) / 2
  {
    seq((|s| + 1) / 2, i requires 0 <= i < (|s| + 1) / 2 =>
      if 2 * i + 1 < |s| then Int(16 * DigitValue(s[2 * i]) + DigitValue(s[2 * i + 1]))
      else Int(DigitValue(s[2 * i])))
  }

  lemma {:induction false} HexDigitValue(c: char)
    requires IsHexDigit(c)
    ensures DigitValue(c) < 16 && !IsSpace(c) && c != '-' && c != '+' && c != 'x' && c != 'X'
  {
  }

  /** `parseInt` of one hex digit, and of two. */
  lemma {:induction false} ParseHex(p: string)
    requires 1 <= |p| <= 2 && AllHex(p)
    ensures Trim(p) == p
    ensures |p| == 1 ==> ParseInt(p, true) == Int(DigitValue(p[0]))
    ensures |p| == 2 ==> ParseInt(p, true) == Int(16 * DigitValue(p[0]) + DigitValue(p[1]))
  {
    HexDigitValue(p[0]);
    HexDigitValue(p[|p| - 1]);
    TrimNoSpace(p);
    if |p| == 1 {
      ParseHexOne(p);
    } else {
      ParseHexTwo(p);
    }
  }

  lemma {:induction false} ParseHexOne(p: string)
    requires |p| == 1 && IsHexDigit(p[0]) && TrimStart(p) == p
    ensures ParseInt(p, true) == Int(DigitValue(p[0]))
  {
    HexDigitValue(p[0]);
    assert ParseInt(p, true) == ParseUnsigned(p, true);
    assert DigitRun(p[1..], 16) == 0;
    assert DigitRun(p, 16) == 1;
    assert p[..1] == p && p[..0] == [];
    assert RadixValue(p, 16) == DigitValue(p[0]);
  }

  lemma {:induction false} ParseHexTwo(p: string)
    requires |p| == 2 && IsHexDigit(p[0]) && IsHexDigit(p[1]) && TrimStart(p) == p
    ensures ParseInt(p, true) == Int(16 * DigitValue(p[0]) + DigitValue(p[1]))
  {
    HexDigitValue(p[0]);
    HexDigitValue(p[1]);
    assert ParseInt(p, true) == ParseUnsigned(p, true);
    assert p[1..][1..] == [];
    assert DigitRun(p[1..][1..], 16) == 0;
    assert DigitRun(p, 16) == 2;
    assert p[..2] == p && p[..1] == [p[0]] && [p[0]][..0] == [];
    assert RadixValue([p[0]], 16) == DigitValue(p[0]);
    assert RadixValue(p, 16) == 16 * DigitValue(p[0]) + DigitValue(p[1]);
  }

  /** For text made only of hex digits the pieces' values are the reference reading. */
  lemma {:induction false} ValuesOfHex(s: string)
    requires AllHex(s)
    ensures Values(SplitPairs(s)) == PairValues(s)
    decreases |s|
  {
    if |s| <= 1 {
      ValuesOfShortHex(s);
    } else {
      var p := s[..2];
      var rest := SplitPairs(s[2..]);
      var head := Int(16 * DigitValue(s[0]) + DigitValue(s[1]));
      assert SplitPairs(s) == ["", p] + rest by {
        SplitPairsCons(s);
      }
      assert Values(["", p] + rest) == [head] + Values(rest) by {
        ParseHex(p);
        ValuesCons(p, rest);
      }
      assert Values(rest) == PairValues(s[2..]) by {
        ValuesOfHex(s[2..]);
      }
      assert PairValues(s) == [head] + PairValues(s[2..]) by {
        PairValuesCons(s);
      }
    }
  }

  lemma {:induction false} ValuesOfShortHex(s: string)
    requires AllHex(s) && |s| <= 1
    ensures Values(SplitPairs(s)) == PairValues(s)
  {
    if |s| == 0 {
      assert SplitPairs(s) == [""];
      assert Values([""]) == [] + Values([]);
    } else {
      assert SplitPairs(s) == [s];
      ParseHex(s);
      assert Values([s]) == [ParseInt(s, true)] + Values([]);
      assert PairValues(s)[0] == Int(DigitValue(s[0]));
    }
  }

  /** Text starting with two hex digits splits into an empty piece, the pair, and the rest. */
  lemma {:induction false} SplitPairsCons(s: string)
    requires |s| >= 2 && IsHexDigit(s[0]) && IsHexDigit(s[1])
    ensures SplitPairs(s) == ["", s[..2]] + SplitPairs(s[2..])
  {
    assert FirstPair(s, 0) == 0;
  }

  /** The empty piece in front of a pair adds no value. */
  lemma {:induction false} ValuesCons(p: string, rest: seq<string>)
    requires Trim(p) == p && p != ""
    ensures Values(["", p] + rest) == [ParseInt(p, true)] + Values(rest)
  {
    assert (["", p] + rest)[1..] == [p] + rest;
    assert ([p] + rest)[1..] == rest;
    assert Trim("") == "";
  }

  lemma {:induction false} PairValuesCons(s: string)
    requires |s| >= 2
    ensures PairValues(s) == [Int(16 * DigitValue(s[0]) + DigitValue(s[1]))] + PairValues(s[2..])
  {
    var t := s[2..];
    var r := [Int(16 * DigitValue(s[0]) + DigitValue(s[1]))] + PairValues(t);
    forall i | 1 <= i < |r| ensures PairValues(s)[i] == r[i] {
      assert s[2 * i] == t[2 * (i - 1)];
      if 2 * i + 1 < |s| {
        assert s[2 * i + 1] == t[2 * (i - 1) + 1];
      }
    }
  }

  /** Text of hex digits only is read pair by pair: 2n digits give n values in 0..255, and a
      trailing odd digit gives one more value in 0..15. */
  lemma {:induction false} DecodeHex(s: string)
    requires AllHex(s)
    ensures Decode(s) == Bytes(PairValues(s))
    ensures forall i :: 0 <= i < |PairValues(s)| ==> 0 <= PairValues(s)[i].i < 256
    ensures |s| % 2 == 1 ==> 0 <= PairValues(s)[|s| / 2].i < 16
  {
    assert Decode(s) == Bytes(PairValues(s)) by {
      DecodeAllHex(s);
    }
    PairValuesBounds(s);
  }

  lemma {:induction false} DecodeAllHex(s: string)
    requires AllHex(s)
    ensures Decode(s) == Bytes(PairValues(s))
  {
    if |s| > 0 {
      HexDigitValue(s[0]);
      HexDigitValue(s[|s| - 1]);
      TrimNoSpace(s);
      ValuesOfHex(s);
    }
  }

  lemma {:induction false} PairValuesBounds(s: string)
    requires AllHex(s)
    ensures forall i :: 0 <= i < |PairValues(s)| ==> 0 <= PairValues(s)[i].i < 256
    ensures |s| % 2 == 1 ==> 0 <= PairValues(s)[|s| / 2].i < 16
  {
    forall i | 0 <= i < |PairValues(s)| ensures 0 <= PairValues(s)[i].i < 256 {
      HexDigitValue(s[2 * i]);
      if 2 * i + 1 < |s| {
        HexDigitValue(s[2 * i + 1]);
      }
    }
    if |s| % 2 == 1 {
      HexDigitValue(s[|s| - 1]);
    }
  }

  /** Encoded bytes in 0..255 take two digits each, in array order. */
  lemma {:induction false} ConcatBytes(norm: seq<int>)
    requires forall i :: 0 <= i < |norm| ==> 0 <= norm[i] < 256
    ensures |Concat(norm)| == 2 * |norm|
    ensures forall i :: 0 <= i < |norm| ==>
      Concat(norm)[2 * i] == HexDigit(norm[i] / 16) && Concat(norm)[2 * i + 1] == HexDigit(norm[i] % 16)
    decreases |norm|
  {
    if |norm| > 0 {
      var tail := norm[1..];
      ConcatBytes(tail);
      var h := HexPair(norm[0]);
      var t := Concat(tail);
      var c := h + t;
      assert h == [HexDigit(norm[0] / 16), HexDigit(norm[0] % 16)];
      assert Concat(norm) == c;
      forall i | 0 <= i < |norm|
        ensures c[2 * i] == HexDigit(norm[i] / 16) && c[2 * i + 1] == HexDigit(norm[i] % 16)
      {
        if i > 0 {
          var k := i - 1;
          assert c[2 * i] == t[2 * k] && c[2 * i + 1] == t[2 * k + 1];
          assert tail[k] == norm[i];
        }
      }
    }
  }

  /** Encoded bytes in 0..255 are hex text. */
  lemma {:induction false} ConcatHex(norm: seq<int>)
    requires forall i :: 0 <= i < |norm| ==> 0 <= norm[i] < 256
    ensures AllHex(Concat(norm))
  {
    var c := Concat(norm);
    ConcatBytes(norm);
    forall j | 0 <= j < |c| ensures IsHexDigit(c[j]) {
      var i := j / 2;
      if j % 2 == 0 {
        assert j == 2 * i && c[j] == HexDigit(norm[i] / 16);
      } else {
        assert j == 2 * i + 1 && c[j] == HexDigit(norm[i] % 16);
      }
    }
  }

  /** The reference reading of the encoding is the bytes themselves. */
  lemma {:induction false} PairValuesOfConcat(norm: seq<int>)
    requires forall i :: 0 <= i < |norm| ==> 0 <= norm[i] < 256
    ensures PairValues(Concat(norm)) == seq(|norm|, i requires 0 <= i < |norm| => Int(norm[i]))
  {
    ConcatBytes(norm);
    PairValuesOfDigits(Concat(norm), norm);
  }

  /** Text holding each byte's two digits reads back as the bytes. */
  lemma {:induction false} PairValuesOfDigits(c: string, norm: seq<int>)
    requires forall i :: 0 <= i < |norm| ==> 0 <= norm[i] < 256
    requires |c| == 2 * |norm|
    requires forall i :: 0 <= i < |norm| ==>
      c[2 * i] == HexDigit(norm[i] / 16) && c[2 * i + 1] == HexDigit(norm[i] % 16)
    ensures PairValues(c) == seq(|norm|, i requires 0 <= i < |norm| => Int(norm[i]))
  {
    forall i | 0 <= i < |norm| ensures PairValues(c)[i] == Int(norm[i]) {
      assert 2 * i + 1 < |c|;
      assert DigitValue(c[2 * i]) == norm[i] / 16 && DigitValue(c[2 * i + 1]) == norm[i] % 16;
    }
  }

  /** Decoding the encoding gives back the normalised bytes: every byte from -256 to 255,
      and every `undefined` entry (as 0). */
  lemma {:induction false} RoundTrip(bytes: seq<Option<int>>, norm: seq<int>)
    requires forall i :: 0 <= i < |bytes| ==> bytes[i].None? || -256 <= bytes[i].value < 256
    requires |norm| == |bytes| && forall i :: 0 <= i < |bytes| ==> norm[i] == Normalise(bytes[i])
    ensures Trim(Concat(norm)) == Concat(norm)
    ensures Decode(Concat(norm)) == Bytes(seq(|norm|, i requires 0 <= i < |norm| => Int(norm[i])))
  {
    var c := Concat(norm);
    ConcatHex(norm);
    if |c| > 0 {
      HexDigitValue(c[0]);
      HexDigitValue(c[|c| - 1]);
    }
    TrimNoSpace(c);
    DecodeHex(c);
    PairValuesOfConcat(norm);
  }
}
