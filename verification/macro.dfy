/** Bracket-macro substitution in tracking URIs: every `[key]` of the default macros and of
    the caller's extra macros is replaced, case-insensitively, by the macro's value. */
module Macro {
  import opened Strs
  import opened Js

  /** What the default macros read from the page, the campaign and the device, and the
      one random number drawn for the call. */
  datatype Env = Env(
    agent: Value, referrerBase: Value, referrerUrl: Value,
    width: int, height: int,
    campaignId: Value, ip: Value, websiteId: Value,
    random: Value)

  /** The names that all carry the call's random number. */
  const RandomNames: seq<string> := ["timestamp", "cachebuster", "cache_buster", "cachebreaker", "cache_breaker"]

  /** The default macros, in the order they are written. */
  function Defaults(env: Env): (r: Props)
    ensures DistinctKeys(r) && |r| == 14
    ensures forall i :: 0 <= i < |RandomNames| ==> r[9 + i] == (RandomNames[i], env.random)
  {
    [ ("media_id", Str("ad3media")),
      ("user_agent", env.agent), ("referrer_root", env.referrerBase), ("referrer_url", env.referrerUrl),
      ("width", Num(env.width)), ("height", Num(env.height)),
      ("campaign_id", env.campaignId), ("ip_address", env.ip), ("w", env.websiteId),
      ("timestamp", env.random), ("cachebuster", env.random), ("cache_buster", env.random),
      ("cachebreaker", env.random), ("cache_breaker", env.random) ]
  }

  /** `Object.assign(defaults, extra)`: the extra macros override or follow the defaults. */
  function Macros(env: Env, extra: Props): (r: Props)
    ensures DistinctKeys(r)
  {
    Assign(Defaults(env), extra)
  }

  /** `pat` occurs at `i` in `s`, letters compared without case. */
  predicate MatchesAt(s: string, pat: string, i: nat) {
    i + |pat| <= |s| && Lower(s[i..i + |pat|]) == Lower(pat)
  }

  /** `s.replace(new RegExp(pat, 'gi'), rep)` for a pattern with no special characters: the
      matches found from left to right, without overlap, each replaced by `rep`. */
  function ReplaceAll(s: string, pat: string, rep: string): (r: string)
    requires |pat| > 0
    decreases |s|
  {
    if |s| < |pat| then s
    else if MatchesAt(s, pat, 0) then rep + ReplaceAll(s[|pat|..], pat, rep)
    else [s[0]] + ReplaceAll(s[1..], pat, rep)
  }

  /** `[key]` */
  function Bracketed(key: string): string {
    "[" + key + "]"
  }

  /** The macros from position `i` on, applied in key order. */
  function ApplyFrom(s: string, macros: Props, i: nat): string
    requires i <= |macros|
    decreases |macros| - i
  {
    if i == |macros| then s
    else ApplyFrom(ReplaceAll(s, Bracketed(macros[i].0), ToStr(macros[i].1)), macros, i + 1)
  }

  /** `Macro.uri(uri, extra)` */
  function Uri(uri: string, env: Env, extra: Props): string {
    ApplyFrom(uri, Macros(env, extra), 0)
  }

  // ---------------------------------------------------------------- properties

  /** An extra macro overrides the default of the same name; a name the extra macros lack
      keeps its default. */
  lemma {:induction false} ExtraOverrides(env: Env, extra: Props, k: string)
    requires DistinctKeys(extra)
    ensures Has(extra, k) ==> Get(Macros(env, extra), k) == Get(extra, k)
    ensures !Has(extra, k) ==> Get(Macros(env, extra), k) == Get(Defaults(env), k)
  {
    AssignKeys(Defaults(env), extra);
    if Has(extra, k) {
      AssignGetSource(Defaults(env), extra, k);
    }
  }

  /** The timestamp and every cache-buster name carry the same random number, unless the
      extra macros replace it. */
  lemma {:induction false} SameRandom(env: Env, extra: Props, i: nat)
    requires DistinctKeys(extra) && i < |RandomNames| && !Has(extra, RandomNames[i])
    ensures Get(Macros(env, extra), RandomNames[i]) == env.random
  {
    ExtraOverrides(env, extra, RandomNames[i]);
    GetAt(Defaults(env), 9 + i);
  }

  /** A string with no match is left as it is. */
  lemma {:induction false} ReplaceAllNone(s: string, pat: string, rep: string)
    requires |pat| > 0 && forall i :: 0 <= i < |s| ==> !MatchesAt(s, pat, i)
    ensures ReplaceAll(s, pat, rep) == s
    decreases |s|
  {
    if |s| >= |pat| {
      assert !MatchesAt(s, pat, 0);
      forall i | 0 <= i < |s[1..]| ensures !MatchesAt(s[1..], pat, i) {
        assert !MatchesAt(s, pat, i + 1);
        if i + |pat| <= |s[1..]| {
          assert s[1..][i..i + |pat|] == s[i + 1..i + 1 + |pat|];
        }
      }
      ReplaceAllNone(s[1..], pat, rep);
      assert s == [s[0]] + s[1..];
    }
  }

  /** Text holding no `[key]` for any macro key is returned unchanged. */
  lemma {:induction false} ApplyNone(s: string, macros: Props, i: nat)
    requires i <= |macros|
    requires forall j, p :: i <= j < |macros| && 0 <= p < |s| ==> !MatchesAt(s, Bracketed(macros[j].0), p)
    ensures ApplyFrom(s, macros, i) == s
    decreases |macros| - i
  {
    if i < |macros| {
      ReplaceAllNone(s, Bracketed(macros[i].0), ToStr(macros[i].1));
      ApplyNone(s, macros, i + 1);
    }
  }

  /** No match starts at a character other than `[` when the pattern starts with `[`. */
  lemma {:induction false} NoMatchOffBracket(s: string, pat: string)
    requires |pat| > 0 && pat[0] == '[' && |s| > 0 && s[0] != '['
    ensures !MatchesAt(s, pat, 0)
  {
    if |pat| <= |s| {
      assert Lower(s[..|pat|])[0] != Lower(pat)[0];
    }
  }

  /** A text with no `[` passes through the scan of a pattern that starts with `[`. */
  lemma {:induction false} ReplaceAllPlain(t: string, rest: string, pat: string, rep: string)
    requires |pat| > 0 && pat[0] == '[' && forall i :: 0 <= i < |t| ==> t[i] != '['
    ensures ReplaceAll(t + rest, pat, rep) == t + ReplaceAll(rest, pat, rep)
    decreases |t|
  {
    if |t| > 0 {
      var s := t + rest;
      if |s| < |pat| {
        assert ReplaceAll(rest, pat, rep) == rest;
      } else {
        assert s[0] == t[0];
        NoMatchOffBracket(s, pat);
        assert ReplaceAll(s, pat, rep) == [s[0]] + ReplaceAll(s[1..], pat, rep);
        assert s[1..] == t[1..] + rest;
        ReplaceAllPlain(t[1..], rest, pat, rep);
        assert t == [t[0]] + t[1..];
      }
    } else {
      assert t + rest == rest;
    }
  }

  /** A match at the front is replaced and the scan goes on after it. */
  lemma {:induction false} ReplaceAllFront(m: string, rest: string, pat: string, rep: string)
    requires |pat| > 0 && |m| == |pat| && Lower(m) == Lower(pat)
    ensures ReplaceAll(m + rest, pat, rep) == rep + ReplaceAll(rest, pat, rep)
  {
    var s := m + rest;
    assert s[..|pat|] == m;
    assert s[|pat|..] == rest;
  }

  /** `texts[0] + marks[0] + texts[1] + ... + texts[n]` */
  function Interleave(texts: seq<string>, marks: seq<string>): string
    requires |texts| == |marks| + 1
    decreases |marks|
  {
    if |marks| == 0 then texts[0] else texts[0] + marks[0] + Interleave(texts[1..], marks[1..])
  }

  /** Every `[key]` occurrence, in any letter case, is replaced by the value: in text whose
      only `[` are those of the occurrences, replacing gives the text with the value in
      each occurrence's place. */
  lemma {:induction false} ReplaceEveryOccurrence(texts: seq<string>, marks: seq<string>, key: string, rep: string)
    requires |texts| == |marks| + 1
    requires forall i :: 0 <= i < |key| ==> key[i] != '['
    requires forall j, i :: 0 <= j < |texts| && 0 <= i < |texts[j]| ==> texts[j][i] != '['
    requires forall j :: 0 <= j < |marks| ==> |marks[j]| == |Bracketed(key)| && Lower(marks[j]) == Lower(Bracketed(key))
    ensures ReplaceAll(Interleave(texts, marks), Bracketed(key), rep) == Interleave(texts, seq(|marks|, _ => rep))
    decreases |marks|
  {
    var pat := Bracketed(key);
    var reps := seq(|marks|, _ => rep);
    if |marks| == 0 {
      ReplaceAllPlain(texts[0], "", pat, rep);
      assert texts[0] + "" == texts[0];
    } else {
      var rest := Interleave(texts[1..], marks[1..]);
      ReplaceAllPlain(texts[0], marks[0] + rest, pat, rep);
      assert texts[0] + (marks[0] + rest) == Interleave(texts, marks);
      ReplaceAllFront(marks[0], rest, pat, rep);
      ReplaceEveryOccurrence(texts[1..], marks[1..], key, rep);
      assert reps[1..] == seq(|marks[1..]|, _ => rep);
    }
  }

  /** Keys apply in order: a value brought in by an earlier key is rewritten by a later
      one, but not the other way round. */
  lemma {:induction false} EarlierValueRewritten()
    ensures ApplyFrom("[first]", [("first", Str("[second]")), ("second", Str("2"))], 0) == "2"
    ensures ApplyFrom("[first]", [("second", Str("2")), ("first", Str("[second]"))], 0) == "[second]"
  {
    ReplaceAllFront("[first]", "", "[first]", "[second]");
    ReplaceAllFront("[second]", "", "[second]", "2");
    var none := "[first]";
    forall i | 0 <= i < |none| ensures !MatchesAt(none, "[second]", i) {
      assert |none| < |"[second]"|;
    }
    ReplaceAllNone("[first]", "[second]", "2");
    assert "[first]" + "" == "[first]";
    assert "[second]" + "" == "[second]";
  }
}
