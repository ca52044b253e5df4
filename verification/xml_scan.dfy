/** The regular expressions of the markup parser (`src/vast/parser/parser.js`), each as an
    explicit scan. A lazy run `(.*?)` is the shortest run of characters other than line
    terminators after which the rest of the pattern matches; a search tries the start
    positions from left to right; a global `match` lists the non-overlapping matches from
    left to right. Tag names are taken literally: a name holding a regular-expression
    metacharacter is not modelled. */
module XmlScan {
  import opened Strs
  import opened Js

  /** No line terminator in `s[a..b]`: the text a `.` run can cover. */
  predicate Dotted(s: string, a: int, b: int)
    requires 0 <= a <= b <= |s|
  {
    forall k :: a <= k < b ==> !IsLineTerminator(s[k])
  }

  /** `(.*?)pat` from `from`: the first position of `pat` reached without crossing a line
      terminator. */
  function LazyTo(s: string, from: nat, pat: string): (r: Option<nat>)
    requires from <= |s|
    ensures r.Some? ==> from <= r.value <= |s| && OccursAt(s, pat, r.value) && Dotted(s, from, r.value)
    ensures r.Some? ==> forall p :: from <= p < r.value ==> !OccursAt(s, pat, p)
    ensures r.None? ==> forall p :: from <= p <= |s| && OccursAt(s, pat, p) ==> !Dotted(s, from, p)
    decreases |s| - from
  {
    if OccursAt(s, pat, from) then Some(from)
    else if from == |s| || IsLineTerminator(s[from]) then None
    else LazyTo(s, from + 1, pat)
  }

  /** A lazy run stops at a match when no character before it is a line terminator or the
      pattern's first character. */
  lemma {:induction false} LazyToAt(s: string, from: nat, pat: string, at: nat)
    requires from <= at && OccursAt(s, pat, at) && |pat| > 0
    requires forall p :: from <= p < at ==> s[p] != pat[0] && !IsLineTerminator(s[p])
    ensures LazyTo(s, from, pat) == Some(at)
    decreases at - from
  {
    if from < at {
      assert !OccursAt(s, pat, from) by {
        if from + |pat| <= |s| {
          assert s[from..from + |pat|][0] == s[from];
        }
      }
      LazyToAt(s, from + 1, pat, at);
    }
  }

  /** A lazy run stops at the first match when no line terminator comes before it. */
  lemma {:induction false} LazyToFirst(s: string, from: nat, pat: string, at: nat)
    requires from <= at && OccursAt(s, pat, at)
    requires forall p :: from <= p < at ==> !OccursAt(s, pat, p) && !IsLineTerminator(s[p])
    ensures LazyTo(s, from, pat) == Some(at)
    decreases at - from
  {
    if from < at {
      LazyToFirst(s, from + 1, pat, at);
    }
  }

  /** A lazy run finds a match whenever one is reachable without crossing a line
      terminator. */
  lemma {:induction false} LazyToFinds(s: string, from: nat, pat: string, at: nat)
    requires from <= at && OccursAt(s, pat, at) && Dotted(s, from, at)
    ensures LazyTo(s, from, pat).Some?
  {
  }

  /** The leftmost start in `[from, n)` at which `at` finds a match. */
  function Leftmost<T>(n: nat, from: nat, at: nat -> Option<T>): (r: Option<nat>)
    ensures r.Some? ==> from <= r.value < n && at(r.value).Some?
    ensures r.Some? ==> forall j :: from <= j < r.value ==> at(j).None?
    ensures r.None? ==> forall j :: from <= j < n ==> at(j).None?
    decreases n - from
  {
    if from >= n then None
    else if at(from).Some? then Some(from)
    else Leftmost(n, from + 1, at)
  }

  /** Where nothing matches, there is no leftmost match. */
  lemma {:induction false} LeftmostNone<T>(n: nat, from: nat, at: nat -> Option<T>)
    requires forall j :: from <= j < n ==> at(j).None?
    ensures Leftmost(n, from, at).None?
  {
  }

  lemma {:induction false} LeftmostAt<T>(n: nat, from: nat, at: nat -> Option<T>, i: nat)
    requires from <= i < n && at(i).Some?
    requires forall j :: from <= j < i ==> at(j).None?
    ensures Leftmost(n, from, at) == Some(i)
    decreases i - from
  {
    if from < i {
      LeftmostAt(n, from + 1, at, i);
    }
  }

  /** The matches of a global `match` from `from`: `at(i)` is where a match starting at
      `i` ends. */
  function AllMatches(s: string, from: nat, at: nat -> Option<nat>): (r: seq<string>)
    requires from <= |s|
    requires forall i: nat :: at(i).Some? ==> i < at(i).value <= |s|
    decreases |s| - from
  {
    match Leftmost(|s|, from, at)
    case None => []
    case Some(i) => [s[i..at(i).value]] + AllMatches(s, at(i).value, at)
  }

  /** A text with a single match. */
  lemma {:induction false} AllMatchesOne(s: string, at: nat -> Option<nat>, i: nat)
    requires forall i: nat :: at(i).Some? ==> i < at(i).value <= |s|
    requires Leftmost(|s|, 0, at) == Some(i)
    requires Leftmost(|s|, at(i).value, at).None?
    ensures AllMatches(s, 0, at) == [s[i..at(i).value]]
  {
    assert AllMatches(s, at(i).value, at) == [];
  }

  /** A global match takes the leftmost match, then goes on from its end. */
  lemma {:induction false} AllMatchesNext(s: string, a: nat, at: nat -> Option<nat>, i: nat, e: nat)
    requires a <= |s| && forall i: nat :: at(i).Some? ==> i < at(i).value <= |s|
    requires Leftmost(|s|, a, at) == Some(i) && at(i) == Some(e)
    ensures AllMatches(s, a, at) == [s[i..e]] + AllMatches(s, e, at)
  {
  }

  /** `s.lastIndexOf(pat)` */
  function LastIndexOf(s: string, pat: string): (r: int)
    ensures r == -1 || OccursAt(s, pat, r)
    ensures forall i :: r < i ==> !OccursAt(s, pat, i)
  {
    LastFrom(s, pat, |s|)
  }

  /** The last occurrence, known to be at `k` (`-1` when there is none). */
  lemma {:induction false} LastAt(s: string, pat: string, k: int)
    requires k == -1 || OccursAt(s, pat, k)
    requires forall i :: k < i ==> !OccursAt(s, pat, i)
    ensures LastIndexOf(s, pat) == k
  {
  }

  function LastFrom(s: string, pat: string, i: int): (r: int)
    requires i <= |s|
    ensures r == -1 || (r <= i && OccursAt(s, pat, r))
    ensures forall j :: r < j <= i ==> !OccursAt(s, pat, j)
    decreases i + 1
  {
    if i < 0 then -1
    else if OccursAt(s, pat, i) then i
    else LastFrom(s, pat, i - 1)
  }

  // ---------------------------------------------------------------- the patterns

  /** `<\?xml(.*?)\?>` at `i`: where the match ends. */
  function DefinitionAt(s: string, i: nat): (r: Option<nat>)
    ensures r.Some? ==> i < r.value <= |s|
  {
    if !OccursAt(s, "<?xml", i) then None
    else match LazyTo(s, i + 5, "?>")
      case None => None
      case Some(p) => Some(p + 2)
  }

  /** `<!--(.*?)-->` at `i`: where the match ends. */
  function CommentAt(s: string, i: nat): (r: Option<nat>)
    ensures r.Some? ==> i < r.value <= |s|
  {
    if !OccursAt(s, "<!--", i) then None
    else match LazyTo(s, i + 4, "-->")
      case None => None
      case Some(p) => Some(p + 3)
  }

  /** `<(.*?)\s?\/>` at `i`: where the match ends. */
  function SelfClosingAt(s: string, i: nat): (r: Option<nat>)
    ensures r.Some? ==> i < r.value <= |s|
  {
    if i < |s| && s[i] == '<' then SelfClosingFrom(s, i + 1) else None
  }

  /** The lazy run of `<(.*?)\s?\/>` at `q`: first an optional white-space character and
      `/>`, then `/>`, otherwise one more character of the run. */
  function SelfClosingFrom(s: string, q: nat): (r: Option<nat>)
    requires q <= |s|
    ensures r.Some? ==> q + 2 <= r.value <= |s| && OccursAt(s, "/>", r.value - 2)
    decreases |s| - q
  {
    if q < |s| && IsSpace(s[q]) && OccursAt(s, "/>", q + 1) then Some(q + 3)
    else if OccursAt(s, "/>", q) then Some(q + 2)
    else if q < |s| && !IsLineTerminator(s[q]) then SelfClosingFrom(s, q + 1)
    else None
  }

  /** `<([^\!].*?)\s?>` at `i`: where the captured name part ends. */
  function OpeningAt(s: string, i: nat): (r: Option<nat>)
    ensures r.Some? ==> i + 2 <= r.value < |s|
  {
    if i + 1 < |s| && s[i] == '<' && s[i + 1] != '!' then OpeningFrom(s, i + 2) else None
  }

  /** The lazy run of `<([^\!].*?)\s?>` at `q`: the run ends before an optional white-space
      character and `>`. */
  function OpeningFrom(s: string, q: nat): (r: Option<nat>)
    requires q <= |s|
    ensures r.Some? ==> q <= r.value < |s|
    decreases |s| - q
  {
    if q + 1 < |s| && IsSpace(s[q]) && s[q + 1] == '>' then Some(q)
    else if q < |s| && s[q] == '>' then Some(q)
    else if q < |s| && !IsLineTerminator(s[q]) then OpeningFrom(s, q + 1)
    else None
  }

  /** `<name(.*?)>(.*?)<\/name>` at `i`: the position of the `>` that ends the opening tag
      and of the closing tag. The first `>` is the only candidate: when no closing tag
      follows it within the line, none follows a later `>` either. */
  function ElementAt(s: string, name: string, i: nat): (r: Option<(nat, nat)>)
    ensures r.Some? ==> var (q, c) := r.value;
      && i + 1 + |name| <= q < c && OccursAt(s, "<" + name, i)
      && OccursAt(s, "</" + name + ">", c) && s[q] == '>'
  {
    if !OccursAt(s, "<" + name, i) then None
    else match LazyTo(s, i + 1 + |name|, ">")
      case None => None
      case Some(q) =>
        match LazyTo(s, q + 1, "</" + name + ">")
        case None => None
        case Some(c) => Some((q, c))
  }

  /** The element match at `i`: its first `>` and the first closing tag after it, with
      nothing that could stop either lazy run earlier. */
  lemma {:induction false} ElementAtClean(s: string, name: string, i: nat, q: nat, c: nat)
    requires OccursAt(s, "<" + name, i) && i + 1 + |name| <= q < c
    requires OccursAt(s, "</" + name + ">", c) && s[q] == '>'
    requires forall p :: i + 1 + |name| <= p < q ==> s[p] != '>' && !IsLineTerminator(s[p])
    requires forall p :: q + 1 <= p < c ==> s[p] != '<' && !IsLineTerminator(s[p])
    ensures ElementAt(s, name, i) == Some((q, c))
  {
    ScanToGt(s, i + 1 + |name|, q);
    ScanToClose(s, name, q + 1, c);
    ElementAtRuns(s, name, i, q, c);
  }

  lemma {:induction false} ScanToGt(s: string, from: nat, q: nat)
    requires from <= q < |s| && s[q] == '>'
    requires forall p :: from <= p < q ==> s[p] != '>' && !IsLineTerminator(s[p])
    ensures LazyTo(s, from, ">") == Some(q)
  {
    assert s[q..q + 1] == ">";
    LazyToAt(s, from, ">", q);
  }

  lemma {:induction false} ScanToClose(s: string, name: string, from: nat, c: nat)
    requires from <= c && OccursAt(s, "</" + name + ">", c)
    requires forall p :: from <= p < c ==> s[p] != '<' && !IsLineTerminator(s[p])
    ensures LazyTo(s, from, "</" + name + ">") == Some(c)
  {
    assert ("</" + name + ">")[0] == '<';
    LazyToAt(s, from, "</" + name + ">", c);
  }

  /** The element match at `i`, from its two lazy runs. */
  lemma {:induction false} ElementAtRuns(s: string, name: string, i: nat, q: nat, c: nat)
    requires OccursAt(s, "<" + name, i) && q < |s|
    requires LazyTo(s, i + 1 + |name|, ">") == Some(q)
    requires LazyTo(s, q + 1, "</" + name + ">") == Some(c)
    ensures ElementAt(s, name, i) == Some((q, c))
  {
  }

  /** `^(<name(.*?)>)(.*?)(<\/name>)$`: the whole text is one element. */
  function AnchoredElement(s: string, name: string): (r: Option<(nat, nat)>)
    ensures r.Some? ==> var (q, c) := r.value;
      && 1 + |name| <= q < c && OccursAt(s, "<" + name, 0)
      && c + |"</" + name + ">"| == |s| && OccursAt(s, "</" + name + ">", c) && s[q] == '>'
  {
    var close := "</" + name + ">";
    if !OccursAt(s, "<" + name, 0) || |s| < |close| then None
    else match LazyTo(s, 1 + |name|, ">")
      case None => None
      case Some(q) =>
        var c := |s| - |close|;
        if q + 1 <= c && OccursAt(s, close, c) && Dotted(s, q + 1, c) then Some((q, c)) else None
  }

  predicate IsQuote(c: char) {
    c == '"' || c == '\''
  }

  /** `(.*?)=["'](.*?)["']` at `i`: the position of the `=` and of the closing quote. The
      first `=` followed by a quote is the only candidate: any later one would give a
      closing quote to the first. */
  function AttributeAt(s: string, i: nat): (r: Option<(nat, nat)>)
    ensures r.Some? ==> var (e, c) := r.value;
      && i <= e && e + 2 <= c < |s| && s[e] == '=' && IsQuote(s[e + 1]) && IsQuote(s[c])
  {
    if i > |s| then None
    else match AttributeKeyFrom(s, i)
      case None => None
      case Some(e) =>
        match QuoteFrom(s, e + 2)
        case None => None
        case Some(c) => Some((e, c))
  }

  /** The lazy run before `=["']`. */
  function AttributeKeyFrom(s: string, q: nat): (r: Option<nat>)
    requires q <= |s|
    ensures r.Some? ==> q <= r.value && r.value + 2 <= |s| && s[r.value] == '=' && IsQuote(s[r.value + 1])
    ensures r.Some? ==> Dotted(s, q, r.value)
    decreases |s| - q
  {
    if q + 1 < |s| && s[q] == '=' && IsQuote(s[q + 1]) then Some(q)
    else if q < |s| && !IsLineTerminator(s[q]) then AttributeKeyFrom(s, q + 1)
    else None
  }

  /** The lazy run before the closing quote. */
  function QuoteFrom(s: string, q: nat): (r: Option<nat>)
    requires q <= |s|
    ensures r.Some? ==> q <= r.value < |s| && IsQuote(s[r.value]) && Dotted(s, q, r.value)
    ensures r.Some? ==> forall k :: q <= k < r.value ==> !IsQuote(s[k])
    decreases |s| - q
  {
    if q < |s| && IsQuote(s[q]) then Some(q)
    else if q < |s| && !IsLineTerminator(s[q]) then QuoteFrom(s, q + 1)
    else None
  }

  /** `^<\!\[CDATA\[(.*?)\]\]>`: where the captured text ends. */
  function CDataAt(s: string): (r: Option<nat>)
    ensures r.Some? ==> 9 <= r.value && OccursAt(s, "]]>", r.value) && StartsWith(s, "<![CDATA[")
  {
    if !StartsWith(s, "<![CDATA[") then None else LazyTo(s, 9, "]]>")
  }

  // ---------------------------------------------------------------- the searches

  /** The patterns as the searches take them: where a match starting at `i` ends. */
  function Definitions(s: string): nat -> Option<nat> {
    (i: nat) => DefinitionAt(s, i)
  }

  function Comments(s: string): nat -> Option<nat> {
    (i: nat) => CommentAt(s, i)
  }

  function SelfClosings(s: string): nat -> Option<nat> {
    (i: nat) => SelfClosingAt(s, i)
  }

  function Openings(s: string): nat -> Option<nat> {
    (i: nat) => OpeningAt(s, i)
  }

  function Elements(s: string, name: string): nat -> Option<(nat, nat)> {
    (i: nat) => ElementAt(s, name, i)
  }

  function Attributes(s: string): nat -> Option<(nat, nat)> {
    (i: nat) => AttributeAt(s, i)
  }

  /** `_getTagName(source)`: the text of the first opening tag up to its first space,
      with its first `/` deleted; `None` stands for `false`. */
  function TagName(source: string): (r: Option<string>)
  {
    match Leftmost(|source|, 0, Openings(source))
    case None => None
    case Some(i) =>
      var inner := source[i + 1..OpeningAt(source, i).value];
      Some(ReplaceFirst(Split(inner, " ")[0], "/", ""))
  }

  // ---------------------------------------------------------------- text facts

  /** An occurrence inside a slice is an occurrence in the text. */
  lemma {:induction false} SliceOccurs(s: string, i: nat, e: nat, pat: string, a: nat)
    requires i <= e <= |s| && a + |pat| <= e - i
    ensures OccursAt(s[i..e], pat, a) == OccursAt(s, pat, i + a)
  {
    var x, y := s[i..e][a..a + |pat|], s[i + a..i + a + |pat|];
    forall k | 0 <= k < |pat| ensures x[k] == y[k] {
      assert x[k] == s[i..e][a + k] == s[i + a + k];
    }
    assert x == y;
  }

  /** A run free of line terminators inside a slice is one in the text. */
  lemma {:induction false} SliceDotted(s: string, i: nat, e: nat, a: nat, b: nat)
    requires i <= e <= |s| && a <= b <= e - i
    ensures Dotted(s[i..e], a, b) == Dotted(s, i + a, i + b)
  {
    forall k | a <= k < b ensures s[i..e][k] == s[i + k] {
      assert s[i..e][k] == s[i + k];
    }
  }

  /** Replacing the first occurrence when it is known where it is. */
  lemma {:induction false} ReplaceFirstAt(s: string, m: string, i: nat, rep: string)
    requires OccursAt(s, m, i) && forall j :: 0 <= j < i ==> !OccursAt(s, m, j)
    ensures ReplaceFirst(s, m, rep) == s[..i] + rep + s[i + |m|..]
  {
    assert i <= |s| && OccursAt(s, m, i);
    assert Contains(s, m);
  }
}
