/** The text preparation of the markup parser (`src/vast/parser/parser.js`), in the order
    `parse` runs it: the first `<?xml …?>` declaration is removed; every line is trimmed and
    the lines are joined; white space between `>` and `<` is deleted, and text left empty
    is refused; every self-closing tag gets an explicit closing tag; comments are
    removed. */
module XmlPrep {
  import opened Strs
  import opened Js
  import opened XmlScan

  // ---------------------------------------------------------------- declaration

  /** `_xmlRemoveDefinition`: the text of the first declaration match is replaced, at its
      first occurrence, by nothing. */
  function RemoveDefinition(s: string): string {
    match Leftmost(|s|, 0, Definitions(s))
    case None => s
    case Some(i) => ReplaceFirst(s, s[i..DefinitionAt(s, i).value], "")
  }

  // ---------------------------------------------------------------- lines and gaps

  /** Each line trimmed. */
  function TrimEach(lines: seq<string>): (r: seq<string>)
    ensures |r| == |lines| && forall i :: 0 <= i < |lines| ==> r[i] == Trim(lines[i])
  {
    seq(|lines|, i requires 0 <= i < |lines| => Trim(lines[i]))
  }

  /** `xml.split('\n').map(trim).join('')` */
  function TrimLines(s: string): string {
    Join(TrimEach(Split(s, "\n")), "")
  }

  /** The end of the run of white space that starts at `i`. */
  function SpaceRun(s: string, i: nat): (k: nat)
    requires i <= |s|
    ensures i <= k <= |s| && (k == |s| || !IsSpace(s[k]))
    ensures forall j :: i <= j < k ==> IsSpace(s[j])
    decreases |s| - i
  {
    if i < |s| && IsSpace(s[i]) then SpaceRun(s, i + 1) else i
  }

  /** `>\s+<` matches at `i`. */
  predicate GapAt(s: string, i: nat) {
    i < |s| && s[i] == '>' && var k := SpaceRun(s, i + 1); i + 1 < k < |s| && s[k] == '<'
  }

  predicate NoGaps(s: string) {
    forall i :: 0 <= i < |s| ==> !GapAt(s, i)
  }

  /** `xml.replace(/>\s+</g, '><')`: from left to right, each gap is replaced and the scan
      goes on after its `<`. */
  function CloseGaps(s: string): (r: string)
    decreases |s|
  {
    if |s| == 0 then ""
    else if GapAt(s, 0) then "><" + CloseGaps(s[SpaceRun(s, 1) + 1..])
    else [s[0]] + CloseGaps(s[1..])
  }

  /** `_xmlInline`: text left empty is refused. */
  function Inline(s: string): (r: Result<string>)
    ensures r.Err? ==> r.error == XmlParserError("XML has no body.")
    ensures r.Ok? ==> |r.value| > 0
    ensures NoVastError(r)
  {
    var t := CloseGaps(TrimLines(s));
    if |t| == 0 then Err(XmlParserError("XML has no body.")) else Ok(t)
  }

  // ---------------------------------------------------------------- self-closing tags

  /** `_xmlEndTags`: each match of the global self-closing pattern, taken from the text as it
      was before any change, is handled in turn on the changing text. */
  function EndTags(xml: string): string {
    CloseAll(xml, AllMatches(xml, 0, SelfClosings(xml)))
  }

  function CloseAll(xml: string, found: seq<string>): string
    decreases |found|
  {
    if |found| == 0 then xml else CloseAll(CloseOne(xml, found[0]), found[1..])
  }

  /** One match: cut to what follows its last `><`, match the pattern again, append the
      closing tag after the first occurrence of that text, then turn the first `/>` of the
      whole text into `>`. A name that cannot be read prints as `false`. */
  function CloseOne(xml: string, one: string): string {
    var piece := one[LastIndexOf(one, "><") + 1..];
    match Leftmost(|piece|, 0, SelfClosings(piece))
    case None => xml
    case Some(i) =>
      var m := piece[i..SelfClosingAt(piece, i).value];
      var name := match TagName(m) case Some(n) => n case None => "false";
      ReplaceFirst(ReplaceFirst(xml, m, m + "</" + name + ">"), "/>", ">")
  }

  // ---------------------------------------------------------------- comments

  /** `_xmlRemoveHTMLComments`: each comment match, taken before any change, is replaced at
      its first occurrence by nothing. */
  function RemoveComments(xml: string): string {
    DropAll(xml, AllMatches(xml, 0, Comments(xml)))
  }

  function DropAll(xml: string, found: seq<string>): string
    decreases |found|
  {
    if |found| == 0 then xml else DropAll(ReplaceFirst(xml, found[0], ""), found[1..])
  }

  /** The whole preparation. */
  function Prepare(s: string): (r: Result<string>)
    ensures NoVastError(r)
  {
    var t :- Inline(RemoveDefinition(s));
    Ok(RemoveComments(EndTags(t)))
  }

  // ---------------------------------------------------------------- properties

  /** The declaration that is removed is the leftmost match, and it is removed where it
      was matched: the text before and after it is kept. */
  lemma {:induction false} RemoveDefinitionSpec(s: string)
    ensures match Leftmost(|s|, 0, Definitions(s))
      case None => RemoveDefinition(s) == s
      case Some(i) => RemoveDefinition(s) == s[..i] + s[DefinitionAt(s, i).value..]
  {
    match Leftmost(|s|, 0, Definitions(s))
    case None =>
    case Some(i) =>
      LeftmostDefinition(s, i);
      var e := DefinitionAt(s, i).value;
      DropDefinition(s, i);
      assert RemoveDefinition(s) == ReplaceFirst(s, s[i..e], "");
  }

  lemma {:induction false} LeftmostDefinition(s: string, i: nat)
    requires Leftmost(|s|, 0, Definitions(s)) == Some(i)
    ensures DefinitionAt(s, i).Some? && forall j :: 0 <= j < i ==> DefinitionAt(s, j).None?
  {
    forall j | 0 <= j < i ensures DefinitionAt(s, j).None? {
      assert Definitions(s)(j).None?;
    }
  }

  /** Removing the first declaration's text removes it where it stands. */
  lemma {:induction false} DropDefinition(s: string, i: nat)
    requires DefinitionAt(s, i).Some? && forall j :: 0 <= j < i ==> DefinitionAt(s, j).None?
    ensures ReplaceFirst(s, s[i..DefinitionAt(s, i).value], "") == s[..i] + s[DefinitionAt(s, i).value..]
  {
    var e := DefinitionAt(s, i).value;
    DefinitionFirst(s, i);
    assert OccursAt(s, s[i..e], i);
    ReplaceFirstAt(s, s[i..e], i, "");
    assert s[..i] + "" + s[i + (e - i)..] == s[..i] + s[e..];
  }

  /** The leftmost declaration's text does not occur before it. */
  lemma {:induction false} DefinitionFirst(s: string, i: nat)
    requires DefinitionAt(s, i).Some? && forall j :: 0 <= j < i ==> DefinitionAt(s, j).None?
    ensures forall j :: 0 <= j < i ==> !OccursAt(s, s[i..DefinitionAt(s, i).value], j)
  {
    var e := DefinitionAt(s, i).value;
    forall j | 0 <= j < i ensures !OccursAt(s, s[i..e], j) {
      if OccursAt(s, s[i..e], j) {
        DefinitionCopy(s, i, e, j);
      }
    }
  }

  /** Where the text of a declaration match occurs, the pattern matches. */
  lemma {:induction false} DefinitionCopy(s: string, i: nat, e: nat, j: nat)
    requires DefinitionAt(s, i) == Some(e) && OccursAt(s, s[i..e], j)
    ensures DefinitionAt(s, j).Some?
  {
    DefinitionShape(s, i, e);
    DefinitionTextAt(s, s[i..e], j);
  }

  /** `<?xml`, a run without line terminators, `?>`. */
  predicate DefinitionText(m: string) {
    |m| >= 7 && OccursAt(m, "<?xml", 0) && OccursAt(m, "?>", |m| - 2) && Dotted(m, 5, |m| - 2)
  }

  /** Wherever such a text occurs, the declaration pattern matches. */
  lemma {:induction false} DefinitionTextAt(s: string, m: string, j: nat)
    requires DefinitionText(m) && OccursAt(s, m, j)
    ensures DefinitionAt(s, j).Some?
  {
    var n := |m|;
    assert s[j..j + n] == m;
    SliceOccurs(s, j, j + n, "<?xml", 0);
    SliceOccurs(s, j, j + n, "?>", n - 2);
    SliceDotted(s, j, j + n, 5, n - 2);
    LazyToFinds(s, j + 5, "?>", j + n - 2);
  }

  /** The text of a declaration match: `<?xml`, a run without line terminators, `?>`. */
  lemma {:induction false} DefinitionShape(s: string, i: nat, e: nat)
    requires DefinitionAt(s, i) == Some(e)
    ensures DefinitionText(s[i..e])
  {
    var n := e - i;
    SliceOccurs(s, i, e, "<?xml", 0);
    SliceOccurs(s, i, e, "?>", n - 2);
    SliceDotted(s, i, e, 5, n - 2);
  }

  /** `SpaceRun` does not depend on what comes before. */
  lemma {:induction false} SpaceRunShift(x: string, y: string, j: nat)
    requires j <= |y|
    ensures SpaceRun(x + y, |x| + j) == |x| + SpaceRun(y, j)
    decreases |y| - j
  {
    if j < |y| {
      assert (x + y)[|x| + j] == y[j];
      SpaceRunShift(x, y, j + 1);
    }
  }

  /** Whether a gap starts at a position does not depend on what comes before. */
  lemma {:induction false} GapShift(x: string, y: string, j: nat)
    ensures GapAt(x + y, |x| + j) == GapAt(y, j)
  {
    if j < |y| {
      assert (x + y)[|x| + j] == y[j];
      SpaceRunShift(x, y, j + 1);
      var k := SpaceRun(y, j + 1);
      if k < |y| {
        assert (x + y)[|x| + k] == y[k];
      }
    }
  }

  /** Closing gaps keeps the leading white space and the character after it. */
  lemma {:induction false} LeadingRun(t: string)
    ensures SpaceRun(CloseGaps(t), 0) == SpaceRun(t, 0)
    ensures SpaceRun(t, 0) < |t| ==>
      SpaceRun(t, 0) < |CloseGaps(t)| && CloseGaps(t)[SpaceRun(t, 0)] == t[SpaceRun(t, 0)]
    ensures SpaceRun(t, 0) == |t| ==> CloseGaps(t) == t
    decreases |t|
  {
    if |t| > 0 && IsSpace(t[0]) {
      var r := CloseGaps(t);
      assert r == [t[0]] + CloseGaps(t[1..]);
      LeadingRun(t[1..]);
      assert t == [t[0]] + t[1..];
      SpaceRunShift([t[0]], t[1..], 0);
      SpaceRunShift([t[0]], CloseGaps(t[1..]), 0);
    }
  }

  /** After `CloseGaps` no `>\s+<` is left. */
  lemma {:induction false} CloseGapsNoGaps(s: string)
    ensures NoGaps(CloseGaps(s))
    decreases |s|
  {
    if |s| > 0 {
      if GapAt(s, 0) {
        CloseGapsNoGaps(s[SpaceRun(s, 1) + 1..]);
        NoGapsAfterGap(s);
      } else {
        CloseGapsNoGaps(s[1..]);
        assert s == [s[0]] + s[1..];
        NoGapsAfterChar([s[0]], s[1..]);
      }
    }
  }

  /** A closed gap `><` in front of gap-free text leaves no gap. */
  lemma {:induction false} NoGapsAfterGap(s: string)
    requires GapAt(s, 0) && NoGaps(CloseGaps(s[SpaceRun(s, 1) + 1..]))
    ensures NoGaps(CloseGaps(s))
  {
    var rest := s[SpaceRun(s, 1) + 1..];
    var r := CloseGaps(s);
    assert r == "><" + CloseGaps(rest);
    forall i | 0 <= i < |r| ensures !GapAt(r, i) {
      if i >= 2 {
        GapShift("><", CloseGaps(rest), i - 2);
      } else if i == 0 {
        assert r[1] == '<' && !IsSpace(r[1]);
        assert SpaceRun(r, 1) == 1;
      }
    }
  }

  /** A character that starts no gap in front of gap-free text leaves no gap. */
  lemma {:induction false} NoGapsAfterChar(c: string, t: string)
    requires |c| == 1 && !GapAt(c + t, 0) && NoGaps(CloseGaps(t))
    ensures NoGaps(c + CloseGaps(t))
  {
    FirstNoGap(c, t);
    forall i | 1 <= i < 1 + |CloseGaps(t)| ensures !GapAt(c + CloseGaps(t), i) {
      GapShift(c, CloseGaps(t), i - 1);
    }
  }

  /** Closing the gaps after a character does not make it start one. */
  lemma {:induction false} FirstNoGap(c: string, t: string)
    requires |c| == 1 && !GapAt(c + t, 0)
    ensures !GapAt(c + CloseGaps(t), 0)
  {
    LeadingRun(t);
    SpaceRunShift(c, t, 0);
    SpaceRunShift(c, CloseGaps(t), 0);
    var k := SpaceRun(t, 0);
    if k < |t| {
      assert (c + t)[1 + k] == t[k];
      assert (c + CloseGaps(t))[1 + k] == CloseGaps(t)[k];
    }
  }

  /** Text without a gap is left as it is. */
  lemma {:induction false} CloseGapsIdentity(s: string)
    requires NoGaps(s)
    ensures CloseGaps(s) == s
    decreases |s|
  {
    if |s| > 0 {
      assert s == [s[0]] + s[1..];
      forall j | 0 <= j < |s| - 1 ensures !GapAt(s[1..], j) {
        GapShift([s[0]], s[1..], j);
      }
      CloseGapsIdentity(s[1..]);
    }
  }

  /** `CloseGaps` brings in no character but `>` and `<`. */
  lemma {:induction false} CloseGapsChars(s: string, c: char)
    requires c != '<' && c != '>' && c !in s
    ensures c !in CloseGaps(s)
    decreases |s|
  {
    if |s| > 0 {
      if GapAt(s, 0) {
        CloseGapsChars(s[SpaceRun(s, 1) + 1..], c);
      } else {
        CloseGapsChars(s[1..], c);
      }
    }
  }

  /** A line without a line feed has none once trimmed. */
  lemma {:induction false} TrimmedLineHasNoFeed(line: string)
    requires !Contains(line, "\n")
    ensures '\n' !in Trim(line)
  {
    TrimInfix(line);
    var t := Trim(line);
    var a, b :| 0 <= a <= b <= |line| && t == line[a..b];
    forall p | 0 <= p < |t| ensures t[p] != '\n' {
      assert t[p] == line[a + p];
      assert !OccursAt(line, "\n", a + p);
      assert line[a + p..a + p + 1] == [line[a + p]];
    }
  }

  /** The lines split off are free of line feeds, and stay so once trimmed. */
  lemma {:induction false} TrimmedLinesHaveNoFeed(s: string)
    ensures forall k :: 0 <= k < |TrimEach(Split(s, "\n"))| ==> '\n' !in TrimEach(Split(s, "\n"))[k]
  {
    var lines := Split(s, "\n");
    forall k | 0 <= k < |lines| ensures '\n' !in Trim(lines[k]) {
      TrimmedLineHasNoFeed(lines[k]);
    }
  }

  lemma {:induction false} JoinKeepsOut(parts: seq<string>, c: char)
    requires forall k :: 0 <= k < |parts| ==> c !in parts[k]
    ensures c !in Join(parts, "")
    decreases |parts|
  {
    if |parts| > 1 {
      JoinKeepsOut(parts[1..], c);
    }
  }

  /** The inlined text holds no line feed: every line was trimmed and the lines joined. */
  lemma {:induction false} InlineJoinsLines(s: string)
    requires Inline(s).Ok?
    ensures '\n' !in Inline(s).value
  {
    TrimmedLinesHaveNoFeed(s);
    JoinKeepsOut(TrimEach(Split(s, "\n")), '\n');
    CloseGapsChars(TrimLines(s), '\n');
  }

  /** The pieces of text joined into white space are white space. */
  lemma {:induction false} JoinedBlank(parts: seq<string>, sep: string)
    requires AllSpace(Join(parts, sep))
    ensures forall k :: 0 <= k < |parts| ==> AllSpace(parts[k])
    decreases |parts|
  {
    if |parts| > 1 {
      var rest := Join(parts[1..], sep);
      assert Join(parts, sep) == parts[0] + sep + rest;
      assert AllSpace(rest) by {
        forall k | 0 <= k < |rest| ensures IsSpace(rest[k]) {
          assert rest[k] == Join(parts, sep)[|parts[0]| + |sep| + k];
        }
      }
      JoinedBlank(parts[1..], sep);
      assert AllSpace(parts[0]) by {
        forall k | 0 <= k < |parts[0]| ensures IsSpace(parts[0][k]) {
          assert parts[0][k] == Join(parts, sep)[k];
        }
      }
      forall k | 1 <= k < |parts| ensures AllSpace(parts[k]) {
        assert parts[k] == parts[1..][k - 1];
      }
    }
  }

  lemma {:induction false} TrimBlank(p: string)
    requires AllSpace(p)
    ensures Trim(p) == ""
  {
    TrimStartSpec(p);
  }

  lemma {:induction false} JoinEmpty(parts: seq<string>)
    requires forall k :: 0 <= k < |parts| ==> parts[k] == ""
    ensures Join(parts, "") == ""
    decreases |parts|
  {
    if |parts| > 1 {
      JoinEmpty(parts[1..]);
    }
  }

  /** Text of white space only has no body once inlined. */
  lemma {:induction false} BlankHasNoBody(s: string)
    requires AllSpace(s)
    ensures Inline(s) == Err(XmlParserError("XML has no body."))
  {
    var lines := Split(s, "\n");
    JoinedBlank(lines, "\n");
    forall k | 0 <= k < |lines| ensures Trim(lines[k]) == "" {
      TrimBlank(lines[k]);
    }
    JoinEmpty(TrimEach(lines));
  }

  /** Text of white space only holds no declaration. */
  lemma {:induction false} BlankHasNoDefinition(s: string)
    requires AllSpace(s)
    ensures RemoveDefinition(s) == s
  {
    forall i: nat | i < |s| ensures Definitions(s)(i).None? {
      SpaceIsNoBracket(s[i]);
      if i + 5 <= |s| {
        assert s[i..i + 5][0] == s[i];
      }
      assert !OccursAt(s, "<?xml", i);
    }
    LeftmostNone(|s|, 0, Definitions(s));
  }

  lemma {:induction false} SpaceIsNoBracket(c: char)
    requires IsSpace(c)
    ensures c != '<' && c != '>'
  {
  }

  /** Plain text: no angle bracket and no line terminator. */
  predicate PlainText(t: string) {
    forall k :: 0 <= k < |t| ==> t[k] != '<' && t[k] != '>' && !IsLineTerminator(t[k])
  }

  /** A tag name the self-closing rewrite reads back: not starting with `!`, without a
      space or a slash. */
  predicate SimpleName(name: string) {
    && |name| > 0 && PlainText(name) && name[0] != '!'
    && forall k :: 0 <= k < |name| ==> name[k] != ' ' && name[k] != '/'
  }

  /** `<name attrs/>` becomes `<name attrs></name>`. */
  lemma {:induction false} EndTagsSelfClosing(name: string, attrs: string)
    requires SimpleName(name) && PlainText(attrs) && (attrs == "" || attrs[0] == ' ')
    ensures EndTags("<" + name + attrs + "/>") == "<" + name + attrs + "></" + name + ">"
  {
    var s := "<" + name + attrs + "/>";
    var n := |s|;
    SelfClosedSingle(name, attrs);
    SingleTagName(name, attrs);
    EndTagsWhole(s, name);
    assert s[..n - 2] == "<" + name + attrs;
  }

  /** A lone self-closing tag with no `>` and no line break before its end. */
  predicate SingleTag(s: string) {
    && |s| >= 3 && s[0] == '<' && s[1] != '!' && s[|s| - 2..] == "/>"
    && forall k :: 0 <= k < |s| - 1 ==> s[k] != '>' && !IsLineTerminator(s[k])
  }

  lemma {:induction false} SelfClosedSingle(name: string, attrs: string)
    requires SimpleName(name) && PlainText(attrs)
    ensures SingleTag("<" + name + attrs + "/>")
  {
    var s := "<" + name + attrs + "/>";
    var n := |s|;
    forall k | 0 <= k < n - 1 ensures s[k] != '>' && !IsLineTerminator(s[k]) {
      if 1 <= k < 1 + |name| {
        assert s[k] == name[k - 1];
      } else if 1 + |name| <= k < n - 2 {
        assert s[k] == attrs[k - 1 - |name|];
      }
    }
  }

  lemma {:induction false} SingleTagName(name: string, attrs: string)
    requires SimpleName(name) && PlainText(attrs) && (attrs == "" || attrs[0] == ' ')
    requires SingleTag("<" + name + attrs + "/>")
    ensures TagName("<" + name + attrs + "/>") == Some(name)
  {
    var s := "<" + name + attrs + "/>";
    var inner := ReplaceFirst(Split(s[1..|s| - 1], " ")[0], "/", "");
    assert inner == name by { SplitName(name, attrs); }
    assert TagName(s) == Some(inner) by { SingleTagInner(s); }
  }

  lemma {:induction false} SingleTagInner(s: string)
    requires SingleTag(s)
    ensures TagName(s) == Some(ReplaceFirst(Split(s[1..|s| - 1], " ")[0], "/", ""))
  {
    assert s[|s| - 2] == '/' && s[|s| - 1] == '>';
    OpeningWhole(s);
  }

  /** A lone self-closing tag is its own only match, and gets its closing tag. */
  lemma {:induction false} EndTagsWhole(s: string, name: string)
    requires SingleTag(s) && TagName(s) == Some(name)
    ensures EndTags(s) == s[..|s| - 2] + "></" + name + ">"
  {
    SelfClosingWhole(s);
    LeftmostAt(|s|, 0, SelfClosings(s), 0);
    assert s[0..|s|] == s;
    AllMatchesOne(s, SelfClosings(s), 0);
    assert EndTags(s) == CloseAll(CloseOne(s, s), []);
    CloseOneWhole(s, name);
  }

  lemma {:induction false} CloseOneWhole(s: string, name: string)
    requires SingleTag(s) && TagName(s) == Some(name)
    ensures CloseOne(s, s) == s[..|s| - 2] + "></" + name + ">"
  {
    CloseOneSelf(s, name);
    SlashClosed(s, name);
  }

  /** The lone tag is the one match, replaced by itself and its closing tag. */
  lemma {:induction false} CloseOneSelf(s: string, name: string)
    requires SingleTag(s) && TagName(s) == Some(name)
    ensures CloseOne(s, s) == ReplaceFirst(s + "</" + name + ">", "/>", ">")
  {
    NoInnerPair(s);
    SelfClosingWhole(s);
    LeftmostAt(|s|, 0, SelfClosings(s), 0);
    CloseOneAt(s, s, name);
    ReplaceWhole(s, s + "</" + name + ">");
  }

  /** The first `/>` of the tag followed by its closing tag is the tag's own. */
  lemma {:induction false} SlashClosed(s: string, name: string)
    requires SingleTag(s)
    ensures ReplaceFirst(s + "</" + name + ">", "/>", ">") == s[..|s| - 2] + "></" + name + ">"
  {
    var t := s + "</" + name + ">";
    FirstSlashClose(s, t);
    CloseTail(s, name, t);
  }

  /** A single tag holds no `><`. */
  lemma {:induction false} NoInnerPair(s: string)
    requires SingleTag(s)
    ensures LastIndexOf(s, "><") == -1
  {
    forall i | 0 <= i ensures !OccursAt(s, "><", i) {
      if i + 2 <= |s| {
        assert s[i..i + 2][0] == s[i];
      }
    }
  }

  lemma {:induction false} ReplaceWhole(s: string, t: string)
    ensures ReplaceFirst(s, s, t) == t
  {
    assert OccursAt(s, s, 0);
  }

  lemma {:induction false} CloseTail(s: string, name: string, t: string)
    requires |s| >= 2 && t == s + "</" + name + ">"
    ensures t[..|s| - 2] + ">" + t[|s|..] == s[..|s| - 2] + "></" + name + ">"
  {
    assert t[..|s| - 2] == s[..|s| - 2];
    assert t[|s|..] == "</" + name + ">";
  }

  /** A match with no `><` inside that is itself the pattern's match. */
  lemma {:induction false} CloseOneAt(xml: string, one: string, name: string)
    requires LastIndexOf(one, "><") == -1
    requires Leftmost(|one|, 0, SelfClosings(one)) == Some(0)
    requires SelfClosingAt(one, 0) == Some(|one|)
    requires TagName(one) == Some(name)
    ensures CloseOne(xml, one) == ReplaceFirst(ReplaceFirst(xml, one, one + "</" + name + ">"), "/>", ">")
  {
    assert one[0..] == one;
    assert one[0..|one|] == one;
  }

  /** The whole tag is the one self-closing match. */
  lemma {:induction false} SelfClosingWhole(s: string)
    requires |s| >= 3 && s[0] == '<' && s[|s| - 2..] == "/>"
    requires forall k :: 0 <= k < |s| - 1 ==> s[k] != '>' && !IsLineTerminator(s[k])
    ensures SelfClosingAt(s, 0) == Some(|s|)
    ensures forall i: nat :: 0 < i ==> SelfClosingAt(s, i).None? || SelfClosingAt(s, i) == Some(|s|)
  {
    SelfClosingScan(s, 1);
    forall i: nat | 0 < i ensures SelfClosingAt(s, i).None? || SelfClosingAt(s, i) == Some(|s|) {
      if i + 1 <= |s| {
        SelfClosingScan(s, i + 1);
      }
    }
  }

  lemma {:induction false} SelfClosingScan(s: string, q: nat)
    requires |s| >= 3 && q <= |s| && s[|s| - 2..] == "/>"
    requires forall k :: 0 <= k < |s| - 1 ==> s[k] != '>' && !IsLineTerminator(s[k])
    ensures q <= |s| - 2 ==> SelfClosingFrom(s, q) == Some(|s|)
    ensures q > |s| - 2 ==> SelfClosingFrom(s, q).None?
    decreases |s| - q
  {
    if q < |s| - 3 {
      assert !OccursAt(s, "/>", q + 1) by { assert s[q + 1..q + 3][1] == s[q + 2] != '>'; }
      assert !OccursAt(s, "/>", q) by { assert s[q..q + 2][1] == s[q + 1] != '>'; }
      SelfClosingScan(s, q + 1);
    } else if q == |s| - 3 {
      assert OccursAt(s, "/>", q + 1);
      assert !OccursAt(s, "/>", q) by { assert s[q..q + 2][1] == s[q + 1] != '>'; }
    } else if q == |s| - 2 {
      assert OccursAt(s, "/>", q);
    } else if q == |s| - 1 {
      assert !OccursAt(s, "/>", q);
      assert s[q] == '>';
      if q + 1 < |s| {
        assert false;
      }
    }
  }

  /** The opening pattern reads the whole tag up to its final `>`. */
  lemma {:induction false} OpeningWhole(s: string)
    requires |s| >= 3 && s[0] == '<' && s[1] != '!' && s[|s| - 2] == '/' && s[|s| - 1] == '>'
    requires forall k :: 0 <= k < |s| - 1 ==> s[k] != '>' && !IsLineTerminator(s[k])
    ensures Leftmost(|s|, 0, Openings(s)) == Some(0)
    ensures OpeningAt(s, 0) == Some(|s| - 1)
  {
    OpeningScan(s, 2);
  }

  lemma {:induction false} OpeningScan(s: string, q: nat)
    requires |s| >= 3 && 2 <= q <= |s| - 1 && s[|s| - 2] == '/' && s[|s| - 1] == '>'
    requires forall k :: 0 <= k < |s| - 1 ==> s[k] != '>' && !IsLineTerminator(s[k])
    ensures OpeningFrom(s, q) == Some(|s| - 1)
    decreases |s| - q
  {
    if q < |s| - 1 {
      OpeningScan(s, q + 1);
    }
  }

  /** The name part splits off at the first space, and its slash goes. */
  lemma {:induction false} SplitName(name: string, attrs: string)
    requires SimpleName(name) && PlainText(attrs) && (attrs == "" || attrs[0] == ' ')
    ensures var s := "<" + name + attrs + "/>";
      ReplaceFirst(Split(s[1..|s| - 1], " ")[0], "/", "") == name
  {
    var s := "<" + name + attrs + "/>";
    assert s[1..|s| - 1] == name + attrs + "/";
    if attrs == "" {
      assert name + attrs + "/" == name + "/";
      SplitBareName(name);
    } else {
      SplitNameAttrs(name, attrs);
    }
  }

  /** `name/` has no space, and its first slash follows the name. */
  lemma {:induction false} SplitBareName(name: string)
    requires SimpleName(name)
    ensures ReplaceFirst(Split(name + "/", " ")[0], "/", "") == name
  {
    var inner := name + "/";
    forall k | 0 <= k ensures !OccursAt(inner, " ", k) {
      if k < |inner| {
        assert inner[k] != ' ';
      }
    }
    var head := Split(inner, " ")[0];
    assert head == inner;
    assert OccursAt(head, "/", |name|);
    forall k | 0 <= k < |name| ensures !OccursAt(head, "/", k) {
      assert head[k] == name[k];
    }
    assert IndexOf(head, "/") == |name|;
    assert head[..|name|] == name;
  }

  /** `name attrs/` splits at the space after the name, and the name has no slash. */
  lemma {:induction false} SplitNameAttrs(name: string, attrs: string)
    requires SimpleName(name) && |attrs| > 0 && attrs[0] == ' '
    ensures ReplaceFirst(Split(name + attrs + "/", " ")[0], "/", "") == name
  {
    var inner := name + attrs + "/";
    forall k | 0 <= k < |name| ensures !OccursAt(inner, " ", k) {
      assert inner[k] == name[k];
    }
    assert OccursAt(inner, " ", |name|);
    assert IndexOf(inner, " ") == |name|;
    var head := Split(inner, " ")[0];
    assert head == name;
    forall k | 0 <= k ensures !OccursAt(head, "/", k) {
      if k < |head| {
        assert head[k] == name[k] && head[k] != '/';
      }
    }
  }

  /** The first `/>` of the text with its closing tag appended is the tag's own. */
  lemma {:induction false} FirstSlashClose(s: string, t: string)
    requires |s| >= 3 && s[|s| - 2..] == "/>" && |t| >= |s| && t[..|s|] == s
    requires forall k :: 0 <= k < |s| - 1 ==> s[k] != '>'
    ensures ReplaceFirst(t, "/>", ">") == t[..|s| - 2] + ">" + t[|s|..]
  {
    assert OccursAt(t, "/>", |s| - 2);
    forall k | 0 <= k < |s| - 2 ensures !OccursAt(t, "/>", k) {
      assert t[k + 1] == s[k + 1];
    }
    assert IndexOf(t, "/>") == |s| - 2;
  }

  /** A comment is removed where it stands when it is the only one: no `<!--` starts
      before it or after it. */
  lemma {:induction false} RemoveCommentsOne(s: string, i: nat)
    requires CommentAt(s, i).Some?
    requires forall j :: 0 <= j < i ==> !OccursAt(s, "<!--", j)
    requires forall j :: CommentAt(s, i).value <= j ==> !OccursAt(s, "<!--", j)
    ensures RemoveComments(s) == s[..i] + s[CommentAt(s, i).value..]
  {
    OneCommentDropped(s, i);
    DropComment(s, i);
  }

  lemma {:induction false} OneCommentDropped(s: string, i: nat)
    requires CommentAt(s, i).Some?
    requires forall j :: 0 <= j < i ==> !OccursAt(s, "<!--", j)
    requires forall j :: CommentAt(s, i).value <= j ==> !OccursAt(s, "<!--", j)
    ensures RemoveComments(s) == ReplaceFirst(s, s[i..CommentAt(s, i).value], "")
  {
    var m := s[i..CommentAt(s, i).value];
    OnlyComment(s, i);
    AllMatchesOne(s, Comments(s), i);
    assert DropAll(s, [m]) == DropAll(ReplaceFirst(s, m, ""), []);
  }

  /** Removing the first comment's text removes it where it stands. */
  lemma {:induction false} DropComment(s: string, i: nat)
    requires CommentAt(s, i).Some?
    requires forall j :: 0 <= j < i ==> !OccursAt(s, "<!--", j)
    ensures ReplaceFirst(s, s[i..CommentAt(s, i).value], "") == s[..i] + s[CommentAt(s, i).value..]
  {
    var m := s[i..CommentAt(s, i).value];
    CommentFirstAt(s, i);
    ReplaceFirstAt(s, m, i, "");
  }

  /** The comment at `i` is the only match. */
  lemma {:induction false} OnlyComment(s: string, i: nat)
    requires CommentAt(s, i).Some?
    requires forall j :: 0 <= j < i ==> !OccursAt(s, "<!--", j)
    requires forall j :: CommentAt(s, i).value <= j ==> !OccursAt(s, "<!--", j)
    ensures Leftmost(|s|, 0, Comments(s)) == Some(i)
    ensures Leftmost(|s|, Comments(s)(i).value, Comments(s)).None?
  {
    forall j: nat | j < i ensures Comments(s)(j).None? {
      assert !OccursAt(s, "<!--", j);
    }
    LeftmostAt(|s|, 0, Comments(s), i);
    forall j: nat | CommentAt(s, i).value <= j < |s| ensures Comments(s)(j).None? {
      assert !OccursAt(s, "<!--", j);
    }
  }

  /** The comment's text does not occur before the comment. */
  lemma {:induction false} CommentFirstAt(s: string, i: nat)
    requires CommentAt(s, i).Some?
    requires forall j :: 0 <= j < i ==> !OccursAt(s, "<!--", j)
    ensures forall j :: 0 <= j < i ==> !OccursAt(s, s[i..CommentAt(s, i).value], j)
  {
    var e := CommentAt(s, i).value;
    var m := s[i..e];
    SliceOccurs(s, i, e, "<!--", 0);
    forall j | 0 <= j < i ensures !OccursAt(s, m, j) {
      if j + |m| <= |s| && s[j..j + |m|] == m {
        SliceOccurs(s, j, j + |m|, "<!--", 0);
      }
    }
  }

  // ---------------------------------------------------------------- comments, any number

  /** The text of a comment: no `>` and no line break, so its lazy run ends at its own
      `-->`. */
  predicate CommentBody(b: string) {
    forall k :: 0 <= k < |b| ==> b[k] != '>' && !IsLineTerminator(b[k])
  }

  function Comment(b: string): string {
    "<!--" + b + "-->"
  }

  /** Text around comments: no `<!--` in it, and no last character that could start one
      across a join. */
  predicate Uncommented(t: string) {
    && (forall j :: 0 <= j < |t| ==> !OccursAt(t, "<!--", j))
    && (|t| > 0 ==> t[|t| - 1] != '<' && t[|t| - 1] != '!' && t[|t| - 1] != '-')
  }

  /** `ts[0]`, the first comment, `ts[1]`, the second comment, …, the last text. */
  function Commented(ts: seq<string>, bs: seq<string>): string
    requires |ts| == |bs| + 1
    decreases |bs|
  {
    if |bs| == 0 then ts[0] else ts[0] + Comment(bs[0]) + Commented(ts[1..], bs[1..])
  }

  function Concat(ts: seq<string>): string
    decreases |ts|
  {
    if |ts| == 0 then "" else ts[0] + Concat(ts[1..])
  }

  function CommentTexts(bs: seq<string>): (r: seq<string>)
    ensures |r| == |bs|
    decreases |bs|
  {
    if |bs| == 0 then [] else [Comment(bs[0])] + CommentTexts(bs[1..])
  }

  /** Every comment is cut out and the text between the comments is kept, whatever their
      number. */
  lemma {:induction false} RemoveCommentsAll(ts: seq<string>, bs: seq<string>)
    requires |ts| == |bs| + 1
    requires forall i :: 0 <= i < |ts| ==> Uncommented(ts[i])
    requires forall i :: 0 <= i < |bs| ==> CommentBody(bs[i])
    ensures RemoveComments(Commented(ts, bs)) == Concat(ts)
  {
    var s := Commented(ts, bs);
    assert s[0..] == s;
    CommentMatches(s, 0, ts, bs);
    DropComments("", ts, bs);
    assert "" + s == s && "" + Concat(ts) == Concat(ts);
  }

  /** The global comment match lists the comments, in order. */
  lemma {:induction false} CommentMatches(s: string, a: nat, ts: seq<string>, bs: seq<string>)
    requires |ts| == |bs| + 1 && a <= |s| && s[a..] == Commented(ts, bs)
    requires forall i :: 0 <= i < |ts| ==> Uncommented(ts[i])
    requires forall i :: 0 <= i < |bs| ==> CommentBody(bs[i])
    ensures AllMatches(s, a, Comments(s)) == CommentTexts(bs)
    decreases |bs|
  {
    if |bs| == 0 {
      NoCommentAfter(s, a, ts[0]);
    } else {
      var i, e := CommentLeads(s, a, ts, bs);
      CommentStep(s, a, i, e);
      TailsAround(ts, bs);
      CommentMatches(s, e, ts[1..], bs[1..]);
      assert CommentTexts(bs) == [Comment(bs[0])] + CommentTexts(bs[1..]);
    }
  }

  /** The first match is the first comment; after it come the rest of the comments and
      the text around them. */
  lemma {:induction false} CommentLeads(s: string, a: nat, ts: seq<string>, bs: seq<string>)
    returns (i: nat, e: nat)
    requires |ts| == |bs| + 1 && |bs| > 0 && a <= |s| && s[a..] == Commented(ts, bs)
    requires Uncommented(ts[0]) && CommentBody(bs[0])
    ensures i <= e <= |s| && s[i..e] == Comment(bs[0]) && s[e..] == Commented(ts[1..], bs[1..])
    ensures NextComment(s, a, i, e)
  {
    var rest := Commented(ts[1..], bs[1..]);
    CommentedHead(ts, bs);
    Pieces(s, a, ts[0], Comment(bs[0]), rest);
    i, e := CommentFound(s, a, ts[0], bs[0]);
  }

  lemma {:induction false} CommentedHead(ts: seq<string>, bs: seq<string>)
    requires |ts| == |bs| + 1 && |bs| > 0
    ensures Commented(ts, bs) == ts[0] + Comment(bs[0]) + Commented(ts[1..], bs[1..])
  {
  }

  /** The leftmost comment from `a` lies at `i` and is matched up to `e`. */
  predicate NextComment(s: string, a: nat, i: nat, e: nat)
    requires a <= |s|
  {
    Leftmost(|s|, a, Comments(s)) == Some(i) && CommentAt(s, i) == Some(e)
  }

  lemma {:induction false} CommentStep(s: string, a: nat, i: nat, e: nat)
    requires a <= |s| && NextComment(s, a, i, e)
    ensures AllMatches(s, a, Comments(s)) == [s[i..e]] + AllMatches(s, e, Comments(s))
  {
    assert Comments(s)(i) == Some(e);
    AllMatchesNext(s, a, Comments(s), i, e);
  }

  lemma {:induction false} TailsAround(ts: seq<string>, bs: seq<string>)
    requires |ts| == |bs| + 1 && |bs| > 0
    requires forall i :: 0 <= i < |ts| ==> Uncommented(ts[i])
    requires forall i :: 0 <= i < |bs| ==> CommentBody(bs[i])
    ensures forall i :: 0 <= i < |ts| - 1 ==> Uncommented(ts[1..][i])
    ensures forall i :: 0 <= i < |bs| - 1 ==> CommentBody(bs[1..][i])
  {
    forall k | 0 <= k < |ts| - 1 ensures Uncommented(ts[1..][k]) {
      assert ts[1..][k] == ts[k + 1];
    }
    forall k | 0 <= k < |bs| - 1 ensures CommentBody(bs[1..][k]) {
      assert bs[1..][k] == bs[k + 1];
    }
  }

  /** Text around comments at the end holds no further match. */
  lemma {:induction false} NoCommentAfter(s: string, a: nat, t: string)
    requires a <= |s| && s[a..] == t && Uncommented(t)
    ensures AllMatches(s, a, Comments(s)) == []
  {
    assert s[a..|s|] == t;
    NoOpenerIn(s, a, |s|, t);
    forall j | a <= j < |s| ensures Comments(s)(j).None? {
      assert !OccursAt(s, "<!--", j);
    }
    LeftmostNone(|s|, a, Comments(s));
  }

  /** The first comment after text around comments is the leftmost match, and is matched
      whole. */
  lemma {:induction false} CommentFound(s: string, a: nat, t: string, b: string)
    returns (i: nat, e: nat)
    requires a + |t| + |Comment(b)| <= |s| && Uncommented(t) && CommentBody(b)
    requires s[a..a + |t|] == t && s[a + |t|..a + |t| + |Comment(b)|] == Comment(b)
    ensures i == a + |t| && e == i + |Comment(b)| && NextComment(s, a, i, e)
  {
    i, e := a + |t|, a + |t| + |Comment(b)|;
    CommentAtBody(s, i, b);
    NoOpenerIn(s, a, i, t);
    LeftmostComment(s, a, i, e);
  }

  lemma {:induction false} LeftmostComment(s: string, a: nat, i: nat, e: nat)
    requires a <= i <= |s| && CommentAt(s, i) == Some(e)
    requires forall j :: a <= j < i ==> !OccursAt(s, "<!--", j)
    ensures NextComment(s, a, i, e)
  {
    forall j | a <= j < i ensures Comments(s)(j).None? {
      assert !OccursAt(s, "<!--", j);
    }
    LeftmostAt(|s|, a, Comments(s), i);
  }

  /** Text made of three parts at `a` holds each where it stands. */
  lemma {:induction false} Pieces(s: string, a: nat, t: string, c: string, rest: string)
    requires a <= |s| && s[a..] == t + c + rest
    ensures a + |t| + |c| <= |s|
    ensures s[a..a + |t|] == t && s[a + |t|..a + |t| + |c|] == c && s[a + |t| + |c|..] == rest
  {
    var x := s[a..];
    assert x[..|t|] == t && x[|t|..|t| + |c|] == c && x[|t| + |c|..] == rest;
    assert s[a..a + |t|] == x[..|t|];
    assert s[a + |t|..a + |t| + |c|] == x[|t|..|t| + |c|];
    assert s[a + |t| + |c|..] == x[|t| + |c|..];
  }

  /** No `<!--` starts inside text around comments, even one that would run past it. */
  lemma {:induction false} NoOpenerIn(s: string, a: nat, i: nat, t: string)
    requires a <= i <= |s| && s[a..i] == t && Uncommented(t)
    ensures forall j :: a <= j < i ==> !OccursAt(s, "<!--", j)
  {
    forall j | a <= j < i ensures !OccursAt(s, "<!--", j) {
      if j + 4 <= i {
        SliceOccurs(s, a, i, "<!--", j - a);
      } else if j + 4 <= |s| {
        var k := i - 1 - j;
        assert s[j..j + 4][k] == s[i - 1] == t[|t| - 1];
        assert "<!--"[k] == '<' || "<!--"[k] == '!' || "<!--"[k] == '-';
      }
    }
  }

  /** A comment at `i` is matched whole: its lazy run ends at its own `-->`. */
  lemma {:induction false} CommentAtBody(s: string, i: nat, b: string)
    requires i + |Comment(b)| <= |s| && s[i..i + |Comment(b)|] == Comment(b) && CommentBody(b)
    ensures CommentAt(s, i) == Some(i + |Comment(b)|)
  {
    var at := CommentEnds(s, i, b);
    CommentLazy(s, i, b, at);
    CommentAtLazy(s, i, at, i + |Comment(b)|);
  }

  lemma {:induction false} CommentEnds(s: string, i: nat, b: string) returns (at: nat)
    requires i + |Comment(b)| <= |s| && s[i..i + |Comment(b)|] == Comment(b)
    ensures at == i + 4 + |b| && at + 3 == i + |Comment(b)|
    ensures OccursAt(s, "<!--", i) && OccursAt(s, "-->", at)
  {
    var c := Comment(b);
    at := i + 4 + |b|;
    assert s[i..i + 4] == c[..4] == "<!--";
    assert s[at..at + 3] == c[4 + |b|..] == "-->";
  }

  /** The lazy run inside a comment stops at the comment's own `-->`. */
  lemma {:induction false} CommentLazy(s: string, i: nat, b: string, at: nat)
    requires i + |Comment(b)| <= |s| && s[i..i + |Comment(b)|] == Comment(b) && CommentBody(b)
    requires at == i + 4 + |b| && OccursAt(s, "-->", at)
    ensures LazyTo(s, i + 4, "-->") == Some(at)
  {
    forall p | i + 4 <= p < at ensures !OccursAt(s, "-->", p) && !IsLineTerminator(s[p]) {
      InsideComment(s, i, b, p);
    }
    LazyToFirst(s, i + 4, "-->", at);
  }

  lemma {:induction false} CommentAtLazy(s: string, i: nat, at: nat, e: nat)
    requires i + 4 <= |s| && OccursAt(s, "<!--", i) && LazyTo(s, i + 4, "-->") == Some(at)
    requires e == at + 3
    ensures CommentAt(s, i) == Some(e)
  {
  }

  lemma {:induction false} InsideComment(s: string, i: nat, b: string, p: nat)
    requires i + |Comment(b)| <= |s| && s[i..i + |Comment(b)|] == Comment(b) && CommentBody(b)
    requires i + 4 <= p < i + 4 + |b|
    ensures !OccursAt(s, "-->", p) && !IsLineTerminator(s[p])
  {
    var c := Comment(b);
    assert s[p] == c[p - i] == b[p - i - 4];
    assert s[p + 2] == c[p + 2 - i];
    if p + 2 < i + 4 + |b| {
      assert c[p + 2 - i] == b[p + 2 - i - 4];
    }
    assert s[p..p + 3][2] == s[p + 2];
  }

  /** Dropping the comments one after the other, each at its first occurrence, keeps the
      text between them. */
  lemma {:induction false} DropComments(p: string, ts: seq<string>, bs: seq<string>)
    requires |ts| == |bs| + 1 && Uncommented(p)
    requires forall i :: 0 <= i < |ts| ==> Uncommented(ts[i])
    ensures DropAll(p + Commented(ts, bs), CommentTexts(bs)) == p + Concat(ts)
    decreases |bs|
  {
    if |bs| == 0 {
      assert Concat(ts) == ts[0] + Concat(ts[1..]);
      assert ts[1..] == [];
    } else {
      var q := p + ts[0];
      UncommentedJoin(p, ts[0]);
      DropFirst(p, ts, bs);
      UncommentedTail(ts);
      DropComments(q, ts[1..], bs[1..]);
      ConcatStep(p, ts);
    }
  }

  lemma {:induction false} UncommentedTail(ts: seq<string>)
    requires |ts| > 0 && forall i :: 0 <= i < |ts| ==> Uncommented(ts[i])
    ensures forall i :: 0 <= i < |ts| - 1 ==> Uncommented(ts[1..][i])
  {
    forall k | 0 <= k < |ts| - 1 ensures Uncommented(ts[1..][k]) {
      assert ts[1..][k] == ts[k + 1];
    }
  }

  lemma {:induction false} ConcatStep(p: string, ts: seq<string>)
    requires |ts| > 0
    ensures p + ts[0] + Concat(ts[1..]) == p + Concat(ts)
  {
  }

  /** The first comment goes first, and the rest are dropped from what is left. */
  lemma {:induction false} DropFirst(p: string, ts: seq<string>, bs: seq<string>)
    requires |ts| == |bs| + 1 && |bs| > 0 && Uncommented(p + ts[0])
    ensures DropAll(p + Commented(ts, bs), CommentTexts(bs))
      == DropAll(p + ts[0] + Commented(ts[1..], bs[1..]), CommentTexts(bs[1..]))
  {
    var c := Comment(bs[0]);
    var rest := Commented(ts[1..], bs[1..]);
    var q := p + ts[0];
    assert p + Commented(ts, bs) == q + c + rest;
    FirstComment(q, bs[0], rest);
    assert CommentTexts(bs)[0] == c && CommentTexts(bs)[1..] == CommentTexts(bs[1..]);
  }

  /** The first occurrence of a comment after text around comments is that comment. */
  lemma {:induction false} FirstComment(q: string, b: string, rest: string)
    requires Uncommented(q)
    ensures ReplaceFirst(q + Comment(b) + rest, Comment(b), "") == q + rest
  {
    var c := Comment(b);
    var x := q + c + rest;
    assert x[..|q|] == q;
    NoOpenerIn(x, 0, |q|, q);
    forall j | 0 <= j < |q| ensures !OccursAt(x, c, j) {
      OpenerOfComment(x, b, j);
    }
    assert x[|q|..|q| + |c|] == c;
    ReplaceFirstAt(x, c, |q|, "");
    assert x[|q| + |c|..] == rest;
  }

  lemma {:induction false} OpenerOfComment(x: string, b: string, j: nat)
    ensures OccursAt(x, Comment(b), j) ==> OccursAt(x, "<!--", j)
  {
    var c := Comment(b);
    if OccursAt(x, c, j) {
      assert x[j..j + 4] == x[j..j + |c|][..4] == c[..4];
    }
  }

  lemma {:induction false} UncommentedJoin(a: string, b: string)
    requires Uncommented(a) && Uncommented(b)
    ensures Uncommented(a + b)
  {
    var x := a + b;
    assert x[..|a|] == a && x[|a|..] == b && x[|a|..|x|] == b;
    NoOpenerIn(x, 0, |a|, a);
    forall j | |a| <= j < |x| ensures !OccursAt(x, "<!--", j) {
      if j + 4 <= |x| {
        SliceOccurs(x, |a|, |x|, "<!--", j - |a|);
      }
    }
    if |b| > 0 {
      assert x[|x| - 1] == b[|b| - 1];
    } else if |a| > 0 {
      assert x[|x| - 1] == a[|a| - 1];
    }
  }

  // ---------------------------------------------------------------- self-closing tags, any number

  /** A self-closing tag the rewrite reads back. Its attribute text is empty or starts with a
      space, and does not end with a slash, which would put a `/>` into the closed tag. */
  datatype EmptyTag = EmptyTag(name: string, attrs: string)

  predicate Readable(c: EmptyTag) {
    && SimpleName(c.name) && PlainText(c.attrs)
    && (c.attrs == "" || (c.attrs[0] == ' ' && c.attrs[|c.attrs| - 1] != '/'))
  }

  function SelfClosed(c: EmptyTag): string {
    "<" + c.name + c.attrs + "/>"
  }

  function Closed(c: EmptyTag): string {
    "<" + c.name + c.attrs + "></" + c.name + ">"
  }

  predicate NoSlashClose(t: string) {
    forall j :: 0 <= j < |t| ==> !OccursAt(t, "/>", j)
  }

  /** Text between self-closing tags: no `/>` and no line break in it, and when it holds a
      `<` it ends with `>`, so that a match running from that `<` is cut at the `><` just
      before the tag. */
  predicate Between(t: string) {
    && NoSlashClose(t)
    && (forall k :: 0 <= k < |t| ==> !IsLineTerminator(t[k]))
    && (forall k :: 0 <= k < |t| && t[k] == '<' ==> t[|t| - 1] == '>')
  }

  /** `ts[0]`, the first tag written with `/>`, `ts[1]`, …, the last text. */
  function WithSelfClosed(ts: seq<string>, cs: seq<EmptyTag>): string
    requires |ts| == |cs| + 1
    decreases |cs|
  {
    if |cs| == 0 then ts[0] else ts[0] + SelfClosed(cs[0]) + WithSelfClosed(ts[1..], cs[1..])
  }

  /** The same text with every tag given its closing tag. */
  function WithClosed(ts: seq<string>, cs: seq<EmptyTag>): string
    requires |ts| == |cs| + 1
    decreases |cs|
  {
    if |cs| == 0 then ts[0] else ts[0] + Closed(cs[0]) + WithClosed(ts[1..], cs[1..])
  }

  /** Where the first `<` of `t` is, or its length when it has none. */
  function FirstOpen(t: string): (r: nat)
    ensures r <= |t| && (r < |t| ==> t[r] == '<')
    ensures forall k :: 0 <= k < r ==> t[k] != '<'
    decreases |t|
  {
    if |t| == 0 || t[0] == '<' then 0
    else
      var r := 1 + FirstOpen(t[1..]);
      assert forall k :: 1 <= k < r ==> t[k] == t[1..][k - 1];
      r
  }

  /** The matches of the global pattern: each runs from the first `<` of the text before a
      tag to the end of that tag. */
  function Runs(ts: seq<string>, cs: seq<EmptyTag>): (r: seq<string>)
    requires |ts| == |cs| + 1
    ensures |r| == |cs|
    decreases |cs|
  {
    if |cs| == 0 then [] else [ts[0][FirstOpen(ts[0])..] + SelfClosed(cs[0])] + Runs(ts[1..], cs[1..])
  }

  /** Every self-closing tag gets its closing tag, in place, whatever their number. */
  lemma {:induction false} EndTagsAll(ts: seq<string>, cs: seq<EmptyTag>)
    requires |ts| == |cs| + 1
    requires forall i :: 0 <= i < |ts| ==> Between(ts[i])
    requires forall i :: 0 <= i < |cs| ==> Readable(cs[i])
    ensures EndTags(WithSelfClosed(ts, cs)) == WithClosed(ts, cs)
  {
    var s := WithSelfClosed(ts, cs);
    assert s[0..] == s;
    RunMatches(s, 0, ts, cs);
    CloseRuns("", ts, cs);
    assert "" + s == s && "" + WithClosed(ts, cs) == WithClosed(ts, cs);
  }

  /** The global self-closing match lists the runs, in order. */
  lemma {:induction false} RunMatches(s: string, a: nat, ts: seq<string>, cs: seq<EmptyTag>)
    requires |ts| == |cs| + 1 && a <= |s| && s[a..] == WithSelfClosed(ts, cs)
    requires forall i :: 0 <= i < |ts| ==> Between(ts[i])
    requires forall i :: 0 <= i < |cs| ==> Readable(cs[i])
    ensures AllMatches(s, a, SelfClosings(s)) == Runs(ts, cs)
    decreases |cs|
  {
    if |cs| == 0 {
      NoRunAfter(s, a, ts[0]);
    } else {
      var i, e := RunLeads(s, a, ts, cs);
      RunStep(s, a, i, e);
      TailsBetween(ts, cs);
      RunMatches(s, e, ts[1..], cs[1..]);
      RunsCons(s[i..e], AllMatches(s, e, SelfClosings(s)), ts, cs);
    }
  }

  lemma {:induction false} RunsCons(m: string, ms: seq<string>, ts: seq<string>, cs: seq<EmptyTag>)
    requires |ts| == |cs| + 1 && |cs| > 0
    requires m == ts[0][FirstOpen(ts[0])..] + SelfClosed(cs[0]) && ms == Runs(ts[1..], cs[1..])
    ensures [m] + ms == Runs(ts, cs)
  {
  }

  lemma {:induction false} WithSelfClosedHead(ts: seq<string>, cs: seq<EmptyTag>)
    requires |ts| == |cs| + 1 && |cs| > 0
    ensures WithSelfClosed(ts, cs) == ts[0] + SelfClosed(cs[0]) + WithSelfClosed(ts[1..], cs[1..])
  {
  }

  /** The first match is the first run; after it come the rest of the tags and the text
      between them. */
  lemma {:induction false} RunLeads(s: string, a: nat, ts: seq<string>, cs: seq<EmptyTag>)
    returns (i: nat, e: nat)
    requires |ts| == |cs| + 1 && |cs| > 0 && a <= |s| && s[a..] == WithSelfClosed(ts, cs)
    requires Between(ts[0]) && Readable(cs[0])
    ensures i <= e <= |s| && s[i..e] == ts[0][FirstOpen(ts[0])..] + SelfClosed(cs[0])
    ensures s[e..] == WithSelfClosed(ts[1..], cs[1..]) && NextRun(s, a, i, e)
  {
    var rest := WithSelfClosed(ts[1..], cs[1..]);
    WithSelfClosedHead(ts, cs);
    SelfClosedSingle(cs[0].name, cs[0].attrs);
    Pieces(s, a, ts[0], SelfClosed(cs[0]), rest);
    i, e := RunFound(s, a, ts[0], SelfClosed(cs[0]));
  }

  lemma {:induction false} TailsBetween(ts: seq<string>, cs: seq<EmptyTag>)
    requires |ts| == |cs| + 1 && |cs| > 0
    requires forall i :: 0 <= i < |ts| ==> Between(ts[i])
    requires forall i :: 0 <= i < |cs| ==> Readable(cs[i])
    ensures forall i :: 0 <= i < |ts| - 1 ==> Between(ts[1..][i])
    ensures forall i :: 0 <= i < |cs| - 1 ==> Readable(cs[1..][i])
  {
    forall k | 0 <= k < |ts| - 1 ensures Between(ts[1..][k]) {
      assert ts[1..][k] == ts[k + 1];
    }
    forall k | 0 <= k < |cs| - 1 ensures Readable(cs[1..][k]) {
      assert cs[1..][k] == cs[k + 1];
    }
  }

  /** Text between tags at the end holds no further match: no `/>` follows it. */
  lemma {:induction false} NoRunAfter(s: string, a: nat, t: string)
    requires a <= |s| && s[a..] == t && Between(t)
    ensures AllMatches(s, a, SelfClosings(s)) == []
  {
    assert s[a..|s|] == t;
    forall p | a <= p < |s| ensures !OccursAt(s, "/>", p) {
      if p + 2 <= |s| {
        SliceOccurs(s, a, |s|, "/>", p - a);
      }
    }
    forall j | a <= j < |s| ensures SelfClosings(s)(j).None? {
      NoSelfCloseFrom(s, j + 1);
    }
    LeftmostNone(|s|, a, SelfClosings(s));
  }

  lemma {:induction false} NoSelfCloseFrom(s: string, q: nat)
    requires q <= |s| && forall p :: q - 1 <= p < |s| ==> !OccursAt(s, "/>", p)
    ensures SelfClosingFrom(s, q).None?
    decreases |s| - q
  {
    if q < |s| {
      NoSelfCloseFrom(s, q + 1);
    }
  }

  /** The first tag after text between tags ends the leftmost match, which starts at the
      first `<` of that text. */
  lemma {:induction false} RunFound(s: string, a: nat, t: string, x: string)
    returns (i: nat, e: nat)
    requires a + |t| + |x| <= |s| && s[a..a + |t|] == t && s[a + |t|..a + |t| + |x|] == x
    requires Between(t) && SingleTag(x)
    ensures i <= e == a + |t| + |x| && s[i..e] == t[FirstOpen(t)..] + x && NextRun(s, a, i, e)
  {
    i, e := LeftmostRun(s, a, t, x);
    RunText(s, a, t, x);
  }

  /** The leftmost self-closing match from `a` is `s[i..e]`. */
  predicate NextRun(s: string, a: nat, i: nat, e: nat) {
    Leftmost(|s|, a, SelfClosings(s)) == Some(i) && SelfClosingAt(s, i) == Some(e)
  }

  lemma {:induction false} RunStep(s: string, a: nat, i: nat, e: nat)
    requires a <= |s| && NextRun(s, a, i, e)
    ensures AllMatches(s, a, SelfClosings(s)) == [s[i..e]] + AllMatches(s, e, SelfClosings(s))
  {
    assert SelfClosings(s)(i) == Some(e);
    AllMatchesNext(s, a, SelfClosings(s), i, e);
  }

  lemma {:induction false} LeftmostRun(s: string, a: nat, t: string, x: string)
    returns (i: nat, e: nat)
    requires a + |t| + |x| <= |s| && s[a..a + |t|] == t && s[a + |t|..a + |t| + |x|] == x
    requires Between(t) && SingleTag(x)
    ensures i == a + FirstOpen(t) && e == a + |t| + |x| && NextRun(s, a, i, e)
  {
    i, e := RunEnds(s, a, t, x);
    FirstRunAt(s, a, t, i, e);
  }

  lemma {:induction false} NoOpenBefore(s: string, a: nat, t: string)
    requires a + |t| <= |s| && s[a..a + |t|] == t
    ensures forall j :: a <= j < a + FirstOpen(t) ==> s[j] != '<'
  {
    forall j | a <= j < a + FirstOpen(t) ensures s[j] != '<' {
      assert s[j] == s[a..a + |t|][j - a];
    }
  }

  /** A match preceded by no `<` is the leftmost one. */
  lemma {:induction false} FirstRunAt(s: string, a: nat, t: string, i: nat, e: nat)
    requires a + |t| <= |s| && s[a..a + |t|] == t
    requires i == a + FirstOpen(t) && SelfClosingAt(s, i) == Some(e)
    ensures NextRun(s, a, i, e)
  {
    NoOpenBefore(s, a, t);
    LeftmostOpen(s, a, i, e);
  }

  lemma {:induction false} LeftmostOpen(s: string, a: nat, i: nat, e: nat)
    requires a <= i && SelfClosingAt(s, i) == Some(e) && forall j :: a <= j < i ==> s[j] != '<'
    ensures NextRun(s, a, i, e)
  {
    forall j: nat | a <= j < i ensures SelfClosings(s)(j).None? {
    }
    LeftmostAt(|s|, a, SelfClosings(s), i);
  }

  lemma {:induction false} RunText(s: string, a: nat, t: string, x: string)
    requires a + |t| + |x| <= |s| && s[a..a + |t|] == t && s[a + |t|..a + |t| + |x|] == x
    ensures s[a + FirstOpen(t)..a + |t| + |x|] == t[FirstOpen(t)..] + x
  {
    JoinAt(s, a, t, x);
    DropJoined(t, x, FirstOpen(t));
    DropSlice(s, a, a + |t| + |x|, FirstOpen(t));
  }

  lemma {:induction false} DropJoined(t: string, x: string, f: nat)
    requires f <= |t|
    ensures (t + x)[f..] == t[f..] + x
  {
  }

  lemma {:induction false} DropSlice(s: string, a: nat, e: nat, f: nat)
    requires a + f <= e <= |s|
    ensures s[a + f..e] == s[a..e][f..]
  {
  }

  /** The match at the first `<` of the text before a tag runs to the end of the tag. */
  lemma {:induction false} RunEnds(s: string, a: nat, t: string, x: string)
    returns (i: nat, e: nat)
    requires a + |t| + |x| <= |s| && s[a..a + |t|] == t && s[a + |t|..a + |t| + |x|] == x
    requires Between(t) && SingleTag(x)
    ensures i == a + FirstOpen(t) && e == a + |t| + |x| && SelfClosingAt(s, i) == Some(e)
  {
    i, e := a + FirstOpen(t), a + |t| + |x|;
    var u, k, n := TagRun(t, x);
    JoinAt(s, a, t, x);
    ShiftRun(s, a, u, k, n, i, e);
  }

  lemma {:induction false} JoinAt(s: string, a: nat, t: string, x: string)
    requires a + |t| + |x| <= |s| && s[a..a + |t|] == t && s[a + |t|..a + |t| + |x|] == x
    ensures s[a..a + |t| + |x|] == t + x
  {
    assert s[a..a + |t| + |x|] == s[a..a + |t|] + s[a + |t|..a + |t| + |x|];
  }

  /** Text before a tag, followed by the tag, is one clean run from its first `<`. */
  lemma {:induction false} TagRun(t: string, x: string) returns (u: string, i: nat, e: nat)
    requires Between(t) && SingleTag(x)
    ensures u == t + x && i == FirstOpen(t) && e == |t| + |x| == |u| && i + 2 < e
    ensures u[i] == '<' && CleanRun(u, i + 1, e)
  {
    u := t + x;
    JoinedParts(t, x);
    i, e := RunClean(u, 0, t, x);
    OpenAt(u, 0, t, x);
  }

  lemma {:induction false} JoinedParts(t: string, x: string)
    ensures (t + x)[0..|t|] == t && (t + x)[|t|..|t| + |x|] == x
  {
    assert (t + x)[0..|t|] == t;
    assert (t + x)[|t|..|t| + |x|] == x;
  }

  /** A clean run placed at `a` in a longer text is matched there. */
  lemma {:induction false} ShiftRun(s: string, a: nat, u: string, i: nat, n: nat, at: nat, e: nat)
    requires n == |u| && e == a + n <= |s| && s[a..e] == u
    requires at == a + i && i + 2 < n && u[i] == '<' && CleanRun(u, i + 1, n)
    ensures SelfClosingAt(s, at) == Some(e)
  {
    ShiftEnd(s, a, u, n, e);
    ShiftClean(s, a, u, i + 1, n, e, at + 1);
    SelfClosingRun(s, at + 1, e);
    ShiftOpen(s, a, u, i, e, at);
  }

  lemma {:induction false} ShiftOpen(s: string, a: nat, u: string, i: nat, e: nat, at: nat)
    requires e == a + |u| <= |s| && s[a..e] == u && i < |u| && u[i] == '<' && at == a + i
    requires SelfClosingFrom(s, at + 1) == Some(e)
    ensures SelfClosingAt(s, at) == Some(e)
  {
    assert s[at] == s[a..e][i];
  }

  lemma {:induction false} ShiftEnd(s: string, a: nat, u: string, n: nat, e: nat)
    requires n == |u| && 2 <= n && e == a + n <= |s| && s[a..e] == u && OccursAt(u, "/>", n - 2)
    ensures OccursAt(s, "/>", e - 2)
  {
    SliceOccurs(s, a, e, "/>", n - 2);
  }

  lemma {:induction false} ShiftClean(s: string, a: nat, u: string, p: nat, n: nat, e: nat, q: nat)
    requires n == |u| && e == a + n <= |s| && s[a..e] == u && CleanFrom(u, p, n) && q == a + p
    ensures CleanFrom(s, q, e)
    decreases n - p
  {
    if p + 2 < n {
      SliceOccurs(s, a, e, "/>", p);
      assert s[q] == s[a..e][p];
      ShiftClean(s, a, u, p + 1, n, e, q + 1);
    }
  }

  lemma {:induction false} OpenAt(s: string, a: nat, t: string, x: string)
    requires a + |t| + |x| <= |s| && s[a..a + |t|] == t && s[a + |t|..a + |t| + |x|] == x
    requires |x| > 0 && x[0] == '<'
    ensures s[a + FirstOpen(t)] == '<'
  {
    var i := a + FirstOpen(t);
    if i < a + |t| {
      assert s[i] == s[a..a + |t|][i - a];
    } else {
      assert s[i] == s[a + |t|..a + |t| + |x|][0];
    }
  }

  /** `/>` ends at `e`, and no earlier `/>` nor any line break comes from `a` on. */
  predicate CleanRun(s: string, a: nat, e: nat)
    requires 2 <= e <= |s|
  {
    OccursAt(s, "/>", e - 2) && CleanFrom(s, a, e)
  }

  /** No `/>` starts and no line break stands from `p` up to the two characters before
      `e`. */
  predicate CleanFrom(s: string, p: nat, e: nat)
    requires e <= |s|
    decreases e - p
  {
    p + 2 >= e || (!OccursAt(s, "/>", p) && !IsLineTerminator(s[p]) && CleanFrom(s, p + 1, e))
  }

  lemma {:induction false} CleanOfAll(s: string, a: nat, p: nat, e: nat)
    requires a <= p && e <= |s|
    requires forall q :: a <= q < e - 2 ==> !OccursAt(s, "/>", q)
    requires forall q :: a <= q < e - 2 ==> !IsLineTerminator(s[q])
    ensures CleanFrom(s, p, e)
    decreases e - p
  {
    if p + 2 < e {
      CleanOfAll(s, a, p + 1, e);
    }
  }

  /** Before the tag's own `/>` there is no other `/>` and no line break. */
  lemma {:induction false} RunClean(s: string, a: nat, t: string, x: string) returns (i: nat, e: nat)
    requires a + |t| + |x| <= |s| && s[a..a + |t|] == t && s[a + |t|..a + |t| + |x|] == x
    requires Between(t) && SingleTag(x)
    ensures i == a + FirstOpen(t) && e == a + |t| + |x|
    ensures a <= i < e - 2 && e <= |s| && CleanRun(s, i + 1, e)
  {
    i, e := a + FirstOpen(t), a + |t| + |x|;
    SlashesAfter(s, a, t, x);
    RunDotted(s, a, t, x);
    CleanOfAll(s, a, a + FirstOpen(t) + 1, a + |t| + |x|);
  }

  lemma {:induction false} RunDotted(s: string, a: nat, t: string, x: string)
    requires a + |t| + |x| <= |s| && s[a..a + |t|] == t && s[a + |t|..a + |t| + |x|] == x
    requires Between(t) && SingleTag(x)
    ensures forall p :: a <= p < a + |t| + |x| - 2 ==> !IsLineTerminator(s[p])
  {
    forall p | a <= p < a + |t| + |x| - 2 ensures !IsLineTerminator(s[p]) {
      if p < a + |t| {
        assert s[p] == s[a..a + |t|][p - a];
      } else {
        assert s[p] == s[a + |t|..a + |t| + |x|][p - a - |t|];
      }
    }
  }

  /** No `/>` starts before the one that ends the tag, when the text before the tag holds
      none. */
  lemma {:induction false} SlashesAfter(s: string, a: nat, t: string, x: string)
    requires a + |t| + |x| <= |s| && s[a..a + |t|] == t && s[a + |t|..a + |t| + |x|] == x
    requires NoSlashClose(t) && SingleTag(x)
    ensures forall p :: a <= p < a + |t| + |x| - 2 ==> !OccursAt(s, "/>", p)
    ensures OccursAt(s, "/>", a + |t| + |x| - 2)
  {
    var b := a + |t|;
    forall p | a <= p < b + |x| - 2 ensures !OccursAt(s, "/>", p) {
      if p + 2 <= b {
        SliceOccurs(s, a, b, "/>", p - a);
      } else {
        assert s[p + 1] == x[p + 1 - b];
        assert s[p..p + 2][1] == s[p + 1];
      }
    }
    assert s[b + |x| - 2..b + |x|] == x[|x| - 2..];
  }

  /** The lazy run of the self-closing pattern ends at the first `/>` it reaches. */
  lemma {:induction false} SelfClosingRun(s: string, q: nat, e: nat)
    requires q + 2 <= e <= |s| && CleanRun(s, q, e)
    ensures SelfClosingFrom(s, q) == Some(e)
    decreases e - q
  {
    if q < e - 2 {
      SelfClosingRun(s, q + 1, e);
    }
  }

  /** Closing the tags one after the other, each at its first occurrence, leaves the text
      between them as it was. */
  lemma {:induction false} CloseRuns(p: string, ts: seq<string>, cs: seq<EmptyTag>)
    requires |ts| == |cs| + 1 && NoSlashClose(p) && (|p| > 0 ==> p[|p| - 1] != '/')
    requires forall i :: 0 <= i < |ts| ==> Between(ts[i])
    requires forall i :: 0 <= i < |cs| ==> Readable(cs[i])
    ensures CloseAll(p + WithSelfClosed(ts, cs), Runs(ts, cs)) == p + WithClosed(ts, cs)
    decreases |cs|
  {
    if |cs| > 0 {
      var q := p + ts[0] + Closed(cs[0]);
      ClosedJoin(p, ts[0], cs[0]);
      CloseFirst(p, ts, cs);
      TailsBetween(ts, cs);
      CloseRuns(q, ts[1..], cs[1..]);
      Regroup(p, ts[0], Closed(cs[0]), WithClosed(ts[1..], cs[1..]));
    }
  }

  /** Cutting the `/>` off a tag and putting `>` and the closing tag after it closes it. */
  lemma {:induction false} ClosedSplice(q: string, c: EmptyTag, rest: string)
    ensures var x := SelfClosed(c);
      q + x[..|x| - 2] + ">" + ("</" + c.name + ">" + rest) == q + Closed(c) + rest
  {
    var x := SelfClosed(c);
    assert x[..|x| - 2] == "<" + c.name + c.attrs;
  }

  lemma {:induction false} Regroup(p: string, t: string, c: string, w: string)
    ensures p + t + c + w == p + (t + c + w)
  {
  }

  /** The first run closes the first tag, and the rest close the tags after it. */
  lemma {:induction false} CloseFirst(p: string, ts: seq<string>, cs: seq<EmptyTag>)
    requires |ts| == |cs| + 1 && |cs| > 0 && NoSlashClose(p + ts[0])
    requires Between(ts[0]) && Readable(cs[0])
    ensures CloseAll(p + WithSelfClosed(ts, cs), Runs(ts, cs))
      == CloseAll(p + ts[0] + Closed(cs[0]) + WithSelfClosed(ts[1..], cs[1..]), Runs(ts[1..], cs[1..]))
  {
    var rest := WithSelfClosed(ts[1..], cs[1..]);
    var q := p + ts[0];
    assert p + WithSelfClosed(ts, cs) == q + SelfClosed(cs[0]) + rest;
    CloseStep(q, ts[0], cs[0], rest);
    assert Runs(ts, cs)[1..] == Runs(ts[1..], cs[1..]);
  }

  /** One run closes its tag where it stands, when nothing before the tag holds a `/>`. */
  lemma {:induction false} CloseStep(q: string, t: string, c: EmptyTag, rest: string)
    requires NoSlashClose(q) && Between(t) && Readable(c)
    ensures CloseOne(q + SelfClosed(c) + rest, t[FirstOpen(t)..] + SelfClosed(c)) == q + Closed(c) + rest
  {
    var xml := q + SelfClosed(c) + rest;
    SelfClosedSingle(c.name, c.attrs);
    TagClosedAt(q, SelfClosed(c), c.name, rest);
    SlashClosedAt(q, c, rest);
    RunCloses(xml, t, c);
  }

  /** A run handles its own tag: the tag gets its closing tag, then the first `/>` goes. */
  lemma {:induction false} RunCloses(xml: string, t: string, c: EmptyTag)
    requires Between(t) && Readable(c)
    ensures var x := SelfClosed(c);
      CloseOne(xml, t[FirstOpen(t)..] + x) == ReplaceFirst(ReplaceFirst(xml, x, x + "</" + c.name + ">"), "/>", ">")
  {
    var x := SelfClosed(c);
    SelfClosedSingle(c.name, c.attrs);
    PieceOfRun(t, x);
    SelfClosingWhole(x);
    LeftmostAt(|x|, 0, SelfClosings(x), 0);
    SingleTagName(c.name, c.attrs);
    CloseOnePiece(xml, t[FirstOpen(t)..] + x, x, c.name);
  }

  lemma {:induction false} TagClosedAt(q: string, x: string, name: string, rest: string)
    requires NoSlashClose(q) && SingleTag(x)
    ensures ReplaceFirst(q + x + rest, x, x + "</" + name + ">") == q + x + ("</" + name + ">" + rest)
  {
    TagFirstAt(q, x, rest, x + "</" + name + ">");
    CloseRegroup(q, x, name, rest);
  }

  lemma {:induction false} CloseRegroup(q: string, x: string, name: string, rest: string)
    ensures q + (x + "</" + name + ">") + rest == q + x + ("</" + name + ">" + rest)
  {
  }

  lemma {:induction false} SlashClosedAt(q: string, c: EmptyTag, rest: string)
    requires NoSlashClose(q) && Readable(c)
    ensures var x := SelfClosed(c);
      ReplaceFirst(q + x + ("</" + c.name + ">" + rest), "/>", ">") == q + Closed(c) + rest
  {
    var x := SelfClosed(c);
    var close := "</" + c.name + ">";
    SelfClosedSingle(c.name, c.attrs);
    SlashFirstAt(q, x, close + rest);
    ClosedSplice(q, c, rest);
  }

  /** The pattern's match within a run, cut at its last `><`, is the whole tag. */
  lemma {:induction false} CloseOnePiece(xml: string, one: string, piece: string, name: string)
    requires one[LastIndexOf(one, "><") + 1..] == piece
    requires Leftmost(|piece|, 0, SelfClosings(piece)) == Some(0)
    requires SelfClosingAt(piece, 0) == Some(|piece|)
    requires TagName(piece) == Some(name)
    ensures CloseOne(xml, one) == ReplaceFirst(ReplaceFirst(xml, piece, piece + "</" + name + ">"), "/>", ">")
  {
    assert piece[0..|piece|] == piece;
  }

  /** A run is cut at its last `><` just before the tag, or is the tag alone. */
  lemma {:induction false} PieceOfRun(t: string, x: string)
    requires Between(t) && SingleTag(x)
    ensures var one := t[FirstOpen(t)..] + x; one[LastIndexOf(one, "><") + 1..] == x
  {
    var l := t[FirstOpen(t)..];
    var one := l + x;
    NoPairAfter(l, x);
    if |l| > 0 {
      PairBefore(t, x);
      LastAt(one, "><", |l| - 1);
    } else {
      LastAt(one, "><", -1);
    }
    assert one[|l|..] == x;
  }

  /** No `><` starts inside the tag. */
  lemma {:induction false} NoPairAfter(l: string, x: string)
    requires SingleTag(x)
    ensures forall i :: |l| <= i ==> !OccursAt(l + x, "><", i)
  {
    var one := l + x;
    forall i | |l| <= i ensures !OccursAt(one, "><", i) {
      if i + 2 <= |one| {
        assert one[i..i + 2][0] == one[i] == x[i - |l|];
      }
    }
  }

  /** Text between tags that holds a `<` ends with `>`, which meets the tag's `<`. */
  lemma {:induction false} PairBefore(t: string, x: string)
    requires Between(t) && |x| > 0 && x[0] == '<' && FirstOpen(t) < |t|
    ensures var l := t[FirstOpen(t)..]; OccursAt(l + x, "><", |l| - 1)
  {
    var l := t[FirstOpen(t)..];
    var one := l + x;
    assert t[FirstOpen(t)] == '<';
    assert one[|l| - 1] == t[|t| - 1] == '>';
    assert one[|l| - 1..|l| + 1] == "><";
  }

  /** The first occurrence of the tag is where it stands: an earlier one would end in a `/>`
      before the tag's own. */
  lemma {:induction false} TagFirstAt(q: string, x: string, rest: string, rep: string)
    requires NoSlashClose(q) && SingleTag(x)
    ensures ReplaceFirst(q + x + rest, x, rep) == q + rep + rest
  {
    var y := q + x + rest;
    Pieces(y, 0, q, x, rest);
    assert y[0..] == y;
    SlashesAfter(y, 0, q, x);
    forall j | 0 <= j < |q| ensures !OccursAt(y, x, j) {
      SlashOfTag(y, x, j);
    }
    ReplaceFirstAt(y, x, |q|, rep);
  }

  lemma {:induction false} SlashOfTag(y: string, x: string, j: nat)
    requires SingleTag(x)
    ensures OccursAt(y, x, j) ==> OccursAt(y, "/>", j + |x| - 2)
  {
    if OccursAt(y, x, j) {
      assert y[j + |x| - 2..j + |x|] == y[j..j + |x|][|x| - 2..] == x[|x| - 2..];
    }
  }

  /** The first `/>` is the tag's own. */
  lemma {:induction false} SlashFirstAt(q: string, x: string, tail: string)
    requires NoSlashClose(q) && SingleTag(x)
    ensures ReplaceFirst(q + x + tail, "/>", ">") == q + x[..|x| - 2] + ">" + tail
  {
    var y := q + x + tail;
    var at := |q| + |x| - 2;
    Pieces(y, 0, q, x, tail);
    assert y[0..] == y;
    SlashesAfter(y, 0, q, x);
    ReplaceFirstAt(y, "/>", at, ">");
    assert y[..at] == q + x[..|x| - 2];
    assert y[at + 2..] == tail;
  }

  /** Text closed so far, then the text between tags and a closed tag, holds no `/>` and
      ends with `>`. */
  lemma {:induction false} ClosedJoin(p: string, t: string, c: EmptyTag)
    requires NoSlashClose(p) && (|p| > 0 ==> p[|p| - 1] != '/') && Between(t) && Readable(c)
    ensures NoSlashClose(p + t)
    ensures var q := p + t + Closed(c); NoSlashClose(q) && q[|q| - 1] == '>'
  {
    NoSlashJoin(p, t);
    ClosedChars(c);
    NoSlashJoin(p + t, Closed(c));
  }

  lemma {:induction false} NoSlashJoin(a: string, b: string)
    requires NoSlashClose(a) && NoSlashClose(b)
    requires |a| > 0 && |b| > 0 ==> a[|a| - 1] != '/' || b[0] != '>'
    ensures NoSlashClose(a + b)
  {
    var x := a + b;
    assert x[..|a|] == a && x[|a|..] == b && x[0..|a|] == a && x[|a|..|x|] == b;
    forall j | 0 <= j < |x| ensures !OccursAt(x, "/>", j) {
      if j + 2 <= |a| {
        SliceOccurs(x, 0, |a|, "/>", j);
      } else if j + 1 == |a| {
        if j + 2 <= |x| {
          assert x[j..j + 2][0] == x[j] == a[|a| - 1];
          assert x[j..j + 2][1] == x[j + 1] == b[0];
        }
      } else if j + 2 <= |x| {
        SliceOccurs(x, |a|, |x|, "/>", j - |a|);
      }
    }
  }

  /** A closed tag holds no `/>`: its slash is followed by the name. */
  lemma {:induction false} ClosedChars(c: EmptyTag)
    requires Readable(c)
    ensures NoSlashClose(Closed(c)) && |Closed(c)| > 0 && Closed(c)[0] == '<'
    ensures Closed(c)[|Closed(c)| - 1] == '>'
  {
    var n, at := c.name, c.attrs;
    var x := Closed(c);
    var g := 1 + |n| + |at|;
    forall j | 0 <= j < |x| ensures !OccursAt(x, "/>", j) {
      if j + 2 <= |x| {
        assert x[j..j + 2][0] == x[j] && x[j..j + 2][1] == x[j + 1];
        if j + 1 < g {
          if j + 1 <= |n| {
            assert x[j + 1] == n[j];
          } else {
            assert x[j + 1] == at[j - |n|];
          }
        } else if j + 1 == g {
          if |at| > 0 {
            assert x[j] == at[|at| - 1];
          } else {
            assert x[j] == n[|n| - 1];
          }
        } else if j + 1 < g + 3 {
          assert x[j + 1] == "></"[j + 1 - g];
        } else if j + 1 < |x| - 1 {
          assert x[j + 1] == n[j + 1 - g - 3];
        } else {
          assert x[j] == n[|n| - 1];
        }
      }
    }
  }
}
