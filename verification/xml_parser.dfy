/** The XML parser (`src/vast/parser/parser.js`): the prepared text is read element by
    element with the source's regular expressions into a tree of plain objects
    `{key: {name, value, attributes}}`, siblings gathered in a list, and the result is
    refused when the sentinel `"__failed"` shows up anywhere in its JSON text. */
module XmlParser {
  import opened Strs
  import opened Js
  import opened XmlScan
  import XmlPrep
  import JsonText

  /** What `_parseTag` answers for a chunk it cannot read. */
  const Failed := "__failed"

  /** What `_getTagByName` returns: the element's name, the trimmed chunk it was found in,
      the matched text, and the attribute text and body the pattern captured. */
  datatype TagParts = TagParts(name: string, input: string, matched: string, attributes: string, body: string)

  /** `xml || ''`: a missing document is the empty text; any other non-string has no
      `match` method. */
  function Source(xml: Value): (r: Result<string>)
    ensures r.Ok? <==> !Truthy(xml) || xml.Str?
    ensures xml.Str? ==> r == Ok(xml.s)
    ensures r.Ok? ==> (r.value == "" <==> !Truthy(xml))
    ensures NoVastError(r)
  {
    if !Truthy(xml) then Ok("") else if xml.Str? then Ok(xml.s) else Err(TypeError)
  }

  // ---------------------------------------------------------------- elements

  /** The closing tag of an element. */
  function Close(name: string): string {
    "</" + name + ">"
  }

  /** The facts about a found element that the reading relies on. */
  predicate FoundIn(chunk: string, p: TagParts) {
    && p.input == Trim(chunk)
    && p.matched == "<" + p.name + p.attributes + ">" + p.body + Close(p.name)
    && Contains(Trim(chunk), p.matched)
  }

  /** `_getTagByName(name)` on `chunk`: the first element with that name. When its body
      holds another opening tag of the name but no closing one, the whole chunk is matched
      against `^(<name(.*?)>)(.*?)(<\/name>)$` instead; when that fails the source reads
      `input` off `null`. The matched text is always the element put back together. */
  function TagByName(chunk: string, name: string): (r: Result<Option<TagParts>>)
    ensures r.Ok? && r.value.None? <==> Leftmost(|chunk|, 0, Elements(chunk, name)).None?
    ensures r.Err? ==> r.error == TypeError
    ensures r.Ok? && r.value.Some? ==> r.value.value.name == name && FoundIn(chunk, r.value.value)
    ensures r.Ok? && r.value.Some? && Contains(r.value.value.body, "<" + name) ==>
      (r.value.value.matched == chunk || Contains(r.value.value.body, "</" + name))
    ensures NoVastError(r)
  {
    match Leftmost(|chunk|, 0, Elements(chunk, name))
    case None => Ok(None)
    case Some(i) =>
      var (q, c) := ElementAt(chunk, name, i).value;
      var p := FirstMatch(chunk, name, i, q, c);
      if Contains(p.body, "<" + name) && !Contains(p.body, "</" + name) then
        match AnchoredElement(chunk, name)
        case None => Err(TypeError)
        case Some((q', c')) => Ok(Some(WholeMatch(chunk, name, q', c')))
      else Ok(Some(p))
  }

  /** The groups of `<name(.*?)>(.*?)<\/name>` matched at `i`. */
  function FirstMatch(chunk: string, name: string, i: nat, q: nat, c: nat): (p: TagParts)
    requires i + 1 + |name| <= q < c && OccursAt(chunk, "<" + name, i)
    requires OccursAt(chunk, Close(name), c) && chunk[q] == '>'
    ensures p.name == name && p.body == chunk[q + 1..c] && FoundIn(chunk, p)
  {
    var matched := chunk[i..c + |Close(name)|];
    Reassembled(chunk, name, i, q, c);
    InTrim(chunk, i, matched);
    TagParts(name, Trim(chunk), matched, chunk[i + 1 + |name|..q], chunk[q + 1..c])
  }

  /** The groups of the anchored pattern: the match is the whole chunk. */
  function WholeMatch(chunk: string, name: string, q: nat, c: nat): (p: TagParts)
    requires 1 + |name| <= q < c && OccursAt(chunk, "<" + name, 0)
    requires c + |Close(name)| == |chunk| && OccursAt(chunk, Close(name), c) && chunk[q] == '>'
    ensures p.name == name && p.matched == chunk && FoundIn(chunk, p)
  {
    Reassembled(chunk, name, 0, q, c);
    assert chunk[0..|chunk|] == chunk;
    InTrim(chunk, 0, chunk);
    TagParts(name, Trim(chunk), chunk, chunk[1 + |name|..q], chunk[q + 1..c])
  }

  /** An element's text is its opening tag, its body and its closing tag. */
  lemma {:induction false} Reassembled(s: string, name: string, i: nat, q: nat, c: nat)
    requires i + 1 + |name| <= q < c && OccursAt(s, "<" + name, i) && OccursAt(s, Close(name), c)
    requires s[q] == '>'
    ensures s[i..c + |Close(name)|] == "<" + name + s[i + 1 + |name|..q] + ">" + s[q + 1..c] + Close(name)
    ensures s[i] == '<' && s[c + |Close(name)| - 1] == '>'
  {
    var e := c + |Close(name)|;
    assert s[i..e] == s[i..i + 1 + |name|] + s[i + 1 + |name|..q] + s[q..q + 1] + s[q + 1..c] + s[c..e];
    assert s[i] == s[i..i + 1 + |name|][0];
    assert s[e - 1] == s[c..e][|Close(name)| - 1];
  }

  /** A match that starts and ends with a visible character lies inside the trimmed text. */
  lemma {:induction false} InTrim(s: string, i: nat, m: string)
    requires OccursAt(s, m, i) && |m| > 0 && !IsSpace(m[0]) && !IsSpace(m[|m| - 1])
    ensures Contains(Trim(s), m)
  {
    TrimInfix(s);
    var a, b :| 0 <= a <= b <= |s| && Trim(s) == s[a..b] && AllSpace(s[..a]) && AllSpace(s[b..]);
    InSlice(s, i, m, a, b);
  }

  lemma {:induction false} InSlice(s: string, i: nat, m: string, a: nat, b: nat)
    requires OccursAt(s, m, i) && |m| > 0 && !IsSpace(m[0]) && !IsSpace(m[|m| - 1])
    requires a <= b <= |s| && AllSpace(s[..a]) && AllSpace(s[b..])
    ensures a <= i && OccursAt(s[a..b], m, i - a)
  {
    forall k | 0 <= k < a ensures IsSpace(s[k]) {
      assert s[..a][k] == s[k];
    }
    forall k | b <= k < |s| ensures IsSpace(s[k]) {
      assert s[b..][k - b] == s[k];
    }
    assert s[i] == m[0] && s[i + |m| - 1] == m[|m| - 1];
    assert a <= i && i + |m| <= b;
    SliceOccurs(s, a, b, m, i - a);
  }

  // ---------------------------------------------------------------- attributes

  /** Every key is lower-case. */
  predicate LowerKeys(ps: Props) {
    forall k :: 0 <= k < |ps| ==> IsLower(ps[k].0)
  }

  /** One space-separated piece of the attribute text: the first match of
      `(.*?)=["'](.*?)["']` sets the lower-cased key to the quoted text. */
  function AddAttribute(ps: Props, piece: string): (r: Props)
    requires DistinctKeys(ps)
    ensures DistinctKeys(r)
    ensures LowerKeys(ps) ==> LowerKeys(r)
  {
    match Leftmost(|piece|, 0, Attributes(piece))
    case None => ps
    case Some(i) =>
      var (e, c) := AttributeAt(piece, i).value;
      var key := Lower(piece[i..e]);
      LowerIsLower(piece[i..e]);
      PutLowerKeys(ps, key, Str(piece[e + 2..c]));
      Put(ps, key, Str(piece[e + 2..c]))
  }

  lemma {:induction false} PutLowerKeys(ps: Props, k: string, v: Value)
    requires DistinctKeys(ps) && IsLower(k)
    ensures LowerKeys(ps) ==> LowerKeys(Put(ps, k, v))
  {
    var r := Put(ps, k, v);
    if LowerKeys(ps) {
      forall j | 0 <= j < |r| ensures IsLower(r[j].0) {
        assert Has(r, r[j].0);
        if r[j].0 != k {
          var i :| 0 <= i < |ps| && ps[i].0 == r[j].0;
        }
      }
    }
  }

  function AddAttributes(ps: Props, pieces: seq<string>): (r: Props)
    requires DistinctKeys(ps)
    ensures DistinctKeys(r)
    ensures LowerKeys(ps) ==> LowerKeys(r)
    decreases |pieces|
  {
    if |pieces| == 0 then ps else AddAttributes(AddAttribute(ps, pieces[0]), pieces[1..])
  }

  /** The attributes of `_getTagData`: the attribute text split at each space, every piece
      read in turn, a later key overwriting an earlier one. */
  function AttributesOf(text: string): (r: Props)
    ensures DistinctKeys(r) && LowerKeys(r)
  {
    AddAttributes([], Split(text, " "))
  }

  /** `key="value"` (or with single quotes) sets the lower-cased key to the value. */
  lemma {:induction false} AttributePiece(ps: Props, key: string, quote: char, value: string)
    requires DistinctKeys(ps) && IsQuote(quote)
    requires forall k :: 0 <= k < |key| ==> key[k] != '=' && !IsLineTerminator(key[k])
    requires forall k :: 0 <= k < |value| ==> !IsQuote(value[k]) && !IsLineTerminator(value[k])
    ensures AddAttribute(ps, key + "=" + [quote] + value + [quote]) == Put(ps, Lower(key), Str(value))
  {
    var piece := key + "=" + [quote] + value + [quote];
    var e := |key|;
    var c := |key| + 2 + |value|;
    KeyScan(piece, e, 0);
    QuoteScan(piece, c, e + 2);
    assert AttributeAt(piece, 0) == Some((e, c));
    LeftmostAt(|piece|, 0, Attributes(piece), 0);
    assert piece[0..e] == key;
    assert piece[e + 2..c] == value;
  }

  lemma {:induction false} KeyScan(piece: string, n: nat, j: nat)
    requires j <= n && n + 1 < |piece| && piece[n] == '=' && IsQuote(piece[n + 1])
    requires forall k :: j <= k < n ==> piece[k] != '=' && !IsLineTerminator(piece[k])
    ensures AttributeKeyFrom(piece, j) == Some(n)
    decreases n - j
  {
    if j < n {
      KeyScan(piece, n, j + 1);
    }
  }

  lemma {:induction false} QuoteScan(piece: string, n: nat, j: nat)
    requires j <= n < |piece| && IsQuote(piece[n])
    requires forall k :: j <= k < n ==> !IsQuote(piece[k]) && !IsLineTerminator(piece[k])
    ensures QuoteFrom(piece, j) == Some(n)
    decreases n - j
  {
    if j < n {
      QuoteScan(piece, n, j + 1);
    }
  }

  // ---------------------------------------------------------------- text

  /** `_getCData(body)`: nothing unless the body opens with a CDATA section; otherwise the
      body is split at every `]]>` and the CDATA text of each piece (closed again) is
      concatenated. */
  function CData(body: string): (r: Option<string>)
  {
    if CDataAt(body).None? then None else Some(CDataTexts(Split(body, "]]>")))
  }

  function CDataTexts(pieces: seq<string>): string
    decreases |pieces|
  {
    if |pieces| == 0 then "" else CDataText(pieces[0]) + CDataTexts(pieces[1..])
  }

  function CDataText(piece: string): string {
    var slice := piece + "]]>";
    match CDataAt(slice)
    case None => ""
    case Some(e) => slice[9..e]
  }

  /** The value `_getTagData` gives an element before its children are read: CDATA text or
      plain text, trimmed; `false` for a body that starts with a tag. */
  function NodeValue(body: string): (r: Value)
    ensures r.Str? || r == Bool(false)
    ensures r == Bool(false) <==> CData(body).None? && StartsWith(body, "<")
  {
    match CData(body)
    case Some(c) => Str(Trim(c))
    case None => if StartsWith(body, "<") then Bool(false) else Str(Trim(body))
  }

  /** A single CDATA section gives back its text. */
  lemma {:induction false} CDataSection(x: string)
    requires NoLineTerminator(x) && !Contains(x, "]]>")
    ensures CData("<![CDATA[" + x + "]]>") == Some(x)
  {
    var open := "<![CDATA[";
    var body := open + x + "]]>";
    var n := 9 + |x|;
    CDataRun(x, body);
    FirstClose(x, body);
    assert body[..n] == open + x;
    assert body[n + 3..] == "";
    assert Split(body, "]]>") == [open + x] + Split("", "]]>");
    assert Split("", "]]>") == [""];
    var pieces := [open + x, ""];
    assert CDataText(open + x) == x by {
      CDataRun(x, (open + x) + "]]>");
      assert ((open + x) + "]]>")[9..n] == x;
    }
    assert CDataText("") == "" by {
      assert !StartsWith("" + "]]>", "<![CDATA[");
    }
    assert pieces[1..] == [""] && [""][1..] == [];
    assert CDataTexts(pieces) == x + ("" + "");
    assert x + ("" + "") == x;
    assert Split(body, "]]>") == pieces;
    assert CData(body) == Some(CDataTexts(pieces));
  }

  /** The first `]]>` of `<![CDATA[x]]>` is the section's end. */
  lemma {:induction false} FirstClose(x: string, body: string)
    requires NoLineTerminator(x) && !Contains(x, "]]>") && body == "<![CDATA[" + x + "]]>"
    ensures IndexOf(body, "]]>") == 9 + |x|
  {
    var n := 9 + |x|;
    var open := "<![CDATA[";
    CDataRun(x, body);
    forall j | 0 <= j < 9 ensures !OccursAt(body, "]]>", j) {
      assert body[j] == open[j] != ']';
      if j + 3 <= |body| {
        assert body[j..j + 3][0] == body[j];
      }
    }
  }

  /** In `<![CDATA[x]]>` the lazy run from the section's start stops at its end. */
  lemma {:induction false} CDataRun(x: string, body: string)
    requires NoLineTerminator(x) && !Contains(x, "]]>") && body == "<![CDATA[" + x + "]]>"
    ensures CDataAt(body) == Some(9 + |x|)
    ensures forall p :: 9 <= p < 9 + |x| ==> !OccursAt(body, "]]>", p)
  {
    var n := 9 + |x|;
    assert StartsWith(body, "<![CDATA[");
    assert OccursAt(body, "]]>", n);
    forall p | 9 <= p < n ensures !OccursAt(body, "]]>", p) {
      if p + 3 <= n {
        assert body[p..p + 3] == x[p - 9..p - 6];
        assert !OccursAt(x, "]]>", p - 9);
      } else {
        assert body[p + 2] == ']';
        assert body[p..p + 3][2] == body[p + 2];
      }
    }
    assert Dotted(body, 9, n) by {
      forall k | 9 <= k < n ensures !IsLineTerminator(body[k]) {
        assert body[k] == x[k - 9];
      }
    }
    assert LazyTo(body, 9, "]]>") == Some(n);
    assert forall p :: 9 <= p < n ==> !OccursAt(body, "]]>", p);
  }

  // ---------------------------------------------------------------- the tree

  /** `_getTagData`'s object: the lower-cased name keys the element's name, value and
      attributes. */
  function Node(name: string, value: Value, attributes: Props): Value {
    Obj(PlainObject, [(Lower(name), Obj(PlainObject, [
      ("name", Str(name)), ("value", value), ("attributes", Obj(PlainObject, attributes))]))])
  }

  /** A parsed element: one key, the lower-cased name of the element, holding its non-empty
      name, a text or a list of children as its value, and its attributes under distinct
      lower-case keys. */
  predicate IsNode(v: Value) {
    && v.Obj? && v.cls == PlainObject && |v.props| == 1
    && var data := v.props[0].1;
    && data.Obj? && data.cls == PlainObject && |data.props| == 3
    && data.props[0].0 == "name" && data.props[1].0 == "value" && data.props[2].0 == "attributes"
    && data.props[0].1.Str? && data.props[0].1.s != "" && v.props[0].0 == Lower(data.props[0].1.s)
    && (data.props[1].1.Str? || data.props[1].1.Arr?)
    && data.props[2].1.Obj? && DistinctKeys(data.props[2].1.props) && LowerKeys(data.props[2].1.props)
  }

  /** What a chunk reads as: elements, the last of which may be the sentinel. */
  predicate ItemsShape(items: seq<Value>) {
    && |items| > 0
    && (forall k :: 0 <= k < |items| - 1 ==> IsNode(items[k]))
    && (IsNode(items[|items| - 1]) || items[|items| - 1] == Str(Failed))
  }

  /** `_parseTag` on a chunk, flattened: the first element read (its children first), then
      whatever the chunk without that element reads as, in document order. A chunk whose
      element cannot be found, or whose name is empty, reads as the sentinel; a chunk with
      no opening tag has no name, and the name's `toLowerCase` throws. */
  function Items(chunk: string): (r: Result<seq<Value>>)
    ensures r.Ok? ==> ItemsShape(r.value)
    decreases |chunk|, 1
    ensures NoVastError(r)
  {
    match TagName(chunk)
    case None => Err(TypeError)
    case Some(name) =>
      var found :- TagByName(chunk, name);
      if name == "" || found.None? then Ok([Str(Failed)]) else ItemsFrom(chunk, found.value)
  }

  /** The element found first, then what the chunk without it reads as. */
  function ItemsFrom(chunk: string, parts: TagParts): (r: Result<seq<Value>>)
    requires FoundIn(chunk, parts) && parts.name != ""
    ensures r.Ok? ==> ItemsShape(r.value)
    decreases |chunk|, 0
    ensures NoVastError(r)
  {
    Shorter(chunk, parts);
    var value :- Content(parts.body);
    var attributes := AttributesOf(parts.attributes);
    var tag := Node(parts.name, value, attributes);
    NodeShape(parts.name, value, attributes);
    var rest := ReplaceFirst(parts.input, parts.matched, "");
    if |rest| == 0 then Ok([tag])
    else
      var siblings :- Items(rest);
      ConsShape(tag, siblings);
      Ok([tag] + siblings)
  }

  /** The value of an element: its text, or, for a body that starts with a tag, the list
      of its children (a list even of one). */
  function Content(body: string): (r: Result<Value>)
    ensures r.Ok? ==> r.value.Str? || (r.value.Arr? && ItemsShape(r.value.items))
    ensures NodeValue(body).Str? ==> r == Ok(NodeValue(body))
    ensures r.Ok? && NodeValue(body) == Bool(false) ==> r.value.Arr?
    decreases |body|, 2
    ensures NoVastError(r)
  {
    var text := NodeValue(body);
    if text == Bool(false) then
      var items :- Items(body);
      Ok(Arr(items))
    else Ok(text)
  }

  /** What the element leaves of the chunk, and its body, are shorter than the chunk. */
  lemma {:induction false} Shorter(chunk: string, parts: TagParts)
    requires FoundIn(chunk, parts)
    ensures |parts.body| < |chunk|
    ensures |ReplaceFirst(parts.input, parts.matched, "")| < |chunk|
  {
    var k :| 0 <= k <= |parts.input| && OccursAt(parts.input, parts.matched, k);
  }

  lemma {:induction false} NodeShape(name: string, value: Value, attributes: Props)
    requires name != "" && (value.Str? || value.Arr?)
    requires DistinctKeys(attributes) && LowerKeys(attributes)
    ensures IsNode(Node(name, value, attributes))
  {
  }

  lemma {:induction false} ConsShape(tag: Value, items: seq<Value>)
    requires IsNode(tag) && ItemsShape(items)
    ensures ItemsShape([tag] + items)
  {
    assert forall k :: 1 <= k < |items| + 1 ==> ([tag] + items)[k] == items[k - 1];
  }

  /** `_parseTag()` on the prepared text: one element (or the sentinel) as it is, several
      as the list of siblings. */
  function ParseTag(xml: string): (r: Result<Value>)
    ensures r.Ok? ==> (IsNode(r.value) || r.value == Str(Failed)
      || (r.value.Arr? && |r.value.items| > 1 && ItemsShape(r.value.items)))
    ensures NoVastError(r)
  {
    var items :- Items(xml);
    if |items| == 1 then Ok(items[0]) else Ok(Arr(items))
  }

  /** `__validateJson`: the tree is refused when its JSON text contains the sentinel; the
      message quotes the text up to the sentinel's first occurrence. */
  function Validate(json: Value): (r: Result<Value>)
    ensures r.Ok? <==> !Contains(JsonText.Serialize(json), Failed)
    ensures r.Ok? ==> r.value == json
    ensures r.Err? ==> (r.error.XmlParserError? && |r.error.message| >= 16
      && r.error.message[..16] == "Failed to parse ")
    ensures r.Err? ==> var prefix := r.error.message[16..]; var text := JsonText.Serialize(json);
      && StartsWith(text, prefix + Failed)
      && forall j :: 0 <= j < |prefix| ==> !OccursAt(text, Failed, j)
    ensures NoVastError(r)
  {
    var text := JsonText.Serialize(json);
    var position := IndexOf(text, Failed);
    if position >= 0 then
      var message := "Failed to parse " + text[..position];
      assert message[16..] == text[..position];
      assert text[..position] + Failed == text[..position + |Failed|];
      Err(XmlParserError(message))
    else Ok(json)
  }

  /** `parse(xml)` followed by `json()`: the tree, or what the preparation, the reading or
      the validation throws. */
  function Parse(xml: Value): (r: Result<Value>)
    ensures NoVastError(r)
  {
    var s :- Source(xml);
    var t :- XmlPrep.Prepare(s);
    var json :- ParseTag(t);
    Validate(json)
  }

  // ---------------------------------------------------------------- properties

  /** The sentinel somewhere in a tree. */
  predicate HasSentinel(v: Value)
    decreases v
  {
    match v
    case Str(s) => s == Failed
    case Arr(items) => exists i :: 0 <= i < |items| && HasSentinel(items[i])
    case Obj(_, ps) => exists i :: 0 <= i < |ps| && HasSentinel(ps[i].1)
    case _ => false
  }

  /** The sentinel's letters are written as they are. */
  lemma {:induction false} EscapePlain(s: string)
    requires forall k :: 0 <= k < |s| ==> ' ' <= s[k] && s[k] != '"' && s[k] != '\\'
    ensures JsonText.Escape(s) == s
  {
    if |s| > 0 {
      EscapePlain(s[1..]);
      assert s == [s[0]] + s[1..];
    }
  }

  /** Text found in a part is found in the whole. */
  lemma {:induction false} ContainsWithin(x: string, m: string, y: string, pat: string)
    requires Contains(m, pat)
    ensures Contains(x + m + y, pat)
  {
    var i :| 0 <= i <= |m| && OccursAt(m, pat, i);
    assert (x + m + y)[|x| + i..|x| + i + |pat|] == m[i..i + |pat|];
    assert OccursAt(x + m + y, pat, |x| + i);
  }

  lemma {:induction false} ItemsContain(items: seq<Value>, i: nat, pat: string)
    requires i < |items| && Contains(JsonText.Serialize(items[i]), pat)
    ensures Contains(JsonText.SerializeItems(items), pat)
    decreases |items|
  {
    if |items| > 1 {
      if i == 0 {
        ContainsWithin("", JsonText.Serialize(items[0]), "," + JsonText.SerializeItems(items[1..]), pat);
        assert "" + JsonText.Serialize(items[0]) + ("," + JsonText.SerializeItems(items[1..]))
          == JsonText.SerializeItems(items);
      } else {
        assert items[1..][i - 1] == items[i];
        ItemsContain(items[1..], i - 1, pat);
        ContainsWithin(JsonText.Serialize(items[0]) + ",", JsonText.SerializeItems(items[1..]), "", pat);
        assert JsonText.Serialize(items[0]) + "," + JsonText.SerializeItems(items[1..]) + ""
          == JsonText.SerializeItems(items);
      }
    }
  }

  lemma {:induction false} MembersContain(ps: Props, i: nat, pat: string)
    requires i < |ps| && !ps[i].1.Undefined? && Contains(JsonText.Serialize(ps[i].1), pat)
    ensures Contains(JsonText.SerializeMembers(ps), pat)
    decreases |ps|
  {
    var rest := JsonText.SerializeMembers(ps[1..]);
    if i == 0 {
      var member := JsonText.Quote(ps[0].0) + ":" + JsonText.Serialize(ps[0].1);
      ContainsWithin(JsonText.Quote(ps[0].0) + ":", JsonText.Serialize(ps[0].1), "", pat);
      assert member == JsonText.Quote(ps[0].0) + ":" + JsonText.Serialize(ps[0].1) + "";
      if rest != "" {
        ContainsWithin("", member, "," + rest, pat);
        assert "" + member + ("," + rest) == member + "," + rest;
      }
    } else {
      assert ps[1..][i - 1] == ps[i];
      MembersContain(ps[1..], i - 1, pat);
      if !ps[0].1.Undefined? {
        var member := JsonText.Quote(ps[0].0) + ":" + JsonText.Serialize(ps[0].1);
        if rest == "" {
          assert OccursAt(member, pat, 0);
        } else {
          ContainsWithin(member + ",", rest, "", pat);
          assert member + "," + rest + "" == JsonText.SerializeMembers(ps);
        }
      }
    }
  }

  /** Wherever the sentinel sits in a tree, the tree's JSON text contains it. */
  lemma {:induction false} SentinelSerialized(v: Value)
    requires HasSentinel(v)
    ensures Contains(JsonText.Serialize(v), Failed)
    decreases v
  {
    match v
    case Str(s) =>
      EscapePlain(Failed);
      assert OccursAt(Failed, Failed, 0);
      ContainsWithin("\"", Failed, "\"", Failed);
    case Arr(items) =>
      var i :| 0 <= i < |items| && HasSentinel(items[i]);
      SentinelSerialized(items[i]);
      SentinelItem(items, i);
    case Obj(_, ps) =>
      var i :| 0 <= i < |ps| && HasSentinel(ps[i].1);
      assert ps[i].1 < v by {
        assert ps[i] in ps;
      }
      SentinelSerialized(ps[i].1);
      SentinelMember(v, i);
  }

  lemma {:induction false} SentinelItem(items: seq<Value>, i: nat)
    requires i < |items| && Contains(JsonText.Serialize(items[i]), Failed)
    ensures Contains(JsonText.Serialize(Arr(items)), Failed)
  {
    ItemsContain(items, i, Failed);
    ContainsWithin("[", JsonText.SerializeItems(items), "]", Failed);
  }

  lemma {:induction false} SentinelMember(v: Value, i: nat)
    requires v.Obj? && i < |v.props| && Contains(JsonText.Serialize(v.props[i].1), Failed)
    ensures Contains(JsonText.Serialize(v), Failed)
  {
    MembersContain(v.props, i, Failed);
    ContainsWithin("{", JsonText.SerializeMembers(v.props), "}", Failed);
  }

  /** A tree with the sentinel anywhere in it is refused. */
  lemma {:induction false} SentinelRefused(json: Value)
    requires HasSentinel(json)
    ensures Validate(json).Err?
  {
    SentinelSerialized(json);
  }

  /** A successful parse is one element or a list of them: the sentinel never survives. */
  lemma {:induction false} ParsedIsElements(xml: Value)
    requires Parse(xml).Ok?
    ensures var v := Parse(xml).value;
      IsNode(v) || (v.Arr? && |v.items| > 1 && forall k :: 0 <= k < |v.items| ==> IsNode(v.items[k]))
  {
    var s := Source(xml).value;
    var t := XmlPrep.Prepare(s).value;
    var json := ParseTag(t).value;
    if json == Str(Failed) {
      SentinelRefused(json);
    } else if json.Arr? && !IsNode(json.items[|json.items| - 1]) {
      assert HasSentinel(json.items[|json.items| - 1]);
      SentinelRefused(json);
    }
  }

  /** A missing or blank document is refused before anything is read. */
  lemma {:induction false} BlankDocument(xml: Value)
    requires !Truthy(xml) || (xml.Str? && AllSpace(xml.s))
    ensures Parse(xml) == Err(XmlParserError("XML has no body."))
  {
    var s := Source(xml).value;
    assert AllSpace(s);
    XmlPrep.BlankHasNoDefinition(s);
    XmlPrep.BlankHasNoBody(s);
  }

  // ---------------------------------------------------------------- one element
  // ---------------------------------------------------------------- one element

  /** A tag name the patterns read back whole: no white space, no `<`, `>` or `/`, and
      no `!` at its start. */
  predicate PlainName(name: string) {
    && |name| > 0 && name[0] != '!'
    && forall k :: 0 <= k < |name| ==> name[k] != '<' && name[k] != '>' && name[k] != '/' && !IsSpace(name[k])
  }

  /** `<name attrs>text</name>` */
  function Element(name: string, attrs: string, text: string): string {
    "<" + name + attrs + ">" + text + Close(name)
  }

  /** An opening tag the patterns read back: a plain name, then attribute text that is
      empty or starts with a space. */
  predicate SimpleTag(name: string, attrs: string) {
    PlainName(name) && XmlPrep.PlainText(attrs) && (attrs == "" || attrs[0] == ' ')
  }

  /** The element the conditions describe: a simple opening tag and text without tags or
      line breaks. */
  predicate SimpleElement(name: string, attrs: string, text: string) {
    SimpleTag(name, attrs) && XmlPrep.PlainText(text)
  }

  /** An element with text and no children reads as one node holding its trimmed text and
      its attributes. */
  lemma {:induction false} ElementRead(name: string, attrs: string, text: string)
    requires SimpleElement(name, attrs, text)
    ensures ParseTag(Element(name, attrs, text)) == Ok(Node(name, Str(Trim(text)), AttributesOf(attrs)))
  {
    ElementItems(name, attrs, text);
  }

  /** The chunk that is one such element reads as its node alone. */
  lemma {:induction false} ElementItems(name: string, attrs: string, text: string)
    requires SimpleElement(name, attrs, text)
    ensures Items(Element(name, attrs, text)) == Ok([Node(name, Str(Trim(text)), AttributesOf(attrs))])
  {
    var s := Element(name, attrs, text);
    ElementName(name, attrs, text);
    ElementFound(name, attrs, text);
    TextValue(text);
    XmlPrep.ReplaceWhole(s, "");
    LoneItem(s, name, TagByName(s, name).value.value);
  }

  /** A chunk that is one element without children reads as that element alone. */
  lemma {:induction false} LoneItem(chunk: string, name: string, parts: TagParts)
    requires TagName(chunk) == Some(name) && name != ""
    requires TagByName(chunk, name) == Ok(Some(parts))
    requires NodeValue(parts.body).Str?
    requires ReplaceFirst(parts.input, parts.matched, "") == ""
    ensures Items(chunk) == Ok([Node(name, NodeValue(parts.body), AttributesOf(parts.attributes))])
  {
    ItemsOfFound(chunk, name, parts);
    LoneValue(chunk, parts, NodeValue(parts.body));
  }

  lemma {:induction false} ItemsOfFound(chunk: string, name: string, parts: TagParts)
    requires TagName(chunk) == Some(name) && name != ""
    requires TagByName(chunk, name) == Ok(Some(parts))
    ensures FoundIn(chunk, parts) && parts.name == name
    ensures Items(chunk) == ItemsFrom(chunk, parts)
  {
    FoundPartsOf(chunk, name, parts);
    ItemsOfParts(chunk, name, parts);
  }

  lemma {:induction false} FoundPartsOf(chunk: string, name: string, parts: TagParts)
    requires TagByName(chunk, name) == Ok(Some(parts))
    ensures FoundIn(chunk, parts) && parts.name == name
  {
  }

  lemma {:induction false} ItemsOfParts(chunk: string, name: string, parts: TagParts)
    requires TagName(chunk) == Some(name) && name != ""
    requires TagByName(chunk, name) == Ok(Some(parts))
    requires FoundIn(chunk, parts) && parts.name == name
    ensures Items(chunk) == ItemsFrom(chunk, parts)
  {
  }

  /** An element that is all of the chunk: its node alone. */
  lemma {:induction false} LoneValue(chunk: string, parts: TagParts, value: Value)
    requires FoundIn(chunk, parts) && parts.name != ""
    requires Content(parts.body) == Ok(value)
    requires ReplaceFirst(parts.input, parts.matched, "") == ""
    ensures ItemsFrom(chunk, parts) == Ok([Node(parts.name, value, AttributesOf(parts.attributes))])
  {
  }

  /** An element with text followed by more of the chunk: its node, then what the rest
      reads as. */
  lemma {:induction false} ItemsBefore(chunk: string, parts: TagParts, rest: string)
    requires FoundIn(chunk, parts) && parts.name != ""
    requires NodeValue(parts.body).Str?
    requires ReplaceFirst(parts.input, parts.matched, "") == rest && rest != ""
    ensures Items(rest).Ok? ==>
      ItemsFrom(chunk, parts) == Ok([Node(parts.name, NodeValue(parts.body), AttributesOf(parts.attributes))] + Items(rest).value)
    ensures Items(rest).Err? ==> ItemsFrom(chunk, parts) == Items(rest)
  {
  }

  /** The run of `<([^\!].*?)\s?>` up to the first `>`: it stops there, or before the
      white-space character that precedes it. */
  lemma {:induction false} OpeningRun(s: string, q: nat, g: nat)
    requires 2 <= q <= g < |s| && s[g] == '>'
    requires forall k :: q <= k < g ==> s[k] != '>' && !IsLineTerminator(s[k])
    ensures OpeningFrom(s, q) == Some(if q < g && IsSpace(s[g - 1]) then g - 1 else g)
    decreases g - q
  {
    if q + 1 < g {
      OpeningRun(s, q + 1, g);
    }
  }

  /** The text up to the first space is a word without spaces. */
  lemma {:induction false} FirstWord(name: string, rest: string)
    requires forall k :: 0 <= k < |name| ==> name[k] != ' '
    requires rest == "" || rest[0] == ' '
    ensures Split(name + rest, " ")[0] == name
  {
    var t := name + rest;
    forall k | 0 <= k < |name| ensures !OccursAt(t, " ", k) {
      assert t[k..k + 1][0] == t[k] == name[k];
    }
    if rest == "" {
      assert t == name;
      forall k | 0 <= k ensures !OccursAt(t, " ", k) {
        if k + 1 <= |t| {
          assert t[k..k + 1][0] == t[k] == name[k];
        }
      }
      assert IndexOf(t, " ") == -1;
    } else {
      assert t[|name|] == ' ';
      assert OccursAt(t, " ", |name|);
      assert IndexOf(t, " ") == |name|;
      assert t[..|name|] == name;
    }
  }

  lemma {:induction false} NoSlash(name: string)
    requires forall k :: 0 <= k < |name| ==> name[k] != '/'
    ensures ReplaceFirst(name, "/", "") == name
  {
    forall k | 0 <= k ensures !OccursAt(name, "/", k) {
      if k + 1 <= |name| {
        assert name[k..k + 1][0] == name[k] != '/';
      }
    }
  }

  /** The name `_getTagName` reads off the element is its own. */
  lemma {:induction false} ElementName(name: string, attrs: string, text: string)
    requires SimpleTag(name, attrs)
    ensures TagName(Element(name, attrs, text)) == Some(name)
  {
    var s := Element(name, attrs, text);
    ElementLaidOut(name, attrs, text);
    LaidOutLeads(s, name, attrs, text);
    NameOf(s, name, attrs, text);
  }

  /** The name read off a chunk that starts with an element is that element's. */
  lemma {:induction false} NameOf(s: string, name: string, attrs: string, text: string)
    requires SimpleTag(name, attrs) && Leads(s, name, attrs, text)
    ensures TagName(s) == Some(name)
  {
    var g := 1 + |name| + |attrs|;
    forall k | 2 <= k < g ensures s[k] != '>' && !IsLineTerminator(s[k]) {
      if k < 1 + |name| {
        assert s[k] == s[..1 + |name|][k] == name[k - 1];
      } else {
        assert s[k] == s[1 + |name|..g][k - 1 - |name|] == attrs[k - 1 - |name|];
      }
    }
    OpeningRun(s, 2, g);
    var q := if 2 < g && IsSpace(s[g - 1]) then g - 1 else g;
    if attrs == "" {
      assert s[g - 1] == s[..1 + |name|][g - 1] == name[|name| - 1];
    }
    assert 1 + |name| <= q;
    assert s[1] == s[..1 + |name|][1] == name[0];
    assert OpeningAt(s, 0) == Some(q);
    LeftmostAt(|s|, 0, Openings(s), 0);
    var rest := attrs[..q - 1 - |name|];
    LeadPrefix(s, name, attrs, text, q);
    FirstWord(name, rest);
    NoSlash(name);
  }

  /** The text after an element's `<` and up to a point inside its attributes is the name
      and the attributes read so far. */
  lemma {:induction false} LeadPrefix(s: string, name: string, attrs: string, text: string, q: nat)
    requires Leads(s, name, attrs, text) && 1 + |name| <= q <= 1 + |name| + |attrs|
    ensures s[1..q] == name + attrs[..q - 1 - |name|]
  {
    var rest := attrs[..q - 1 - |name|];
    forall k | 0 <= k < q - 1 ensures s[1..q][k] == (name + rest)[k] {
      if k < |name| {
        assert s[..1 + |name|][1 + k] == ("<" + name)[1 + k];
      } else {
        assert s[1 + |name|..1 + |name| + |attrs|][k - |name|] == attrs[k - |name|];
      }
    }
  }

  /** Where the parts of an element sit in its text. */
  predicate ElementLayout(s: string, name: string, attrs: string, text: string) {
    var g := 1 + |name| + |attrs|;
    && |s| == g + 1 + |text| + |Close(name)|
    && s[0] == '<' && s[g] == '>' && s[|s| - 1] == '>'
    && s[..1 + |name|] == "<" + name
    && s[1 + |name|..g] == attrs
    && s[g + 1..g + 1 + |text|] == text
    && s[g + 1 + |text|..] == Close(name)
  }

  lemma {:induction false} ElementLaidOut(name: string, attrs: string, text: string)
    ensures ElementLayout(Element(name, attrs, text), name, attrs, text)
  {
    var s := Element(name, attrs, text);
    var g := 1 + |name| + |attrs|;
    assert s == "<" + name + attrs + ">" + text + Close(name);
  }

  /** Where the parts of an element sit at the start of `s`, which may go on after it. */
  predicate Leads(s: string, name: string, attrs: string, text: string) {
    var g := 1 + |name| + |attrs|;
    var c := g + 1 + |text|;
    && c + |Close(name)| <= |s|
    && s[0] == '<' && s[g] == '>'
    && s[..1 + |name|] == "<" + name
    && s[1 + |name|..g] == attrs
    && s[g + 1..c] == text
    && s[c..c + |Close(name)|] == Close(name)
  }

  lemma {:induction false} LaidOutLeads(s: string, name: string, attrs: string, text: string)
    requires ElementLayout(s, name, attrs, text)
    ensures Leads(s, name, attrs, text)
  {
    var c := 1 + |name| + |attrs| + 1 + |text|;
    assert s[c..c + |Close(name)|] == s[c..];
  }

  /** An element followed by more text starts that text. */
  lemma {:induction false} ElementLeads(name: string, attrs: string, text: string, rest: string)
    ensures Leads(Element(name, attrs, text) + rest, name, attrs, text)
  {
    var e := Element(name, attrs, text);
    var s := e + rest;
    ElementLaidOut(name, attrs, text);
    assert s[..|e|] == e;
    LaidOutPrefix(s, e, name, attrs, text);
  }

  lemma {:induction false} LaidOutPrefix(s: string, e: string, name: string, attrs: string, text: string)
    requires ElementLayout(e, name, attrs, text) && |e| <= |s| && s[..|e|] == e
    ensures Leads(s, name, attrs, text)
  {
    var g := 1 + |name| + |attrs|;
    var c := g + 1 + |text|;
    PrefixSlice(s, e, 0, 1 + |name|);
    PrefixSlice(s, e, 1 + |name|, g);
    PrefixSlice(s, e, g + 1, c);
    PrefixSlice(s, e, c, |e|);
    assert e[c..|e|] == e[c..];
    assert s[0] == e[0] && s[g] == e[g] by {
      assert s[..|e|][0] == s[0] && s[..|e|][g] == s[g];
    }
  }

  /** A slice inside a prefix is the prefix's slice. */
  lemma {:induction false} PrefixSlice(s: string, e: string, i: nat, j: nat)
    requires |e| <= |s| && s[..|e|] == e && i <= j <= |e|
    ensures s[i..j] == e[i..j]
  {
    forall k | i <= k < j ensures s[k] == e[k] {
      assert s[..|e|][k] == s[k];
    }
    assert s[i..j] == e[i..j];
  }

  /** The parts of a lookup's match when the match is the whole element `s`. */
  predicate WholeElement(p: TagParts, s: string, name: string, attrs: string, text: string) {
    p.name == name && p.input == s && p.matched == s && p.attributes == attrs && p.body == text
  }

  /** `_getTagByName` finds the whole element, with its attribute text and its text. */
  lemma {:induction false} ElementFound(name: string, attrs: string, text: string)
    requires SimpleElement(name, attrs, text)
    ensures var s := Element(name, attrs, text);
      var r := TagByName(s, name);
      r.Ok? && r.value.Some? && WholeElement(r.value.value, s, name, attrs, text)
  {
    ElementLaidOut(name, attrs, text);
    FoundAt(Element(name, attrs, text), name, attrs, text);
  }

  lemma {:induction false} FoundAt(s: string, name: string, attrs: string, text: string)
    requires SimpleElement(name, attrs, text) && ElementLayout(s, name, attrs, text)
    ensures var r := TagByName(s, name);
      r.Ok? && r.value.Some? && WholeElement(r.value.value, s, name, attrs, text)
  {
    var g := 1 + |name| + |attrs|;
    var c := g + 1 + |text|;
    WholeFirst(s, name, attrs, text);
    FoundFirst(s, name, g, c);
    WholeParts(s, name, attrs, text);
    FoundWholeElement(s, name, attrs, text, FirstMatch(s, name, 0, g, c));
  }

  lemma {:induction false} FoundWholeElement(s: string, name: string, attrs: string, text: string, p: TagParts)
    requires TagByName(s, name) == Ok(Some(p)) && WholeElement(p, s, name, attrs, text)
    ensures var r := TagByName(s, name);
      r.Ok? && r.value.Some? && WholeElement(r.value.value, s, name, attrs, text)
  {
  }

  lemma {:induction false} WholeFirst(s: string, name: string, attrs: string, text: string)
    requires SimpleElement(name, attrs, text) && ElementLayout(s, name, attrs, text)
    ensures var g := 1 + |name| + |attrs|;
      var c := g + 1 + |text|;
      && Leftmost(|s|, 0, Elements(s, name)) == Some(0)
      && ElementAt(s, name, 0) == Some((g, c))
      && !Contains(s[g + 1..c], "<" + name)
  {
    LaidOutLeads(s, name, attrs, text);
    ElementFirst(s, name, attrs, text);
  }

  /** What the search meets in a chunk that starts with an element: the element first,
      with no nested opening tag of the name in its body. */
  lemma {:induction false} ElementFirst(s: string, name: string, attrs: string, text: string)
    requires SimpleElement(name, attrs, text) && Leads(s, name, attrs, text)
    ensures var g := 1 + |name| + |attrs|;
      var c := g + 1 + |text|;
      && Leftmost(|s|, 0, Elements(s, name)) == Some(0)
      && ElementAt(s, name, 0) == Some((g, c))
      && !Contains(s[g + 1..c], "<" + name)
  {
    FirstElementAt(s, name, attrs, text);
    BodyHasNoOpening(s, name, attrs, text);
  }

  lemma {:induction false} BodyHasNoOpening(s: string, name: string, attrs: string, text: string)
    requires XmlPrep.PlainText(text) && Leads(s, name, attrs, text)
    ensures var g := 1 + |name| + |attrs|;
      !Contains(s[g + 1..g + 1 + |text|], "<" + name)
  {
    var g := 1 + |name| + |attrs|;
    assert s[g + 1..g + 1 + |text|] == text;
    NoOpening(text, name);
  }

  /** Text without `<` holds no opening tag. */
  lemma {:induction false} NoOpening(text: string, name: string)
    requires XmlPrep.PlainText(text)
    ensures !Contains(text, "<" + name)
  {
    forall k | 0 <= k ensures !OccursAt(text, "<" + name, k) {
      if k < |text| {
        assert text[k] != '<';
      }
    }
  }

  /** The first element, when its body does not hold the name's opening tag. */
  lemma {:induction false} FoundFirst(chunk: string, name: string, q: nat, c: nat)
    requires Leftmost(|chunk|, 0, Elements(chunk, name)) == Some(0)
    requires ElementAt(chunk, name, 0) == Some((q, c))
    requires !Contains(chunk[q + 1..c], "<" + name)
    ensures TagByName(chunk, name) == Ok(Some(FirstMatch(chunk, name, 0, q, c)))
  {
  }

  /** The first element, when its body does not hold the name's opening tag without a
      closing one. */
  lemma {:induction false} FoundBalanced(chunk: string, name: string, q: nat, c: nat)
    requires Leftmost(|chunk|, 0, Elements(chunk, name)) == Some(0)
    requires ElementAt(chunk, name, 0) == Some((q, c))
    requires Contains(chunk[q + 1..c], "<" + name) ==> Contains(chunk[q + 1..c], "</" + name)
    ensures TagByName(chunk, name) == Ok(Some(FirstMatch(chunk, name, 0, q, c)))
  {
  }

  /** The element starts the text. */
  lemma {:induction false} FirstElementAt(s: string, name: string, attrs: string, text: string)
    requires SimpleElement(name, attrs, text) && Leads(s, name, attrs, text)
    ensures Leftmost(|s|, 0, Elements(s, name)) == Some(0)
    ensures ElementAt(s, name, 0) == Some((1 + |name| + |attrs|, 1 + |name| + |attrs| + 1 + |text|))
  {
    ElementAtFrom(s, name, attrs, text);
    LeftmostAt(|s|, 0, Elements(s, name), 0);
  }

  /** The groups of the match are the element's own parts. */
  lemma {:induction false} WholeParts(s: string, name: string, attrs: string, text: string)
    requires ElementLayout(s, name, attrs, text)
    ensures var g := 1 + |name| + |attrs|;
      WholeElement(FirstMatch(s, name, 0, g, g + 1 + |text|), s, name, attrs, text)
  {
    var g := 1 + |name| + |attrs|;
    assert OccursAt(s, "<" + name, 0);
    assert !IsSpace(s[0]) && !IsSpace(s[|s| - 1]);
    TrimNoSpace(s);
    assert s[0..|s|] == s;
  }

  /** The element match at the start: the `>` after the attributes and the closing tag
      after the text. */
  lemma {:induction false} ElementAtFrom(s: string, name: string, attrs: string, text: string)
    requires Leads(s, name, attrs, text) && XmlPrep.PlainText(attrs) && XmlPrep.PlainText(text)
    ensures ElementAt(s, name, 0) == Some((1 + |name| + |attrs|, 1 + |name| + |attrs| + 1 + |text|))
  {
    var g := 1 + |name| + |attrs|;
    var c := g + 1 + |text|;
    assert s[0..1 + |name|] == s[..1 + |name|];
    PlainRun(s, 1 + |name|, attrs);
    PlainRun(s, g + 1, text);
    ElementAtClean(s, name, 0, g, c);
  }

  /** A run of plain text inside `s` holds no bracket and no line terminator. */
  lemma {:induction false} PlainRun(s: string, a: nat, t: string)
    requires a + |t| <= |s| && s[a..a + |t|] == t && XmlPrep.PlainText(t)
    ensures forall p :: a <= p < a + |t| ==> s[p] != '<' && s[p] != '>' && !IsLineTerminator(s[p])
  {
    forall p | a <= p < a + |t| ensures s[p] != '<' && s[p] != '>' && !IsLineTerminator(s[p]) {
      assert s[p] == s[a..a + |t|][p - a];
    }
  }

  /** Text without tags is its own value, trimmed. */
  lemma {:induction false} TextValue(text: string)
    requires XmlPrep.PlainText(text)
    ensures NodeValue(text) == Str(Trim(text))
  {
    assert !StartsWith(text, "<![CDATA[") by {
      if |text| >= 9 {
        assert text[..9][0] == text[0] != '<';
      }
    }
    assert CData(text).None?;
    assert !StartsWith(text, "<") by {
      if |text| >= 1 {
        assert text[..1][0] == text[0] != '<';
      }
    }
  }

  // ---------------------------------------------------------------- siblings and children

  /** An element with text followed by more of the chunk reads as its node, then what the
      rest reads as: `_parseTag` cuts the element out and reads the rest as its siblings. */
  lemma {:induction false} LeadingElement(name: string, attrs: string, text: string, rest: string)
    requires SimpleElement(name, attrs, text) && rest != "" && !IsSpace(rest[|rest| - 1])
    ensures Items(rest).Ok? ==>
      Items(Element(name, attrs, text) + rest) == Ok([Node(name, Str(Trim(text)), AttributesOf(attrs))] + Items(rest).value)
    ensures Items(rest).Err? ==> Items(Element(name, attrs, text) + rest) == Items(rest)
  {
    var s := Element(name, attrs, text) + rest;
    var e := 1 + |name| + |attrs| + 1 + |text| + |Close(name)|;
    ElementSplit(name, attrs, text, rest);
    var parts := LeadingNamed(s, name, attrs, text);
    MatchedRest(s, parts, e, rest);
    ItemsAfterLead(s, name, attrs, text, parts, rest);
  }

  /** An element followed by `rest`: the element leads, `rest` follows it, and the last
      character is that of `rest`. */
  lemma {:induction false} ElementSplit(name: string, attrs: string, text: string, rest: string)
    requires rest != ""
    ensures var s := Element(name, attrs, text) + rest;
      var e := 1 + |name| + |attrs| + 1 + |text| + |Close(name)|;
      && Leads(s, name, attrs, text) && e <= |s| && s[e..] == rest && s[|s| - 1] == rest[|rest| - 1]
  {
    var s := Element(name, attrs, text) + rest;
    ElementLeads(name, attrs, text, rest);
    ElementLaidOut(name, attrs, text);
    assert s[|Element(name, attrs, text)|..] == rest;
  }

  /** The chunk's items are the leading element's node, then the items of what follows it. */
  lemma {:induction false} ItemsAfterLead(s: string, name: string, attrs: string, text: string,
                                          parts: TagParts, rest: string)
    requires parts.name == name != "" && parts.attributes == attrs && FoundIn(s, parts)
    requires NodeValue(parts.body) == Str(Trim(text))
    requires ReplaceFirst(parts.input, parts.matched, "") == rest && rest != ""
    requires Items(s) == ItemsFrom(s, parts)
    ensures Items(rest).Ok? ==>
      Items(s) == Ok([Node(name, Str(Trim(text)), AttributesOf(attrs))] + Items(rest).value)
    ensures Items(rest).Err? ==> Items(s) == Items(rest)
  {
    ItemsBefore(s, parts, rest);
  }

  /** The chunk reads from the element that starts it. */
  lemma {:induction false} LeadingNamed(s: string, name: string, attrs: string, text: string)
    returns (parts: TagParts)
    requires SimpleElement(name, attrs, text) && Leads(s, name, attrs, text) && !IsSpace(s[|s| - 1])
    ensures parts.name == name && parts.attributes == attrs && FoundIn(s, parts)
    ensures parts.input == s && parts.matched == s[..1 + |name| + |attrs| + 1 + |text| + |Close(name)|]
    ensures NodeValue(parts.body) == Str(Trim(text))
    ensures Items(s) == ItemsFrom(s, parts)
  {
    NameOf(s, name, attrs, text);
    LeadingFound(s, name, attrs, text);
    parts := TagByName(s, name).value.value;
    ItemsOfFound(s, name, parts);
    TextValue(text);
  }

  /** Removing the leading element leaves what follows it. */
  lemma {:induction false} MatchedRest(s: string, parts: TagParts, e: nat, rest: string)
    requires parts.input == s && e <= |s| && parts.matched == s[..e] && s[e..] == rest
    ensures ReplaceFirst(parts.input, parts.matched, "") == rest
  {
    LeadingRest(s, e, rest);
  }

  /** The parts of a lookup's match when the match is the element that starts `s`. */
  predicate LeadElement(p: TagParts, s: string, name: string, attrs: string, text: string) {
    var e := 1 + |name| + |attrs| + 1 + |text| + |Close(name)|;
    && p.name == name && p.input == s && e <= |s| && p.matched == s[..e]
    && p.attributes == attrs && p.body == text
  }

  /** `_getTagByName` finds the element that starts the chunk. */
  lemma {:induction false} LeadingFound(s: string, name: string, attrs: string, text: string)
    requires SimpleElement(name, attrs, text) && Leads(s, name, attrs, text) && !IsSpace(s[|s| - 1])
    ensures var r := TagByName(s, name);
      r.Ok? && r.value.Some? && LeadElement(r.value.value, s, name, attrs, text)
  {
    var g := 1 + |name| + |attrs|;
    var c := g + 1 + |text|;
    ElementFirst(s, name, attrs, text);
    FoundFirst(s, name, g, c);
    LeadTags(s, name, attrs, text);
    LeadingParts(s, name, attrs, text);
    FoundLeadElement(s, name, attrs, text, FirstMatch(s, name, 0, g, c));
  }

  lemma {:induction false} FoundLeadElement(s: string, name: string, attrs: string, text: string, p: TagParts)
    requires 1 + |name| + |attrs| + 1 + |text| + |Close(name)| <= |s|
    requires TagByName(s, name) == Ok(Some(p)) && LeadElement(p, s, name, attrs, text)
    ensures var r := TagByName(s, name);
      r.Ok? && r.value.Some? && LeadElement(r.value.value, s, name, attrs, text)
  {
  }

  /** Where the tags of an element that starts the chunk stand. */
  lemma {:induction false} LeadTags(s: string, name: string, attrs: string, text: string)
    requires Leads(s, name, attrs, text)
    ensures var g := 1 + |name| + |attrs|;
      var c := g + 1 + |text|;
      && OccursAt(s, "<" + name, 0) && OccursAt(s, Close(name), c) && s[g] == '>'
      && s[1 + |name|..g] == attrs && s[g + 1..c] == text
  {
    assert s[0..1 + |name|] == s[..1 + |name|];
  }

  /** The groups of the match of an element that starts the chunk. */
  lemma {:induction false} LeadingParts(s: string, name: string, attrs: string, text: string)
    requires var g := 1 + |name| + |attrs|;
      var c := g + 1 + |text|;
      && OccursAt(s, "<" + name, 0) && OccursAt(s, Close(name), c) && s[g] == '>'
      && s[1 + |name|..g] == attrs && s[g + 1..c] == text
    requires !IsSpace(s[|s| - 1])
    ensures var g := 1 + |name| + |attrs|;
      var c := g + 1 + |text|;
      LeadElement(FirstMatch(s, name, 0, g, c), s, name, attrs, text)
  {
    assert s[0] == s[0..1 + |name|][0] == '<';
    TrimNoSpace(s);
  }

  /** What is left of the chunk once its leading element is cut out. */
  lemma {:induction false} LeadingRest(s: string, e: nat, rest: string)
    requires e <= |s| && s[e..] == rest
    ensures ReplaceFirst(s, s[..e], "") == rest
  {
    assert OccursAt(s, s[..e], 0);
    ReplaceFirstAt(s, s[..e], 0, "");
    assert s[..0] + "" + s[e..] == rest;
  }

  /** An element with text and no children: `<name attrs>text</name>`. */
  datatype Leaf = Leaf(name: string, attrs: string, text: string)

  function LeafText(l: Leaf): string {
    Element(l.name, l.attrs, l.text)
  }

  /** The node a leaf reads as. */
  function LeafNode(l: Leaf): Value {
    Node(l.name, Str(Trim(l.text)), AttributesOf(l.attrs))
  }

  predicate SimpleLeaves(ls: seq<Leaf>) {
    forall i :: 0 <= i < |ls| ==> SimpleElement(ls[i].name, ls[i].attrs, ls[i].text)
  }

  /** Leaves one after the other, with nothing between them. */
  function Leaves(ls: seq<Leaf>): string
    decreases |ls|
  {
    if |ls| == 0 then "" else LeafText(ls[0]) + Leaves(ls[1..])
  }

  function LeafNodes(ls: seq<Leaf>): (r: seq<Value>)
    ensures |r| == |ls|
    decreases |ls|
  {
    if |ls| == 0 then [] else [LeafNode(ls[0])] + LeafNodes(ls[1..])
  }

  /** Leaves side by side read as their nodes in document order: one leaf as its node,
      several as the list of siblings. */
  lemma {:induction false} LeavesRead(ls: seq<Leaf>)
    requires |ls| > 0 && SimpleLeaves(ls)
    ensures ParseTag(Leaves(ls)) == if |ls| == 1 then Ok(LeafNode(ls[0])) else Ok(Arr(LeafNodes(ls)))
  {
    LeavesItems(ls);
  }

  lemma {:induction false} SimpleTail(ls: seq<Leaf>)
    requires |ls| > 0 && SimpleLeaves(ls)
    ensures SimpleLeaves(ls[1..])
  {
    forall i | 0 <= i < |ls| - 1
      ensures SimpleElement(ls[1..][i].name, ls[1..][i].attrs, ls[1..][i].text)
    {
      assert ls[1..][i] == ls[i + 1];
    }
  }

  /** A run of leaves ends with the `>` of a closing tag. */
  lemma {:induction false} LeavesEnd(ls: seq<Leaf>)
    requires |ls| > 0
    ensures |Leaves(ls)| > 0 && Leaves(ls)[|Leaves(ls)| - 1] == '>'
    decreases |ls|
  {
    var l := ls[0];
    var e := LeafText(l);
    var rest := Leaves(ls[1..]);
    ElementLaidOut(l.name, l.attrs, l.text);
    assert Leaves(ls) == e + rest;
    if |ls| > 1 {
      LeavesEnd(ls[1..]);
      assert (e + rest)[|e + rest| - 1] == rest[|rest| - 1];
    } else {
      assert rest == "";
      assert (e + rest)[|e + rest| - 1] == e[|e| - 1];
    }
  }

  /** No line terminator anywhere in the text. */
  predicate Inline(t: string) {
    forall k :: 0 <= k < |t| ==> !IsLineTerminator(t[k])
  }

  lemma {:induction false} InlineJoin(a: string, b: string)
    requires Inline(a) && Inline(b)
    ensures Inline(a + b)
  {
    forall k | 0 <= k < |a + b| ensures !IsLineTerminator((a + b)[k]) {
      if k < |a| {
        assert (a + b)[k] == a[k];
      } else {
        assert (a + b)[k] == b[k - |a|];
      }
    }
  }

  lemma {:induction false} ElementInline(name: string, attrs: string, text: string)
    requires SimpleElement(name, attrs, text)
    ensures Inline(Element(name, attrs, text))
  {
    assert Inline(name) by {
      forall k | 0 <= k < |name| ensures !IsLineTerminator(name[k]) {
        assert !IsSpace(name[k]);
      }
    }
    InlineJoin("<", name);
    InlineJoin("<" + name, attrs);
    InlineJoin("<" + name + attrs, ">");
    InlineJoin("<" + name + attrs + ">", text);
    InlineJoin("</", name);
    InlineJoin("</" + name, ">");
    InlineJoin("<" + name + attrs + ">" + text, Close(name));
  }

  lemma {:induction false} LeavesInline(ls: seq<Leaf>)
    requires SimpleLeaves(ls)
    ensures Inline(Leaves(ls))
    decreases |ls|
  {
    if |ls| > 0 {
      var l := ls[0];
      assert SimpleElement(l.name, l.attrs, l.text);
      SimpleTail(ls);
      LeavesInline(ls[1..]);
      ElementInline(l.name, l.attrs, l.text);
      InlineJoin(LeafText(l), Leaves(ls[1..]));
    }
  }

  /** No character of a closing tag but the last is a `>`. */
  lemma {:induction false} CloseInner(name: string, j: nat)
    requires PlainName(name) && j < |name| + 2
    ensures Close(name)[j] != '>'
  {
    if j >= 2 {
      assert Close(name)[j] == name[j - 2];
    }
  }

  /** Inside an element, `<` stands only at the start of its two tags. */
  lemma {:induction false} OtherChars(s: string, name: string, attrs: string, text: string, k: nat)
    requires SimpleElement(name, attrs, text) && Leads(s, name, attrs, text)
    requires var c := 1 + |name| + |attrs| + 1 + |text|;
      0 < k < c + |Close(name)| && k != c
    ensures s[k] != '<'
  {
    var g := 1 + |name| + |attrs|;
    var c := g + 1 + |text|;
    if k < 1 + |name| {
      assert s[k] == s[..1 + |name|][k] == name[k - 1];
    } else if k < g {
      assert s[k] == s[1 + |name|..g][k - 1 - |name|] == attrs[k - 1 - |name|];
    } else if g < k < c {
      assert s[k] == s[g + 1..c][k - g - 1] == text[k - g - 1];
    } else if c < k {
      assert s[k] == s[c..c + |Close(name)|][k - c] == Close(name)[k - c];
      if k - c >= 2 && k - c < 2 + |name| {
        assert Close(name)[k - c] == name[k - c - 2];
      }
    }
  }

  /** Two closing tags of different plain names never start at the same place. */
  lemma {:induction false} CloseDiffers(s: string, k: nat, p: string, n: string)
    requires OccursAt(s, Close(n), k) && PlainName(p) && PlainName(n) && p != n
    ensures !OccursAt(s, Close(p), k)
  {
    if k + |Close(p)| <= |s| {
      var m := s[k..k + |Close(p)|];
      var t := s[k..k + |Close(n)|];
      if |p| < |n| {
        assert m[2 + |p|] == s[k + 2 + |p|] == t[2 + |p|] == n[|p|];
        assert Close(p)[2 + |p|] == '>';
      } else if |n| < |p| {
        assert m[2 + |n|] == s[k + 2 + |n|] == t[2 + |n|] == '>';
        assert Close(p)[2 + |n|] == p[|n|];
      } else {
        assert exists i :: 0 <= i < |p| && p[i] != n[i];
        var i :| 0 <= i < |p| && p[i] != n[i];
        assert m[2 + i] == s[k + 2 + i] == t[2 + i] == n[i];
        assert Close(p)[2 + i] == p[i];
      }
    }
  }

  /** An element of another name holds no closing tag of `p`, wherever one would start
      inside it. */
  lemma {:induction false} CloseNotIn(s: string, name: string, attrs: string, text: string, p: string, k: nat)
    requires SimpleElement(name, attrs, text) && Leads(s, name, attrs, text)
    requires PlainName(p) && p != name
    requires k < 1 + |name| + |attrs| + 1 + |text| + |Close(name)|
    ensures !OccursAt(s, Close(p), k)
  {
    var c := 1 + |name| + |attrs| + 1 + |text|;
    if k + |Close(p)| <= |s| {
      var m := s[k..k + |Close(p)|];
      assert m[0] == s[k] && m[1] == s[k + 1];
      if k == 0 {
        assert s[1] == s[..1 + |name|][1] == name[0];
        assert Close(p)[1] == '/';
      } else if k == c {
        assert OccursAt(s, Close(name), c);
        CloseDiffers(s, c, p, name);
      } else {
        OtherChars(s, name, attrs, text, k);
      }
    }
  }

  /** An opening tag of `p` inside an element is the element's own, and then the
      element's closing tag starts with `</p`. */
  lemma {:induction false} OpenThenClose(s: string, name: string, attrs: string, text: string, p: string, k: nat)
    requires SimpleElement(name, attrs, text) && Leads(s, name, attrs, text) && PlainName(p)
    requires k < 1 + |name| + |attrs| + 1 + |text| + |Close(name)|
    ensures OccursAt(s, "<" + p, k) ==> OccursAt(s, "</" + p, 1 + |name| + |attrs| + 1 + |text|)
  {
    var g := 1 + |name| + |attrs|;
    var c := g + 1 + |text|;
    if k + 1 + |p| <= |s| {
      var m := s[k..k + 1 + |p|];
      assert m[0] == s[k] && m[1] == s[k + 1];
      if k == c {
        assert s[c + 1] == s[c..c + |Close(name)|][1] == '/';
      } else if k != 0 {
        OtherChars(s, name, attrs, text, k);
      } else if |p| > |name| {
        assert m[1 + |name|] == s[1 + |name|];
        if attrs == "" {
          assert s[1 + |name|] == s[g] == '>';
        } else {
          assert s[1 + |name|] == s[1 + |name|..g][0] == attrs[0];
        }
      } else if OccursAt(s, "<" + p, 0) {
        PrefixClose(s, name, attrs, text, p);
      }
    }
  }

  lemma {:induction false} PrefixClose(s: string, name: string, attrs: string, text: string, p: string)
    requires Leads(s, name, attrs, text) && |p| <= |name| && OccursAt(s, "<" + p, 0)
    ensures OccursAt(s, "</" + p, 1 + |name| + |attrs| + 1 + |text|)
  {
    var c := 1 + |name| + |attrs| + 1 + |text|;
    var m := s[c..c + 2 + |p|];
    forall i | 0 <= i < |p| ensures m[2 + i] == p[i] {
      assert s[1 + i] == s[0..1 + |p|][1 + i] == p[i];
      assert s[1 + i] == s[..1 + |name|][1 + i] == name[i];
      assert s[c + 2 + i] == s[c..c + |Close(name)|][2 + i] == name[i];
    }
    assert m[0] == s[c] == s[c..c + |Close(name)|][0] == Close(name)[0] == '<';
    assert m[1] == s[c + 1] == s[c..c + |Close(name)|][1] == Close(name)[1] == '/';
    assert m == "</" + p;
  }

  /** A body without the closing tag, ending with `>`, hides no closing tag that would
      start inside it and run on past it. */
  lemma {:induction false} BodyNoClose(s: string, a: nat, b: nat, text: string, name: string, k: nat)
    requires a <= k < b <= |s| && s[a..b] == text && PlainName(name)
    requires !Contains(text, Close(name)) && text[|text| - 1] == '>'
    ensures !OccursAt(s, Close(name), k)
  {
    if k + |Close(name)| <= b {
      SliceOccurs(s, a, b, Close(name), k - a);
    } else if k + |Close(name)| <= |s| {
      var j := b - 1 - k;
      assert s[b - 1] == s[a..b][b - 1 - a] == '>';
      assert s[k..k + |Close(name)|][j] == s[b - 1];
      CloseInner(name, j);
    }
  }

  lemma {:induction false} LeavesItems(ls: seq<Leaf>)
    requires |ls| > 0 && SimpleLeaves(ls)
    ensures Items(Leaves(ls)) == Ok(LeafNodes(ls))
    decreases |ls|
  {
    if |ls| == 1 {
      LeafAlone(ls);
    } else {
      SimpleTail(ls);
      LeavesItems(ls[1..]);
      LeafFirst(ls);
    }
  }

  lemma {:induction false} LeafAlone(ls: seq<Leaf>)
    requires |ls| == 1 && SimpleLeaves(ls)
    ensures Items(Leaves(ls)) == Ok(LeafNodes(ls))
  {
    var l := ls[0];
    assert SimpleElement(l.name, l.attrs, l.text);
    assert Leaves(ls[1..]) == "";
    assert Leaves(ls) == LeafText(l);
    ElementItems(l.name, l.attrs, l.text);
    assert LeafNodes(ls) == [LeafNode(l)];
  }

  lemma {:induction false} LeafFirst(ls: seq<Leaf>)
    requires |ls| > 1 && SimpleLeaves(ls)
    requires Items(Leaves(ls[1..])) == Ok(LeafNodes(ls[1..]))
    ensures Items(Leaves(ls)) == Ok(LeafNodes(ls))
  {
    var l := ls[0];
    assert SimpleElement(l.name, l.attrs, l.text);
    var rest := Leaves(ls[1..]);
    assert Leaves(ls) == LeafText(l) + rest;
    LeavesEnd(ls[1..]);
    LeadingElement(l.name, l.attrs, l.text, rest);
  }

  /** A run of leaves is its first leaf followed by the others. */
  lemma {:induction false} LeavesSplit(ls: seq<Leaf>)
    requires |ls| > 0
    ensures var l := ls[0];
      var rest := Leaves(ls[1..]);
      var s := Leaves(ls);
      && s == LeafText(l) + rest
      && Leads(s, l.name, l.attrs, l.text)
      && s[1 + |l.name| + |l.attrs| + 1 + |l.text| + |Close(l.name)|..] == rest
  {
    var l := ls[0];
    var rest := Leaves(ls[1..]);
    var e := LeafText(l);
    ElementLeads(l.name, l.attrs, l.text, rest);
    ElementLaidOut(l.name, l.attrs, l.text);
    assert (e + rest)[|e|..] == rest;
  }

  /** Leaves whose names differ from `p` hold no closing tag of `p`. */
  lemma {:induction false} LeavesNoClose(ls: seq<Leaf>, p: string)
    requires SimpleLeaves(ls) && PlainName(p)
    requires forall i :: 0 <= i < |ls| ==> ls[i].name != p
    ensures !Contains(Leaves(ls), Close(p))
    decreases |ls|
  {
    if |ls| > 0 {
      var l := ls[0];
      assert SimpleElement(l.name, l.attrs, l.text) && l.name != p;
      SimpleTail(ls);
      assert forall i :: 0 <= i < |ls| - 1 ==> ls[1..][i].name != p by {
        forall i | 0 <= i < |ls| - 1 ensures ls[1..][i].name != p {
          assert ls[1..][i] == ls[i + 1];
        }
      }
      LeavesNoClose(ls[1..], p);
      LeavesSplit(ls);
      NoCloseAfter(Leaves(ls), l.name, l.attrs, l.text, Leaves(ls[1..]), p);
    }
  }

  /** An element of another name followed by text without the closing tag of `p`. */
  lemma {:induction false} NoCloseAfter(s: string, name: string, attrs: string, text: string, rest: string, p: string)
    requires SimpleElement(name, attrs, text) && Leads(s, name, attrs, text)
    requires PlainName(p) && p != name
    requires s[1 + |name| + |attrs| + 1 + |text| + |Close(name)|..] == rest
    requires !Contains(rest, Close(p))
    ensures !Contains(s, Close(p))
  {
    var e := 1 + |name| + |attrs| + 1 + |text| + |Close(name)|;
    assert s[e..|s|] == rest;
    forall k | 0 <= k <= |s| ensures !OccursAt(s, Close(p), k) {
      if k < e {
        CloseNotIn(s, name, attrs, text, p, k);
      } else if k + |Close(p)| <= |s| {
        SliceOccurs(s, e, |s|, Close(p), k - e);
      }
    }
  }

  /** Where leaves hold an opening tag of `p`, they hold a closing tag that starts with
      `</p` too. */
  lemma {:induction false} LeavesOpenClosed(ls: seq<Leaf>, p: string)
    requires SimpleLeaves(ls) && PlainName(p)
    ensures Contains(Leaves(ls), "<" + p) ==> Contains(Leaves(ls), "</" + p)
    decreases |ls|
  {
    if |ls| > 0 {
      var l := ls[0];
      assert SimpleElement(l.name, l.attrs, l.text);
      SimpleTail(ls);
      LeavesOpenClosed(ls[1..], p);
      LeavesSplit(ls);
      OpenClosedAfter(Leaves(ls), l.name, l.attrs, l.text, Leaves(ls[1..]), p);
    }
  }

  lemma {:induction false} OpenClosedAfter(s: string, name: string, attrs: string, text: string, rest: string, p: string)
    requires SimpleElement(name, attrs, text) && Leads(s, name, attrs, text) && PlainName(p)
    requires s[1 + |name| + |attrs| + 1 + |text| + |Close(name)|..] == rest
    requires Contains(rest, "<" + p) ==> Contains(rest, "</" + p)
    ensures Contains(s, "<" + p) ==> Contains(s, "</" + p)
  {
    var e := 1 + |name| + |attrs| + 1 + |text| + |Close(name)|;
    if Contains(s, "<" + p) {
      var k :| 0 <= k <= |s| && OccursAt(s, "<" + p, k);
      if k < e {
        OpenThenClose(s, name, attrs, text, p, k);
      } else {
        assert s[e..|s|] == rest;
        SliceOccurs(s, e, |s|, "<" + p, k - e);
        var j :| 0 <= j <= |rest| && OccursAt(rest, "</" + p, j);
        SliceOccurs(s, e, |s|, "</" + p, j);
        assert OccursAt(s, "</" + p, e + j);
      }
    }
  }

  /** The element match at the start of a chunk whose element body holds tags: the first
      `>` ends the opening tag, and the first closing tag of the name after it is the
      element's own. */
  lemma {:induction false} ElementAtOver(s: string, name: string, attrs: string, text: string)
    requires var g := 1 + |name| + |attrs|;
      var c := g + 1 + |text|;
      && OccursAt(s, "<" + name, 0) && OccursAt(s, Close(name), c) && s[g] == '>'
      && s[1 + |name|..g] == attrs && s[g + 1..c] == text
    requires SimpleTag(name, attrs)
    requires Inline(text) && !Contains(text, Close(name)) && text != "" && text[|text| - 1] == '>'
    ensures ElementAt(s, name, 0) == Some((1 + |name| + |attrs|, 1 + |name| + |attrs| + 1 + |text|))
  {
    var g := 1 + |name| + |attrs|;
    var c := g + 1 + |text|;
    ElementSpans(s, name, attrs, text, g, c);
  }

  lemma {:induction false} ElementSpans(s: string, name: string, attrs: string, text: string, g: nat, c: nat)
    requires g == 1 + |name| + |attrs| && c == g + 1 + |text|
    requires OccursAt(s, "<" + name, 0) && OccursAt(s, Close(name), c) && s[g] == '>'
    requires s[1 + |name|..g] == attrs && s[g + 1..c] == text
    requires SimpleTag(name, attrs)
    requires Inline(text) && !Contains(text, Close(name)) && text != "" && text[|text| - 1] == '>'
    ensures ElementAt(s, name, 0) == Some((g, c))
  {
    OpeningEnds(s, 1 + |name|, attrs);
    ClosingRun(s, name, text, g, c);
  }

  lemma {:induction false} ClosingRun(s: string, name: string, text: string, g: nat, c: nat)
    requires c == g + 1 + |text| && OccursAt(s, "<" + name, 0) && OccursAt(s, Close(name), c)
    requires LazyTo(s, 1 + |name|, ">") == Some(g) && s[g + 1..c] == text
    requires PlainName(name) && Inline(text) && !Contains(text, Close(name))
    requires text != "" && text[|text| - 1] == '>'
    ensures ElementAt(s, name, 0) == Some((g, c))
  {
    BodyRunsTo(s, g + 1, text, name);
    CloseRun(s, name, g, c);
  }

  lemma {:induction false} CloseRun(s: string, name: string, g: nat, c: nat)
    requires OccursAt(s, "<" + name, 0) && g < |s|
    requires LazyTo(s, 1 + |name|, ">") == Some(g) && LazyTo(s, g + 1, Close(name)) == Some(c)
    ensures ElementAt(s, name, 0) == Some((g, c))
  {
    assert Close(name) == "</" + name + ">";
    ElementAtRuns(s, name, 0, g, c);
  }

  /** The lazy run of an opening tag stops at the `>` after its attributes. */
  lemma {:induction false} OpeningEnds(s: string, q: nat, attrs: string)
    requires q + |attrs| < |s| && s[q..q + |attrs|] == attrs && s[q + |attrs|] == '>'
    requires XmlPrep.PlainText(attrs)
    ensures LazyTo(s, q, ">") == Some(q + |attrs|)
  {
    var g := q + |attrs|;
    forall k | q <= k < g ensures s[k] != ">"[0] && !IsLineTerminator(s[k]) {
      assert s[k] == s[q..g][k - q] == attrs[k - q];
    }
    assert s[g..g + 1] == ">";
    LazyToAt(s, q, ">", g);
  }

  /** The lazy run of a body stops at the element's own closing tag right after it. */
  lemma {:induction false} BodyRunsTo(s: string, b: nat, text: string, name: string)
    requires b + |text| <= |s| && s[b..b + |text|] == text && OccursAt(s, Close(name), b + |text|)
    requires PlainName(name) && Inline(text) && !Contains(text, Close(name))
    requires text != "" && text[|text| - 1] == '>'
    ensures LazyTo(s, b, Close(name)) == Some(b + |text|)
  {
    var c := b + |text|;
    forall k | b <= k < c ensures !OccursAt(s, Close(name), k) && !IsLineTerminator(s[k]) {
      assert s[k] == s[b..c][k - b] == text[k - b];
      BodyNoClose(s, b, c, text, name, k);
    }
    LazyToFirst(s, b, Close(name), c);
  }

  /** The body of a parent: a run of leaves is no text, so it reads as the list of their
      nodes. */
  lemma {:induction false} ChildrenContent(ls: seq<Leaf>)
    requires |ls| > 0 && SimpleLeaves(ls)
    ensures Content(Leaves(ls)) == Ok(Arr(LeafNodes(ls)))
  {
    var l := ls[0];
    var body := Leaves(ls);
    assert SimpleElement(l.name, l.attrs, l.text);
    LeavesSplit(ls);
    StartsWithTag(body, l.name, l.attrs, l.text);
    LeavesItems(ls);
  }

  /** A chunk that starts with an element starts with `<` and has no CDATA section. */
  lemma {:induction false} StartsWithTag(s: string, name: string, attrs: string, text: string)
    requires Leads(s, name, attrs, text) && PlainName(name)
    ensures NodeValue(s) == Bool(false)
  {
    assert s[0] == '<' && s[1] == s[..1 + |name|][1] == name[0];
    assert !StartsWith(s, "<![CDATA[") by {
      if |s| >= 9 {
        assert s[..9][1] == s[1];
      }
    }
    assert CData(s).None?;
    assert s[..1] == "<";
  }

  /** A parent whose body is a run of leaves reads as one node whose value is the list of
      its children's nodes, a list even of one child. No child has the parent's name. */
  lemma {:induction false} ParentRead(name: string, attrs: string, ls: seq<Leaf>)
    requires SimpleTag(name, attrs) && |ls| > 0 && SimpleLeaves(ls)
    requires forall i :: 0 <= i < |ls| ==> ls[i].name != name
    ensures ParseTag(Element(name, attrs, Leaves(ls))) == Ok(Node(name, Arr(LeafNodes(ls)), AttributesOf(attrs)))
  {
    var body := Leaves(ls);
    var s := Element(name, attrs, body);
    LeavesEnd(ls);
    LeavesInline(ls);
    LeavesNoClose(ls, name);
    LeavesOpenClosed(ls, name);
    ChildrenContent(ls);
    ElementLaidOut(name, attrs, body);
    var parts := ParentParts(s, name, attrs, body);
    FoundWhole(s, name, parts, Arr(LeafNodes(ls)));
  }

  /** The lookup finds the parent whole. */
  lemma {:induction false} ParentParts(s: string, name: string, attrs: string, body: string)
    returns (parts: TagParts)
    requires SimpleTag(name, attrs) && ElementLayout(s, name, attrs, body)
    requires Inline(body) && body != "" && body[|body| - 1] == '>'
    requires !Contains(body, Close(name))
    requires Contains(body, "<" + name) ==> Contains(body, "</" + name)
    ensures TagName(s) == Some(name) && name != ""
    ensures TagByName(s, name) == Ok(Some(parts)) && WholeElement(parts, s, name, attrs, body)
  {
    var g := 1 + |name| + |attrs|;
    var c := g + 1 + |body|;
    ParentAt(s, name, attrs, body);
    ParentLookup(s, name, body, g, c);
    WholeParts(s, name, attrs, body);
    parts := FirstMatch(s, name, 0, g, c);
  }

  /** The lookup takes the leftmost element match when the body's own tags of the name
      are closed. */
  lemma {:induction false} ParentLookup(s: string, name: string, body: string, g: nat, c: nat)
    requires Leftmost(|s|, 0, Elements(s, name)) == Some(0)
    requires ElementAt(s, name, 0) == Some((g, c)) && s[g + 1..c] == body
    requires Contains(body, "<" + name) ==> Contains(body, "</" + name)
    ensures TagByName(s, name) == Ok(Some(FirstMatch(s, name, 0, g, c)))
  {
    FoundBalanced(s, name, g, c);
  }

  /** A chunk whose element is all of it reads as that element's node alone. */
  lemma {:induction false} FoundWhole(s: string, name: string, parts: TagParts, v: Value)
    requires TagName(s) == Some(name) && name != ""
    requires TagByName(s, name) == Ok(Some(parts))
    requires parts.input == s && parts.matched == s && Content(parts.body) == Ok(v)
    ensures Items(s) == Ok([Node(name, v, AttributesOf(parts.attributes))])
  {
    ItemsOfFound(s, name, parts);
    XmlPrep.ReplaceWhole(s, "");
    LoneValue(s, parts, v);
  }

  lemma {:induction false} ParentAt(s: string, name: string, attrs: string, body: string)
    requires SimpleTag(name, attrs) && ElementLayout(s, name, attrs, body)
    requires Inline(body) && body != "" && body[|body| - 1] == '>'
    requires !Contains(body, Close(name))
    ensures var g := 1 + |name| + |attrs|;
      var c := g + 1 + |body|;
      && TagName(s) == Some(name)
      && Leftmost(|s|, 0, Elements(s, name)) == Some(0)
      && ElementAt(s, name, 0) == Some((g, c))
      && s[g + 1..c] == body
  {
    LaidOutLeads(s, name, attrs, body);
    NameOf(s, name, attrs, body);
    LeadTags(s, name, attrs, body);
    ElementAtOver(s, name, attrs, body);
    LeftmostAt(|s|, 0, Elements(s, name), 0);
  }
}
