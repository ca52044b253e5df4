/** The engine's entry point: an XML text is parsed into JSON and the JSON made into a
    `Vast`. Whatever goes wrong reaches the caller as a `VastError` of the VAST 3.0
    error-code table: 100 for the parse, 101 for the Schema built from it, and the building's
    own VAST error (102, an unsupported version) passed on as it is. */
module VastLoad {
  import opened Js
  import opened Strs
  import opened Schemas
  import XmlParser
  import Vast

  /** The `message` of a `SchemaError`, for each reason the Schema layer refuses its input. */
  function SchemaMessage(p: SchemaProblem): string {
    match p
    case NotAnObject(typeName) => "Expected 'Object' but got '" + typeName + "'."
    case NoTagName(json) => "Give tag doesn't have a name '" + json + "'."
    case NoAttributes(tagName) => "Tag with name '" + tagName + "' is missing attributes."
    case UnexpectedName(className, expected, actual) =>
      "'" + className + "' schema expected '" + expected + "' as name. [" + actual + "]"
    case NameMissing => "Tag name is expected to be a string."
  }

  /** `e.message` of a thrown value that is no `VastError` (those are passed on whole). The
      engine's own errors carry the engine's wording, which `native` supplies. */
  function MessageOf(e: Thrown, native: Thrown -> string): Option<string>
    requires !e.VastError?
  {
    if e.XmlParserError? || e.Failure? then Some(e.message)
    else if e.SchemaError? then Some(SchemaMessage(e.problem))
    else Some(native(e))
  }

  /** The default export of the loader: `parseXML(xml).json()`, whose failure is VAST error
      100 with the parser's message; then `createVast(json)`, whose failure is VAST error 101
      with the failure's message unless it already is a `VastError`, which is rethrown. */
  function FromXml(xml: Value, native: Thrown -> string): (r: Result<Value>)
    ensures r.Err? ==> r.error.VastError? && r.error.code in {100, 101, 102}
    ensures r.Err? && r.error.code == 100 <==> XmlParser.Parse(xml).Err?
    ensures r.Ok? ==> r.value.Obj? && r.value.cls == VastClass && DistinctKeys(r.value.props)
    ensures r.Ok? <==> XmlParser.Parse(xml).Ok? && Vast.New(XmlParser.Parse(xml).value).Ok?
    ensures r.Ok? ==> r == Vast.New(XmlParser.Parse(xml).value)
  {
    match XmlParser.Parse(xml)
    case Err(e) => Err(VastError(100, MessageOf(e, native)))
    case Ok(json) =>
      match Vast.New(json)
      case Err(e) => if e.VastError? then Err(e) else Err(VastError(101, MessageOf(e, native)))
      case Ok(vast) => Ok(vast)
  }

  // ---------------------------------------------------------------- properties

  /** A parse failure is error 100 and keeps the parser's message as the error's info. */
  lemma {:induction false} ParserMessageKept(xml: Value, native: Thrown -> string, message: string)
    requires XmlParser.Parse(xml) == Err(XmlParserError(message))
    ensures FromXml(xml, native) == Err(VastError(100, Some(message)))
  {
  }

  /** An empty, falsy or blank document never reaches the Schema: it is error 100 with the
      parser's complaint that there is no body. */
  lemma {:induction false} BlankIs100(xml: Value, native: Thrown -> string)
    requires !Truthy(xml) || (xml.Str? && AllSpace(xml.s))
    ensures FromXml(xml, native) == Err(VastError(100, Some("XML has no body.")))
  {
    XmlParser.BlankDocument(xml);
  }

  /** A document that parses but that the Schema layer refuses is error 101 carrying the
      Schema's message. */
  lemma {:induction false} SchemaRefusalIs101(xml: Value, native: Thrown -> string, p: SchemaProblem)
    requires XmlParser.Parse(xml).Ok? && Vast.New(XmlParser.Parse(xml).value) == Err(SchemaError(p))
    ensures FromXml(xml, native) == Err(VastError(101, Some(SchemaMessage(p))))
  {
  }

  /** A document whose `vast` Schema builds but whose version is not 1 to 4 is error 102,
      thrown by the constructor and passed on unchanged, with no info. */
  lemma {:induction false} UnsupportedVersionIs102(xml: Value, native: Thrown -> string)
    requires XmlParser.Parse(xml).Ok?
    requires Construct(XmlParser.Parse(xml).value, VastClass, "vast").Ok?
    requires !Vast.Supported(Vast.Version(Construct(XmlParser.Parse(xml).value, VastClass, "vast").value))
    ensures FromXml(xml, native) == Err(VastError(102, None))
  {
    var json := XmlParser.Parse(xml).value;
    Vast.NewChecked(json);
    Vast.UnsupportedVersion(Construct(json, VastClass, "vast").value);
  }

  /** Error 101 is exactly a parsed document whose building failed with anything but a
      VAST error. */
  lemma {:induction false} Code101Exactly(xml: Value, native: Thrown -> string)
    ensures var r := FromXml(xml, native);
      r.Err? && r.error.code == 101 <==>
        && XmlParser.Parse(xml).Ok?
        && Vast.New(XmlParser.Parse(xml).value).Err?
        && !Vast.New(XmlParser.Parse(xml).value).error.VastError?
  {
  }
}
