/**
 * The guards of utils/validators.py: an attachment size ceiling, the
 * structural shape of a DMARC aggregate report, and the shape of the JSON
 * answer returned by the language model. XML and JSON parsing are foreign
 * calls and appear as function parameters.
 */
module Validators {
  import opened Wrappers
  import opened PyValues

  /** The reasons a `ValidationError` is raised with. */
  datatype ValidationError =
    | AttachmentTooLarge(filename: string, sizeBytes: int, limitMb: int)
    | InvalidXml(reason: string)
    | NotDmarcRoot(rootTag: string)
    | MissingReportMetadata
    | InvalidJson(reason: string)
    | InvalidStatus(status: Value)
    | MissingRequiredKeys(missing: seq<string>)
    | NotAnObject

  /** An exception other than ValidationError that escapes a guard. */
  datatype Escaped = FromOperator(error: PyError) | FromXmlParser(message: string)

  /** How a guard ends: it returns, raises ValidationError, or lets another exception escape. */
  datatype Outcome<T> = Passed(value: T) | Rejected(error: ValidationError) | Raised(escaped: Escaped)

  const BytesPerMb: int := 1024 * 1024

  /** `validate_attachment_size`: the limit is given in megabytes and compared in bytes. */
  function ValidateAttachmentSize(sizeBytes: int, filename: string, limitMb: int): (r: Outcome<()>)
    ensures !r.Raised?
    ensures r.Rejected? ==> r.error == AttachmentTooLarge(filename, sizeBytes, limitMb)
  {
    if sizeBytes > limitMb * BytesPerMb then Rejected(AttachmentTooLarge(filename, sizeBytes, limitMb))
    else Passed(())
  }

  /** The ceiling is inclusive, and a size that passes stays passing when it shrinks. */
  lemma SizeLimitInclusive(sizeBytes: int, smaller: int, filename: string, limitMb: int)
    requires smaller <= sizeBytes
    ensures ValidateAttachmentSize(limitMb * 1048576, filename, limitMb).Passed?
    ensures ValidateAttachmentSize(limitMb * 1048576 + 1, filename, limitMb).Rejected?
    ensures ValidateAttachmentSize(sizeBytes, filename, limitMb).Passed? ==>
            ValidateAttachmentSize(smaller, filename, limitMb).Passed?
  {
  }

  /** With the default limit of 25 MB an attachment passes exactly up to 26214400 bytes. */
  lemma DefaultSizeLimit(sizeBytes: int, filename: string)
    ensures ValidateAttachmentSize(sizeBytes, filename, 25).Passed? <==> sizeBytes <= 26214400
  {
  }

  /** An XML element as the parser returns it: its tag and its child elements. */
  datatype Element = Element(tag: string, children: seq<Element>)

  /** What `ET.fromstring` does with a document. */
  datatype XmlParse =
    | Parsed(root: Element)
    | ParseError(message: string)     // ET.ParseError: malformed XML
    | Forbidden(message: string)      // defusedxml's DTD/entity/external-reference refusals

  /** `element.find(tag)` with a plain tag name: the first direct child with that tag. */
  function FindChild(children: seq<Element>, tag: string): (r: Option<Element>)
    ensures r.None? <==> forall i :: 0 <= i < |children| ==> children[i].tag != tag
    ensures r.Some? ==> exists i :: 0 <= i < |children| && children[i] == r.value &&
                          r.value.tag == tag &&
                          forall j :: 0 <= j < i ==> children[j].tag != tag
  {
    if children == [] then None
    else if children[0].tag == tag then Some(children[0])
    else
      var r := FindChild(children[1..], tag);
      assert forall i :: 1 <= i < |children| ==> children[i] == children[1..][i - 1];
      r
  }

  /** `validate_xml_structure`: well-formed, rooted at `feedback`, with a direct `report_metadata` child. */
  function ValidateXmlStructure(xml: string, parse: string -> XmlParse): (r: Outcome<()>)
    ensures r.Raised? <==> parse(xml).Forbidden?
    ensures r.Rejected? && r.error.InvalidXml? <==> parse(xml).ParseError?
    ensures r.Rejected? ==> r.error.InvalidXml? || r.error.NotDmarcRoot? || r.error.MissingReportMetadata?
  {
    match parse(xml)
    case ParseError(message) => Rejected(InvalidXml(message))
    case Forbidden(message) => Raised(FromXmlParser(message))
    case Parsed(root) =>
      if root.tag != "feedback" then Rejected(NotDmarcRoot(root.tag))
      else if FindChild(root.children, "report_metadata").None? then Rejected(MissingReportMetadata)
      else Passed(())
  }

  predicate HasChildTagged(e: Element, tag: string) {
    exists c :: c in e.children && c.tag == tag
  }

  /** A document passes exactly when it parses to a `feedback` root with a direct `report_metadata` child. */
  lemma XmlAcceptedIffDmarcShape(xml: string, parse: string -> XmlParse)
    ensures ValidateXmlStructure(xml, parse).Passed? <==>
      parse(xml).Parsed? && parse(xml).root.tag == "feedback" &&
      HasChildTagged(parse(xml).root, "report_metadata")
  {
    match parse(xml)
    case Parsed(root) =>
      if HasChildTagged(root, "report_metadata") {
        var c :| c in root.children && c.tag == "report_metadata";
        var i :| 0 <= i < |root.children| && root.children[i] == c;
      }
    case _ =>
  }

  /**
   * The checks short-circuit in order: a malformed document is reported as
   * such, and a wrong root is reported whatever its children are.
   */
  lemma XmlChecksInOrder(xml: string, parse: string -> XmlParse)
    ensures parse(xml).ParseError? ==>
      ValidateXmlStructure(xml, parse) == Rejected(InvalidXml(parse(xml).message))
    ensures parse(xml).Forbidden? ==> ValidateXmlStructure(xml, parse).Raised?
    ensures parse(xml).Parsed? && parse(xml).root.tag != "feedback" ==>
      ValidateXmlStructure(xml, parse) == Rejected(NotDmarcRoot(parse(xml).root.tag))
    ensures parse(xml).Parsed? && parse(xml).root.tag == "feedback" &&
            !HasChildTagged(parse(xml).root, "report_metadata") ==>
      ValidateXmlStructure(xml, parse) == Rejected(MissingReportMetadata)
  {
    XmlAcceptedIffDmarcShape(xml, parse);
  }

  /** Only direct children count: a `report_metadata` nested one level deeper is missing. */
  lemma NestedMetadataIsMissing(xml: string, parse: string -> XmlParse)
    requires parse(xml) == Parsed(Element("feedback", [Element("report", [Element("report_metadata", [])])]))
    ensures ValidateXmlStructure(xml, parse) == Rejected(MissingReportMetadata)
  {
  }

  const RequiredKeys: seq<string> := ["summary", "failures", "remediation", "conclusion"]
  const ValidStatuses: seq<Value> := [VStr("empty"), VStr("not_dmarc_report")]

  /** `xs` keeps some of the elements of `ys`, in their order in `ys`. */
  predicate IsSubsequence(xs: seq<string>, ys: seq<string>) {
    if xs == [] then true
    else if ys == [] then false
    else if xs[0] == ys[0] then IsSubsequence(xs[1..], ys[1..])
    else IsSubsequence(xs, ys[1..])
  }

  /** `[key for key in keys if key not in data]`, where each `in` may raise. */
  function MissingKeys(data: Value, keys: seq<string>): (r: Result<seq<string>, PyError>)
    ensures r.Failure? ==> r.error.TypeError?
    ensures data.VDict? ==>
      (r.Success? && IsSubsequence(r.value, keys) &&
       (forall k :: k in r.value <==> k in keys && k !in data.entries) &&
       (r.value == [] <==> forall k :: k in keys ==> k in data.entries))
  {
    if keys == [] then Success([])
    else
      match Contains(data, keys[0])
      case Failure(e) => Failure(e)
      case Success(present) =>
        match MissingKeys(data, keys[1..])
        case Failure(e) => Failure(e)
        case Success(rest) => Success(if present then rest else [keys[0]] + rest)
  }

  /**
   * `validate_gpt_response`. A "status" key selects the short answer and is
   * checked against the two allowed statuses; otherwise all four analysis
   * keys must be present. On success the decoded value is returned as is.
   */
  function ValidateGptResponse(response: string, parse: string -> Result<Value, string>): (r: Outcome<Value>)
    ensures r.Passed? ==> parse(response) == Success(r.value)
    ensures r.Rejected? && r.error.InvalidJson? <==> parse(response).Failure?
    ensures r.Raised? ==> r.escaped.FromOperator? && r.escaped.error.TypeError?
  {
    match parse(response)
    case Failure(message) => Rejected(InvalidJson(message))
    case Success(data) =>
      match Contains(data, "status")
      case Failure(e) => Raised(FromOperator(e))
      case Success(hasStatus) =>
        if hasStatus then
          match Subscript(data, "status")
          case Failure(e) => Raised(FromOperator(e))
          case Success(status) =>
            if status in ValidStatuses then Passed(data) else Rejected(InvalidStatus(status))
        else
          match MissingKeys(data, RequiredKeys)
          case Failure(e) => Raised(FromOperator(e))
          case Success(missing) =>
            if missing != [] then Rejected(MissingRequiredKeys(missing)) else Passed(data)
  }

  /** Undecodable JSON is a ValidationError. */
  lemma GptInvalidJsonRejected(response: string, parse: string -> Result<Value, string>)
    requires parse(response).Failure?
    ensures ValidateGptResponse(response, parse) == Rejected(InvalidJson(parse(response).error))
  {
  }

  /**
   * An object with a "status" key is accepted exactly when the status is
   * "empty" or "not_dmarc_report", whatever other keys it has or lacks.
   */
  lemma GptStatusDecides(response: string, parse: string -> Result<Value, string>)
    requires parse(response).Success? && parse(response).value.VDict?
    requires "status" in parse(response).value.entries
    ensures var status := parse(response).value.entries["status"];
      ValidateGptResponse(response, parse) ==
        if status == VStr("empty") || status == VStr("not_dmarc_report") then Passed(parse(response).value)
        else Rejected(InvalidStatus(status))
  {
  }

  /**
   * An object without "status" is returned unchanged when all four keys are
   * present; otherwise the error lists exactly the absent keys, in the order
   * summary, failures, remediation, conclusion.
   */
  lemma GptRequiredKeys(response: string, parse: string -> Result<Value, string>)
    requires parse(response).Success? && parse(response).value.VDict?
    requires "status" !in parse(response).value.entries
    ensures var entries := parse(response).value.entries;
      var r := ValidateGptResponse(response, parse);
      && (r.Passed? <==> forall k :: k in RequiredKeys ==> k in entries)
      && (r.Passed? ==> r.value == parse(response).value)
      && (r.Rejected? ==>
            (r.error.MissingRequiredKeys? &&
             IsSubsequence(r.error.missing, RequiredKeys) &&
             forall k :: k in r.error.missing <==> k in RequiredKeys && k !in entries))
      && !r.Raised?
  {
    var entries := parse(response).value.entries;
    var missing := MissingKeys(parse(response).value, RequiredKeys);
    if !(forall k :: k in RequiredKeys ==> k in entries) {
      var k :| k in RequiredKeys && k !in entries;
      assert k in missing.value;
    }
  }

  /**
   * As written, a JSON array that lists the four key names passes as a
   * complete analysis, and a JSON number escapes as TypeError rather than
   * ValidationError.
   */
  lemma GptNonObjectAsWritten(response: string, parse: string -> Result<Value, string>)
    requires parse(response) == Success(VList([VStr("summary"), VStr("failures"), VStr("remediation"), VStr("conclusion")]))
             || parse(response) == Success(VInt(42))
    ensures parse(response).value.VList? ==> ValidateGptResponse(response, parse) == Passed(parse(response).value)
    ensures parse(response).value.VInt? ==> ValidateGptResponse(response, parse).Raised?
  {
    var data := parse(response).value;
    if data.VList? {
      assert VStr("status") !in data.items;
      assert MissingKeys(data, RequiredKeys[3..]) == Success([]);
      assert MissingKeys(data, RequiredKeys[2..]) == Success([]);
      assert MissingKeys(data, RequiredKeys[1..]) == Success([]);
    }
  }

  /**
   * The check as the docstring describes it: only a JSON object can be an
   * answer; anything else is a ValidationError. Objects are judged as before.
   */
  function ValidateGptResponseObjectsOnly(response: string, parse: string -> Result<Value, string>): (r: Outcome<Value>)
    ensures r.Passed? ==> r.value.VDict? && parse(response) == Success(r.value)
    ensures !r.Raised?
    ensures parse(response).Success? && parse(response).value.VDict? ==> r == ValidateGptResponse(response, parse)
  {
    match parse(response)
    case Failure(message) => Rejected(InvalidJson(message))
    case Success(data) =>
      if !data.VDict? then Rejected(NotAnObject)
      else ValidateGptResponse(response, parse)
  }
}
