/**
 * utils/parser.py: turning the dictionary that parsedmarc returns for an
 * aggregate report into the fixed record layout handed to the language
 * model. parsedmarc itself (file reading and XML parsing) is a foreign call.
 */
module Parser {
  import opened Wrappers
  import opened PyValues

  /** What `parsedmarc.parse_report_file(path)` does: return the parsed report or raise. */
  datatype ParseOutcome = Parsed(report: Value) | ParseRaised(message: string)

  const EmptyDict: Value := VDict(map[])

  predicate DictOrAbsent(d: map<string, Value>, key: string) {
    key !in d || d[key].VDict?
  }

  /** A record on which every `.get` of `format_structure` is applied to a dict. */
  predicate RecordShaped(record: Value) {
    && record.VDict?
    && DictOrAbsent(record.entries, "source")
    && DictOrAbsent(record.entries, "identifiers")
    && DictOrAbsent(record.entries, "policy_evaluated")
    && DictOrAbsent(record.entries, "auth_results")
  }

  /** `parsed.get('report', {})`. */
  function ReportOf(parsed: Value): map<string, Value>
    requires parsed.VDict? && DictOrAbsent(parsed.entries, "report")
  {
    Get(parsed.entries, "report", EmptyDict).entries
  }

  /**
   * The shape of a parsedmarc result that `format_structure` can walk without
   * an AttributeError: dicts where it calls `.get`, a list of records.
   */
  predicate ReportShaped(parsed: Value) {
    && parsed.VDict?
    && DictOrAbsent(parsed.entries, "report")
    && var report := ReportOf(parsed);
       ("records" in report ==>
          report["records"].VList? &&
          forall r :: r in report["records"].items ==> RecordShaped(r))
  }

  /** `report_data.get("records", [])`. */
  function Records(parsed: Value): (rs: seq<Value>)
    requires ReportShaped(parsed)
    ensures forall r :: r in rs ==> RecordShaped(r)
  {
    Get(ReportOf(parsed), "records", VList([])).items
  }

  const RecordKeys: set<string> := {
    "source_ip", "source_country", "source_domain", "source_name", "source_type",
    "count", "header_from", "envelope_from", "envelope_to",
    "spf_result", "dkim_result", "disposition", "spf_auth", "dkim_auth", "alignment"}

  /** The dictionary built for one record inside the loop of `format_structure`. */
  function FormatRecord(record: Value): (r: Value)
    requires RecordShaped(record)
    ensures r.VDict?
  {
    var d := record.entries;
    var source := Get(d, "source", EmptyDict).entries;
    var identifiers := Get(d, "identifiers", EmptyDict).entries;
    var policy := Get(d, "policy_evaluated", EmptyDict).entries;
    var auth := Get(d, "auth_results", EmptyDict).entries;
    VDict(map[
      "source_ip" := Get(source, "ip_address", VNone),
      "source_country" := Get(source, "country", VNone),
      "source_domain" := Get(source, "base_domain", VNone),
      "source_name" := Get(source, "name", VNone),
      "source_type" := Get(source, "type", VNone),
      "count" := Get(d, "count", VNone),
      "header_from" := Get(identifiers, "header_from", VNone),
      "envelope_from" := Get(identifiers, "envelope_from", VNone),
      "envelope_to" := Get(identifiers, "envelope_to", VNone),
      "spf_result" := Get(policy, "spf", VNone),
      "dkim_result" := Get(policy, "dkim", VNone),
      "disposition" := Get(policy, "disposition", VNone),
      "spf_auth" := Get(auth, "spf", VList([])),
      "dkim_auth" := Get(auth, "dkim", VList([])),
      "alignment" := Get(d, "alignment", EmptyDict)
    ])
  }

  /** The value under `key` of a sub-dictionary of a record, or `default` when either is absent. */
  function Field(record: map<string, Value>, section: string, key: string, default: Value): Value
    requires DictOrAbsent(record, section)
  {
    if section in record && key in record[section].entries then record[section].entries[key] else default
  }

  /** A formatted record has exactly the fifteen output keys. */
  lemma FormattedRecordKeys(record: Value)
    requires RecordShaped(record)
    ensures FormatRecord(record).entries.Keys == RecordKeys
  {
  }

  /** The address and country of the `source` section are copied, and are None when absent. */
  lemma FormattedRecordSourceAddress(record: Value)
    requires RecordShaped(record)
    ensures var f := FormatRecord(record).entries; var d := record.entries;
      && f["source_ip"] == Field(d, "source", "ip_address", VNone)
      && f["source_country"] == Field(d, "source", "country", VNone)
  {
  }

  /** The domain, name and type of the `source` section are copied, and are None when absent. */
  lemma FormattedRecordSourceOwner(record: Value)
    requires RecordShaped(record)
    ensures var f := FormatRecord(record).entries; var d := record.entries;
      && f["source_domain"] == Field(d, "source", "base_domain", VNone)
      && f["source_name"] == Field(d, "source", "name", VNone)
      && f["source_type"] == Field(d, "source", "type", VNone)
  {
  }

  /** The three identifiers are copied, and are None when absent. */
  lemma FormattedRecordIdentifiers(record: Value)
    requires RecordShaped(record)
    ensures var f := FormatRecord(record).entries; var d := record.entries;
      && f["header_from"] == Field(d, "identifiers", "header_from", VNone)
      && f["envelope_from"] == Field(d, "identifiers", "envelope_from", VNone)
      && f["envelope_to"] == Field(d, "identifiers", "envelope_to", VNone)
  {
  }

  /** The evaluated spf, dkim and disposition are copied, and are None when absent. */
  lemma FormattedRecordEvaluation(record: Value)
    requires RecordShaped(record)
    ensures var f := FormatRecord(record).entries; var d := record.entries;
      && f["spf_result"] == Field(d, "policy_evaluated", "spf", VNone)
      && f["dkim_result"] == Field(d, "policy_evaluated", "dkim", VNone)
      && f["disposition"] == Field(d, "policy_evaluated", "disposition", VNone)
  {
  }

  /**
   * `count` is copied (None when absent), the two authentication lists
   * default to [] and `alignment` to {}.
   */
  lemma FormattedRecordDefaults(record: Value)
    requires RecordShaped(record)
    ensures var f := FormatRecord(record).entries; var d := record.entries;
      && f["spf_auth"] == Field(d, "auth_results", "spf", VList([]))
      && f["dkim_auth"] == Field(d, "auth_results", "dkim", VList([]))
      && f["alignment"] == (if "alignment" in d then d["alignment"] else EmptyDict)
      && f["count"] == (if "count" in d then d["count"] else VNone)
  {
  }

  /**
   * The dictionary `format_structure` returns: exactly three keys, metadata
   * and published policy passed through (None when absent), and one
   * formatted record per input record, in input order.
   */
  function FormattedReport(parsed: Value): (r: Value)
    requires ReportShaped(parsed)
    ensures r.VDict? && r.entries.Keys == {"report_metadata", "policy_published", "records"}
    ensures r.entries["report_metadata"] == Get(ReportOf(parsed), "report_metadata", VNone)
    ensures r.entries["policy_published"] == Get(ReportOf(parsed), "policy_published", VNone)
    ensures r.entries["records"].VList?
    ensures |r.entries["records"].items| == |Records(parsed)|
    ensures forall i :: 0 <= i < |Records(parsed)| ==>
      r.entries["records"].items[i] == FormatRecord(Records(parsed)[i])
  {
    var report := ReportOf(parsed);
    var records := Records(parsed);
    VDict(map[
      "report_metadata" := Get(report, "report_metadata", VNone),
      "policy_published" := Get(report, "policy_published", VNone),
      "records" := VList(seq(|records|, i requires 0 <= i < |records| => FormatRecord(records[i])))
    ])
  }

  /** A parsed value without a "report" key, or whose report has no "records", formats to no records. */
  lemma MissingRecordsFormatEmpty(parsed: Value)
    requires ReportShaped(parsed)
    requires "report" !in parsed.entries || "records" !in ReportOf(parsed)
    ensures FormattedReport(parsed).entries["records"] == VList([])
    ensures "report" !in parsed.entries ==>
      FormattedReport(parsed).entries["report_metadata"] == VNone &&
      FormattedReport(parsed).entries["policy_published"] == VNone
  {
  }

  /** `format_structure`: its loop appends one formatted record per input record. */
  method FormatStructure(parsed: Value) returns (r: Value)
    requires ReportShaped(parsed)
    ensures r == FormattedReport(parsed)
  {
    var reportData := Get(parsed.entries, "report", EmptyDict).entries;
    var records := Get(reportData, "records", VList([])).items;
    var formattedRecords: seq<Value> := [];
    for i := 0 to |records|
      invariant |formattedRecords| == i
      invariant forall j :: 0 <= j < i ==> formattedRecords[j] == FormatRecord(records[j])
    {
      formattedRecords := formattedRecords + [FormatRecord(records[i])];
    }
    r := VDict(map[
      "report_metadata" := Get(reportData, "report_metadata", VNone),
      "policy_published" := Get(reportData, "policy_published", VNone),
      "records" := VList(formattedRecords)
    ]);
    assert formattedRecords == FormattedReport(parsed).entries["records"].items;
  }

  /** `parse_dmarc_xml`: any exception of the parser becomes None. */
  function ParseDmarcXml(path: string, parse: string -> ParseOutcome): (r: Value)
    ensures parse(path).ParseRaised? ==> r == VNone
    ensures parse(path).Parsed? ==> r == parse(path).report
  {
    match parse(path)
    case Parsed(report) => report
    case ParseRaised(_) => VNone
  }

  /** Every file whose parse result is truthy has the shape `format_structure` needs. */
  predicate TruthyResultsShaped(files: seq<string>, parse: string -> ParseOutcome) {
    forall f :: f in files && Truthy(ParseDmarcXml(f, parse)) ==> ReportShaped(ParseDmarcXml(f, parse))
  }

  /** The list `parse_and_format_all` builds: one formatted report per truthy parse, in file order. */
  function FormattedAll(files: seq<string>, parse: string -> ParseOutcome): (r: seq<Value>)
    requires TruthyResultsShaped(files, parse)
    ensures |r| <= |files|
    ensures forall v :: v in r ==> v.VDict? && v.entries.Keys == {"report_metadata", "policy_published", "records"}
  {
    if files == [] then []
    else
      var init := FormattedAll(files[..|files| - 1], parse);
      var parsed := ParseDmarcXml(files[|files| - 1], parse);
      if Truthy(parsed) then init + [FormattedReport(parsed)] else init
  }

  /** The list is built file by file: the files of a concatenation contribute in order. */
  lemma {:induction false} FormattedAllAppend(a: seq<string>, b: seq<string>, parse: string -> ParseOutcome)
    requires TruthyResultsShaped(a + b, parse)
    ensures TruthyResultsShaped(a, parse) && TruthyResultsShaped(b, parse)
    ensures FormattedAll(a + b, parse) == FormattedAll(a, parse) + FormattedAll(b, parse)
    decreases |b|
  {
    if b == [] {
      assert a + b == a;
    } else {
      var b' := b[..|b| - 1];
      assert (a + b)[..|a + b| - 1] == a + b';
      FormattedAllAppend(a, b', parse);
    }
  }

  /**
   * A file whose parse raises, or yields a falsy value, contributes nothing;
   * a file with a truthy parse contributes exactly its formatted report, at
   * its position among the others.
   */
  lemma FormattedAllPerFile(a: seq<string>, f: string, b: seq<string>, parse: string -> ParseOutcome)
    requires TruthyResultsShaped(a + [f] + b, parse)
    ensures TruthyResultsShaped(a, parse) && TruthyResultsShaped(b, parse)
    ensures var parsed := ParseDmarcXml(f, parse);
      FormattedAll(a + [f] + b, parse) ==
        FormattedAll(a, parse) + (if Truthy(parsed) then [FormattedReport(parsed)] else []) + FormattedAll(b, parse)
  {
    FormattedAllAppend(a + [f], b, parse);
    FormattedAllAppend(a, [f], parse);
    assert [f][..0] == [];
  }

  /** At most one report per file. */
  lemma {:induction false} FormattedAllBounded(files: seq<string>, parse: string -> ParseOutcome)
    requires TruthyResultsShaped(files, parse)
    ensures |FormattedAll(files, parse)| <= |files|
    ensures (forall f :: f in files ==> parse(f).ParseRaised?) ==> FormattedAll(files, parse) == []
  {
    if files != [] {
      FormattedAllBounded(files[..|files| - 1], parse);
    }
  }

  /** `parse_and_format_all`: the loop over the files of the folder, in the order the glob lists them. */
  method ParseAndFormatAll(files: seq<string>, parse: string -> ParseOutcome) returns (allFormatted: seq<Value>)
    requires TruthyResultsShaped(files, parse)
    ensures allFormatted == FormattedAll(files, parse)
  {
    allFormatted := [];
    for i := 0 to |files|
      invariant TruthyResultsShaped(files[..i], parse)
      invariant allFormatted == FormattedAll(files[..i], parse)
    {
      assert files[..i + 1][..i] == files[..i];
      var parsed := ParseDmarcXml(files[i], parse);
      if Truthy(parsed) {
        var formatted := FormatStructure(parsed);
        allFormatted := allFormatted + [formatted];
      }
    }
    assert files[..|files|] == files;
  }

  /** `parse_and_format_xml`: no exception handling, so a parser failure propagates. */
  function ParseAndFormatXml(xml: string, parse: string -> ParseOutcome): (r: Result<Value, string>)
    requires parse(xml).Parsed? ==> ReportShaped(parse(xml).report)
    ensures r.Failure? <==> parse(xml).ParseRaised?
    ensures r.Success? ==> r.value == FormattedReport(parse(xml).report)
  {
    match parse(xml)
    case ParseRaised(message) => Failure(message)
    case Parsed(report) => Success(FormattedReport(report))
  }
}
