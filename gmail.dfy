/**
 * The attachment handling of utils/gmail.py: flattening a message's MIME
 * part tree, picking DMARC report attachments by file name, obtaining and
 * decoding their data, and the small formatting helpers for message
 * metadata. The Gmail API, base64, zipfile and gzip are foreign calls,
 * passed in as the functions of `Services`.
 */
module Gmail {
  import opened Wrappers
  import opened Strings

  newtype byte = x: int | 0 <= x < 256
  type Bytes = seq<byte>

  /** The `body` dict of a message part. */
  datatype Body = Body(attachmentId: Option<string>, data: Option<string>)

  /** A MIME part as the Gmail API returns it; the `parts` key is present on multipart nodes. */
  datatype Part = Part(parts: PartsKey, filename: Option<string>, body: Option<Body>)

  /** The `parts` key of a part: absent, or present with a (possibly empty) list of sub-parts. */
  datatype PartsKey = Absent | Present(children: seq<Part>)

  /** A full message; only its payload is used. */
  datatype Message = Message(payload: Option<Part>)

  /** `iter_parts`: the leaf parts of the tree, depth first, left to right. */
  function Leaves(p: Part): (r: seq<Part>)
    ensures forall q :: q in r ==> q.parts.Absent?
    decreases p
  {
    match p.parts
    case Absent => [p]
    case Present(children) => LeavesOf(children)
  }

  function LeavesOf(ps: seq<Part>): (r: seq<Part>)
    ensures forall q :: q in r ==> q.parts.Absent?
    decreases ps
  {
    if ps == [] then [] else Leaves(ps[0]) + LeavesOf(ps[1..])
  }

  /** `q` is `p` or lies somewhere below it in the part tree. */
  ghost predicate Within(q: Part, p: Part)
    decreases p
  {
    q == p || (p.parts.Present? && exists c :: c in p.parts.children && Within(q, c))
  }

  /** `iter_parts` yields exactly the parts of the tree that have no `parts` key. */
  lemma {:induction false} LeavesExactly(p: Part, q: Part)
    ensures q in Leaves(p) <==> Within(q, p) && q.parts.Absent?
    decreases p
  {
    match p.parts
    case Absent =>
    case Present(children) =>
      LeavesOfExactly(children, q);
      if Within(q, p) && q.parts.Absent? {
        assert q != p;
        var c :| c in children && Within(q, c);
      }
  }

  lemma {:induction false} LeavesOfExactly(ps: seq<Part>, q: Part)
    ensures q in LeavesOf(ps) <==> exists c :: c in ps && Within(q, c) && q.parts.Absent?
    decreases ps
  {
    if ps != [] {
      LeavesExactly(ps[0], q);
      LeavesOfExactly(ps[1..], q);
      if exists c :: c in ps && Within(q, c) && q.parts.Absent? {
        var c :| c in ps && Within(q, c) && q.parts.Absent?;
        if c != ps[0] {
          assert c in ps[1..];
        }
      }
    }
  }

  /** The failures the decoding libraries can raise on a corrupt attachment. */
  datatype DecodeError =
    | UnicodeEncodeError   // `data.encode('UTF-8')` on a lone surrogate
    | BinasciiError        // malformed base64
    | BadZipFile           // not a zip archive, or a member with a bad CRC
    | BadGzipFile          // not a gzip stream
    | EOFError             // a truncated gzip stream
    | ZlibError            // corrupt deflate data inside a gzip stream or a zip member
    | OtherDecodeError(name: string)  // e.g. an encrypted or unsupported zip member

  /** The foreign calls the extraction makes. */
  datatype Services = Services(
    fetchAttachment: string -> Result<Option<string>, string>,  // attachments().get(...).execute().get('data')
    b64decode: string -> Result<Bytes, DecodeError>,             // base64.urlsafe_b64decode(data.encode('UTF-8'))
    openZip: Bytes -> Result<seq<string>, DecodeError>,          // zipfile.ZipFile(...).namelist()
    readMember: (Bytes, string) -> Result<Bytes, DecodeError>,   // zip_file.read(name)
    gunzip: Bytes -> Result<Bytes, DecodeError>)                 // gzip.decompress

  /** An exception that leaves `get_dmarc_attachment_content`. */
  datatype Raised = AttachmentFetchFailed(reason: string) | DecodeFailed(error: DecodeError)

  /**
   * Which decoding failures are logged and skipped: the four kinds named in
   * the `except` clause as written, or every decoding failure.
   */
  datatype CatchPolicy = AsWritten | EveryDecodeError

  predicate Caught(e: DecodeError, policy: CatchPolicy) {
    || policy.EveryDecodeError?
    || e.UnicodeEncodeError? || e.BinasciiError? || e.BadZipFile? || e.BadGzipFile?
  }

  /** `part.get('filename', '')`. */
  function FilenameOf(p: Part): string {
    p.filename.GetOr("")
  }

  /** `part.get('body', {})`. */
  function BodyOf(p: Part): Body {
    p.body.GetOr(Body(None, None))
  }

  /** The case-sensitive extension test that selects report attachments. */
  predicate IsCandidate(name: string) {
    EndsWith(name, ".xml") || EndsWith(name, ".zip") || EndsWith(name, ".gz")
  }

  /** `[f for f in names if f.endswith('.xml')]`. */
  function XmlMembers(names: seq<string>): (r: seq<string>)
    ensures forall n :: n in r <==> n in names && EndsWith(n, ".xml")
    ensures |r| <= |names|
  {
    if names == [] then []
    else (if EndsWith(names[0], ".xml") then [names[0]] else []) + XmlMembers(names[1..])
  }

  /** The data of a part: fetched when it has an attachment id, else the inline body data. */
  function AttachmentData(p: Part, svc: Services): (r: Result<Option<string>, Raised>)
    ensures r.Failure? ==> IsSet(BodyOf(p).attachmentId) && r.error.AttachmentFetchFailed?
    ensures !IsSet(BodyOf(p).attachmentId) ==> r == Success(BodyOf(p).data)
  {
    var body := BodyOf(p);
    if IsSet(body.attachmentId) then
      match svc.fetchAttachment(body.attachmentId.value)
      case Success(data) => Success(data)
      case Failure(reason) => Failure(AttachmentFetchFailed(reason))
    else Success(body.data)
  }

  /** The members read so far from an archive and the failure that stopped the reading, if any. */
  datatype MembersRead = MembersRead(contents: seq<Bytes>, failure: Option<DecodeError>)

  /** Reading the named members in order, stopping at the first that fails. */
  function ReadMembers(archive: Bytes, names: seq<string>, svc: Services): (r: MembersRead)
    ensures |r.contents| <= |names|
    ensures r.failure.None? ==> |r.contents| == |names|
  {
    if names == [] then MembersRead([], None)
    else
      var init := ReadMembers(archive, names[..|names| - 1], svc);
      if init.failure.Some? then init
      else
        match svc.readMember(archive, names[|names| - 1])
        case Success(content) => MembersRead(init.contents + [content], None)
        case Failure(e) => MembersRead(init.contents, Some(e))
  }

  /** A failed read ends the reading: later members are not read. */
  lemma {:induction false} ReadMembersFailurePersists(archive: Bytes, names: seq<string>, k: nat, svc: Services)
    requires k <= |names|
    requires ReadMembers(archive, names[..k], svc).failure.Some?
    ensures ReadMembers(archive, names, svc) == ReadMembers(archive, names[..k], svc)
    decreases |names| - k
  {
    if k < |names| {
      assert names[..k + 1][..k] == names[..k];
      ReadMembersFailurePersists(archive, names, k + 1, svc);
    } else {
      assert names[..k] == names;
    }
  }

  /** What one part adds to the collected contents, or the exception it raises. */
  datatype PartOutcome = Added(entries: seq<Bytes>) | Aborted(raised: Raised)

  /** A decoding failure: logged and skipped (keeping what was already appended), or raised. */
  function OnDecodeFailure(e: DecodeError, kept: seq<Bytes>, policy: CatchPolicy): (r: PartOutcome)
    ensures r.Aborted? <==> !Caught(e, policy)
    ensures r.Aborted? ==> r.raised == DecodeFailed(e)
    ensures r.Added? ==> r.entries == kept
  {
    if Caught(e, policy) then Added(kept) else Aborted(DecodeFailed(e))
  }

  /** The entries of a candidate part whose data decoded to `fileData`, by extension. */
  function Unpacked(name: string, fileData: Bytes, svc: Services, policy: CatchPolicy): (r: PartOutcome)
    ensures r.Aborted? ==> r.raised.DecodeFailed? && !Caught(r.raised.error, policy)
    ensures !IsCandidate(name) ==> r == Added([])
  {
    if EndsWith(name, ".xml") then Added([fileData])
    else if EndsWith(name, ".zip") then
      match svc.openZip(fileData)
      case Failure(e) => OnDecodeFailure(e, [], policy)
      case Success(names) =>
        var read := ReadMembers(fileData, XmlMembers(names), svc);
        if read.failure.Some? then OnDecodeFailure(read.failure.value, read.contents, policy)
        else Added(read.contents)
    else if EndsWith(name, ".gz") then
      match svc.gunzip(fileData)
      case Failure(e) => OnDecodeFailure(e, [], policy)
      case Success(content) => Added([content])
    else Added([])
  }

  /** One iteration of the loop over the leaf parts. */
  function PartContribution(p: Part, svc: Services, policy: CatchPolicy): (r: PartOutcome)
    ensures r.Aborted? ==>
      || (r.raised.AttachmentFetchFailed? && IsSet(BodyOf(p).attachmentId))
      || (r.raised.DecodeFailed? && !Caught(r.raised.error, policy))
    ensures !IsCandidate(FilenameOf(p)) ==> r == Added([])
  {
    var name := FilenameOf(p);
    if !IsCandidate(name) then Added([])
    else
      match AttachmentData(p, svc)
      case Failure(r) => Aborted(r)
      case Success(data) =>
        if !IsSet(data) then Added([])
        else
          match svc.b64decode(data.value)
          case Failure(e) => OnDecodeFailure(e, [], policy)
          case Success(fileData) => Unpacked(name, fileData, svc, policy)
  }

  /** The contents collected over a sequence of parts, or the first exception raised. */
  function Collected(parts: seq<Part>, svc: Services, policy: CatchPolicy): (r: Result<seq<Bytes>, Raised>)
    ensures r.Failure? ==>
      || r.error.AttachmentFetchFailed?
      || (r.error.DecodeFailed? && !Caught(r.error.error, policy))
  {
    if parts == [] then Success([])
    else
      match Collected(parts[..|parts| - 1], svc, policy)
      case Failure(r) => Failure(r)
      case Success(acc) =>
        match PartContribution(parts[|parts| - 1], svc, policy)
        case Aborted(r) => Failure(r)
        case Added(entries) => Success(acc + entries)
  }

  /** `msg.get('payload', {})`. */
  function PayloadOf(msg: Message): Part {
    msg.payload.GetOr(Part(Absent, None, None))
  }

  /** What `get_dmarc_attachment_content` returns: None for an empty collection. */
  function AttachmentContent(msg: Message, svc: Services, policy: CatchPolicy): (r: Result<Option<seq<Bytes>>, Raised>)
    ensures r.Failure? <==> Collected(Leaves(PayloadOf(msg)), svc, policy).Failure?
    ensures r.Failure? ==> r.error == Collected(Leaves(PayloadOf(msg)), svc, policy).error
    ensures r == Success(None) <==> Collected(Leaves(PayloadOf(msg)), svc, policy) == Success([])
    ensures r.Success? && r.value.Some? ==>
      r.value.value != [] && Collected(Leaves(PayloadOf(msg)), svc, policy) == Success(r.value.value)
  {
    match Collected(Leaves(PayloadOf(msg)), svc, policy)
    case Failure(raised) => Failure(raised)
    case Success(contents) => Success(if contents == [] then None else Some(contents))
  }

  /** Once an exception is raised, the rest of the parts do not matter. */
  lemma {:induction false} CollectedAbortPersists(parts: seq<Part>, k: nat, svc: Services, policy: CatchPolicy)
    requires k <= |parts|
    requires Collected(parts[..k], svc, policy).Failure?
    ensures Collected(parts, svc, policy) == Collected(parts[..k], svc, policy)
    decreases |parts| - k
  {
    if k < |parts| {
      assert parts[..k + 1][..k] == parts[..k];
      CollectedAbortPersists(parts, k + 1, svc, policy);
    } else {
      assert parts[..k] == parts;
    }
  }

  /**
   * The inner loop over the `.xml` members of an archive: each member read is
   * appended, and the first failure ends the loop.
   */
  method ReadXmlMembers(archive: Bytes, xmlFiles: seq<string>, svc: Services)
    returns (contents: seq<Bytes>, failure: Option<DecodeError>)
    ensures MembersRead(contents, failure) == ReadMembers(archive, xmlFiles, svc)
  {
    contents, failure := [], None;
    var j := 0;
    while j < |xmlFiles| && failure.None?
      invariant 0 <= j <= |xmlFiles|
      invariant failure.None? ==> ReadMembers(archive, xmlFiles[..j], svc) == MembersRead(contents, None)
      invariant failure.Some? ==> ReadMembers(archive, xmlFiles, svc) == MembersRead(contents, failure)
      decreases |xmlFiles| - j, if failure.None? then 1 else 0
    {
      assert xmlFiles[..j + 1][..j] == xmlFiles[..j];
      var member := svc.readMember(archive, xmlFiles[j]);
      if member.Failure? {
        failure := Some(member.error);
        ReadMembersFailurePersists(archive, xmlFiles, j + 1, svc);
      } else {
        contents := contents + [member.value];
        j := j + 1;
      }
    }
    if failure.None? {
      assert xmlFiles[..j] == xmlFiles;
    }
  }

  /**
   * The body of the loop of `get_dmarc_attachment_content` for one leaf
   * part: what it appends to the collected contents, or the exception that
   * leaves the function. `continue` becomes a return of what was appended.
   */
  method ExtractPart(part: Part, svc: Services, policy: CatchPolicy) returns (outcome: PartOutcome)
    ensures outcome == PartContribution(part, svc, policy)
  {
    var filename := part.filename.GetOr("");
    var body := part.body.GetOr(Body(None, None));
    if !(EndsWith(filename, ".xml") || EndsWith(filename, ".zip") || EndsWith(filename, ".gz")) {
      return Added([]);
    }
    var data: Option<string>;
    if IsSet(body.attachmentId) {
      var attachment := svc.fetchAttachment(body.attachmentId.value);
      if attachment.Failure? {
        return Aborted(AttachmentFetchFailed(attachment.error));
      }
      data := attachment.value;
    } else {
      data := body.data;
    }
    if !IsSet(data) {
      return Added([]);
    }
    var decoded := svc.b64decode(data.value);
    if decoded.Failure? {
      return if Caught(decoded.error, policy) then Added([]) else Aborted(DecodeFailed(decoded.error));
    }
    var fileData := decoded.value;
    if EndsWith(filename, ".xml") {
      outcome := Added([fileData]);
    } else if EndsWith(filename, ".zip") {
      var archive := svc.openZip(fileData);
      if archive.Failure? {
        return if Caught(archive.error, policy) then Added([]) else Aborted(DecodeFailed(archive.error));
      }
      var xmlFiles := XmlMembers(archive.value);
      var members, failure := ReadXmlMembers(fileData, xmlFiles, svc);
      if failure.Some? && !Caught(failure.value, policy) {
        return Aborted(DecodeFailed(failure.value));
      }
      outcome := Added(members);
    } else {
      var content := svc.gunzip(fileData);
      if content.Failure? {
        return if Caught(content.error, policy) then Added([]) else Aborted(DecodeFailed(content.error));
      }
      outcome := Added([content.value]);
    }
  }

  /**
   * `get_dmarc_attachment_content`: the loop over the leaf parts collects
   * what each part contributes; the result is None when nothing was
   * collected.
   */
  method GetDmarcAttachmentContent(msg: Message, svc: Services, policy: CatchPolicy)
    returns (r: Result<Option<seq<Bytes>>, Raised>)
    ensures r == AttachmentContent(msg, svc, policy)
  {
    var parts := Leaves(PayloadOf(msg));
    var xmlContents: seq<Bytes> := [];
    for i := 0 to |parts|
      invariant Collected(parts[..i], svc, policy) == Success(xmlContents)
    {
      var outcome := ExtractPart(parts[i], svc, policy);
      CollectedLoopStep(parts, i, xmlContents, svc, policy);
      if outcome.Aborted? {
        return Failure(outcome.raised);
      }
      xmlContents := xmlContents + outcome.entries;
    }
    assert parts[..|parts|] == parts;
    r := Success(if xmlContents == [] then None else Some(xmlContents));
  }

  /** One turn of the part loop: an abort decides the whole loop, and anything else extends what was collected. */
  lemma CollectedLoopStep(parts: seq<Part>, i: nat, acc: seq<Bytes>, svc: Services, policy: CatchPolicy)
    requires i < |parts|
    requires Collected(parts[..i], svc, policy) == Success(acc)
    ensures PartContribution(parts[i], svc, policy).Aborted? ==>
      Collected(parts, svc, policy) == Failure(PartContribution(parts[i], svc, policy).raised)
    ensures PartContribution(parts[i], svc, policy).Added? ==>
      Collected(parts[..i + 1], svc, policy) == Success(acc + PartContribution(parts[i], svc, policy).entries)
  {
    assert parts[..i + 1] == parts[..i] + [parts[i]];
    CollectedStep(parts[..i], parts[i], svc, policy);
    if PartContribution(parts[i], svc, policy).Aborted? {
      CollectedAbortPersists(parts, i + 1, svc, policy);
    }
  }

  /** A part whose name lacks a report extension contributes nothing, whatever the services would answer. */
  lemma NonCandidateSkipped(p: Part, svc: Services, other: Services, policy: CatchPolicy)
    requires !IsCandidate(FilenameOf(p))
    ensures PartContribution(p, svc, policy) == Added([]) == PartContribution(p, other, policy)
  {
  }

  /** The extension test is case-sensitive; `.xml.gz` is a candidate through `.gz`. */
  lemma CandidateNames()
    ensures !IsCandidate("report.XML") && !IsCandidate("report.Zip") && !IsCandidate("")
    ensures IsCandidate("report.xml.gz") && !EndsWith("report.xml.gz", ".xml")
  {
    assert "report.XML"[6..] == ".XML";
    assert "report.XML"[7..] == "XML";
    assert "report.Zip"[6..] == ".Zip";
    assert "report.Zip"[7..] == "Zip";
    assert "report.xml.gz"[10..] == ".gz";
    assert "report.xml.gz"[9..] == "l.gz";
  }

  /**
   * The data comes from the attachments API exactly when the part has an
   * attachment id; otherwise it is the inline body data and no fetch is made.
   */
  lemma DataSourceChoice(p: Part, svc: Services, other: Services)
    ensures IsSet(BodyOf(p).attachmentId) ==>
      AttachmentData(p, svc) ==
        match svc.fetchAttachment(BodyOf(p).attachmentId.value)
        case Success(data) => Success(data)
        case Failure(reason) => Failure(AttachmentFetchFailed(reason))
    ensures !IsSet(BodyOf(p).attachmentId) ==>
      AttachmentData(p, svc) == Success(BodyOf(p).data) == AttachmentData(p, other)
  {
  }

  /** A candidate part with no data, or an empty string, contributes nothing. */
  lemma NoDataSkipped(p: Part, svc: Services, policy: CatchPolicy)
    requires IsCandidate(FilenameOf(p))
    requires AttachmentData(p, svc) == Success(None) || AttachmentData(p, svc) == Success(Some(""))
    ensures PartContribution(p, svc, policy) == Added([])
  {
  }

  /** A string with a non-empty suffix ends in the suffix's last character. */
  lemma LastCharOfSuffix(s: string, suffix: string)
    requires EndsWith(s, suffix) && suffix != []
    ensures s[|s| - 1] == suffix[|suffix| - 1]
  {
    assert s[|s| - |suffix|..][|suffix| - 1] == s[|s| - 1];
  }

  /** Names ending in `.gz` end neither in `.xml` nor in `.zip`. */
  lemma ExtensionsExclusive(name: string)
    ensures EndsWith(name, ".gz") ==> !EndsWith(name, ".xml") && !EndsWith(name, ".zip")
    ensures EndsWith(name, ".xml") ==> !EndsWith(name, ".zip")
  {
    if EndsWith(name, ".gz") {
      LastCharOfSuffix(name, ".gz");
    }
    if EndsWith(name, ".xml") {
      LastCharOfSuffix(name, ".xml");
    }
    if EndsWith(name, ".zip") {
      LastCharOfSuffix(name, ".zip");
    }
  }

  /** A `.xml` part contributes exactly its base64-decoded bytes. */
  lemma XmlPartYieldsDecoded(p: Part, svc: Services, policy: CatchPolicy, data: string, bytes: Bytes)
    requires EndsWith(FilenameOf(p), ".xml")
    requires AttachmentData(p, svc) == Success(Some(data)) && data != ""
    requires svc.b64decode(data) == Success(bytes)
    ensures PartContribution(p, svc, policy) == Added([bytes])
  {
  }

  /** A `.gz` part (including `.xml.gz`) contributes exactly the decompression of its decoded bytes. */
  lemma GzPartYieldsDecompressed(p: Part, svc: Services, policy: CatchPolicy, data: string, bytes: Bytes, content: Bytes)
    requires EndsWith(FilenameOf(p), ".gz")
    requires AttachmentData(p, svc) == Success(Some(data)) && data != ""
    requires svc.b64decode(data) == Success(bytes)
    requires svc.gunzip(bytes) == Success(content)
    ensures PartContribution(p, svc, policy) == Added([content])
  {
    ExtensionsExclusive(FilenameOf(p));
  }

  /** Filtering member names keeps the `namelist` order. */
  lemma {:induction false} XmlMembersAppend(a: seq<string>, b: seq<string>)
    ensures XmlMembers(a + b) == XmlMembers(a) + XmlMembers(b)
  {
    if a != [] {
      assert (a + b)[1..] == a[1..] + b;
      XmlMembersAppend(a[1..], b);
    } else {
      assert a + b == b;
    }
  }

  /** When every member reads, one entry per name comes out, in order. */
  lemma {:induction false} ReadMembersAllSucceed(archive: Bytes, names: seq<string>, svc: Services)
    requires forall i :: 0 <= i < |names| ==> svc.readMember(archive, names[i]).Success?
    ensures ReadMembers(archive, names, svc) ==
      MembersRead(seq(|names|, i requires 0 <= i < |names| => svc.readMember(archive, names[i]).value), None)
  {
    if names != [] {
      var init := names[..|names| - 1];
      ReadMembersAllSucceed(archive, init, svc);
    }
  }

  /**
   * When the member at index `k` is the first that fails, the members before
   * it have been read and appended already.
   */
  lemma {:induction false} ReadMembersFirstFailure(archive: Bytes, names: seq<string>, k: nat, svc: Services)
    requires k < |names|
    requires forall i :: 0 <= i < k ==> svc.readMember(archive, names[i]).Success?
    requires svc.readMember(archive, names[k]).Failure?
    ensures ReadMembers(archive, names, svc) ==
      MembersRead(seq(k, i requires 0 <= i < k => svc.readMember(archive, names[i]).value),
                  Some(svc.readMember(archive, names[k]).error))
  {
    var prefix := names[..k];
    assert forall i :: 0 <= i < |prefix| ==> prefix[i] == names[i];
    ReadMembersAllSucceed(archive, prefix, svc);
    assert names[..k + 1][..k] == prefix;
    ReadMembersFailurePersists(archive, names, k + 1, svc);
  }

  /**
   * A `.zip` part whose members all read contributes one entry per member
   * whose name ends in `.xml`, in `namelist` order, and nothing for the others.
   */
  lemma ZipPartYieldsXmlMembers(p: Part, svc: Services, policy: CatchPolicy, data: string, bytes: Bytes, names: seq<string>)
    requires EndsWith(FilenameOf(p), ".zip")
    requires AttachmentData(p, svc) == Success(Some(data)) && data != ""
    requires svc.b64decode(data) == Success(bytes)
    requires svc.openZip(bytes) == Success(names)
    requires forall n :: n in names && EndsWith(n, ".xml") ==> svc.readMember(bytes, n).Success?
    ensures var xs := XmlMembers(names);
      PartContribution(p, svc, policy) ==
        Added(seq(|xs|, i requires 0 <= i < |xs| => svc.readMember(bytes, xs[i]).value))
  {
    ExtensionsExclusive(FilenameOf(p));
    var xs := XmlMembers(names);
    assert forall i :: 0 <= i < |xs| ==> xs[i] in xs;
    ReadMembersAllSucceed(bytes, xs, svc);
  }

  /** Combining the results of two runs of the loop: the first exception wins. */
  function Join(first: Result<seq<Bytes>, Raised>, second: Result<seq<Bytes>, Raised>): Result<seq<Bytes>, Raised> {
    match first
    case Failure(r) => Failure(r)
    case Success(a) =>
      match second
      case Failure(r) => Failure(r)
      case Success(b) => Success(a + b)
  }

  /** The contribution of one part, as a result of the loop over that part alone. */
  function Contribution(p: Part, svc: Services, policy: CatchPolicy): Result<seq<Bytes>, Raised> {
    match PartContribution(p, svc, policy)
    case Aborted(r) => Failure(r)
    case Added(entries) => Success(entries)
  }

  lemma JoinAssociative(x: Result<seq<Bytes>, Raised>, y: Result<seq<Bytes>, Raised>, z: Result<seq<Bytes>, Raised>)
    ensures Join(Join(x, y), z) == Join(x, Join(y, z))
  {
    if x.Success? && y.Success? && z.Success? {
      assert x.value + y.value + z.value == x.value + (y.value + z.value);
    }
  }

  lemma CollectedStep(ps: seq<Part>, p: Part, svc: Services, policy: CatchPolicy)
    ensures Collected(ps + [p], svc, policy) == Join(Collected(ps, svc, policy), Contribution(p, svc, policy))
  {
    assert (ps + [p])[..|ps|] == ps;
  }

  /** The loop is a fold: the parts of a concatenation contribute independently and in order. */
  lemma {:induction false} CollectedAppend(a: seq<Part>, b: seq<Part>, svc: Services, policy: CatchPolicy)
    ensures Collected(a + b, svc, policy) == Join(Collected(a, svc, policy), Collected(b, svc, policy))
    decreases |b|
  {
    if b == [] {
      assert a + b == a;
      if Collected(a, svc, policy).Success? {
        assert Collected(a, svc, policy).value + [] == Collected(a, svc, policy).value;
      }
    } else {
      var b', last := b[..|b| - 1], b[|b| - 1];
      assert a + b == (a + b') + [last];
      assert b == b' + [last];
      CollectedStep(a + b', last, svc, policy);
      CollectedStep(b', last, svc, policy);
      CollectedAppend(a, b', svc, policy);
      JoinAssociative(Collected(a, svc, policy), Collected(b', svc, policy), Contribution(last, svc, policy));
    }
  }

  /**
   * Failure isolation: a part that does not raise (in particular one whose
   * decoding failed with a caught error) changes only its own contribution;
   * the parts before and after it are collected as without it.
   */
  lemma PartIsolated(before: seq<Part>, p: Part, after: seq<Part>, svc: Services, policy: CatchPolicy)
    requires PartContribution(p, svc, policy).Added?
    ensures Collected(before + [p] + after, svc, policy) ==
      Join(Join(Collected(before, svc, policy), Success(PartContribution(p, svc, policy).entries)),
           Collected(after, svc, policy))
  {
    CollectedAppend(before + [p], after, svc, policy);
    CollectedAppend(before, [p], svc, policy);
    CollectedStep([], p, svc, policy);
    assert [] + [p] == [p];
    var none: seq<Bytes> := [];
    var xs := PartContribution(p, svc, policy).entries;
    assert Contribution(p, svc, policy) == Success(xs);
    assert none + xs == xs;
  }

  /** A decoding failure of a caught kind is logged and the part contributes only what it had appended. */
  lemma CaughtDecodeFailureSkipsPart(p: Part, svc: Services, policy: CatchPolicy, data: string)
    requires IsCandidate(FilenameOf(p))
    requires AttachmentData(p, svc) == Success(Some(data)) && data != ""
    requires svc.b64decode(data).Failure? && Caught(svc.b64decode(data).error, policy)
    ensures PartContribution(p, svc, policy) == Added([])
  {
  }

  /** An archive that does not open with a caught error (BadZipFile as written) is skipped. */
  lemma CaughtZipOpenFailureSkipsPart(p: Part, svc: Services, policy: CatchPolicy, data: string, bytes: Bytes)
    requires EndsWith(FilenameOf(p), ".zip")
    requires AttachmentData(p, svc) == Success(Some(data)) && data != ""
    requires svc.b64decode(data) == Success(bytes)
    requires svc.openZip(bytes).Failure? && Caught(svc.openZip(bytes).error, policy)
    ensures PartContribution(p, svc, policy) == Added([])
  {
    ExtensionsExclusive(FilenameOf(p));
  }

  /**
   * A member read that fails with a caught error ends the part, keeping the
   * members appended before it: the appends happen inside the `try`.
   */
  lemma CaughtMemberReadFailureKeepsEarlier(p: Part, svc: Services, policy: CatchPolicy, data: string,
                                            bytes: Bytes, names: seq<string>, k: nat)
    requires EndsWith(FilenameOf(p), ".zip")
    requires AttachmentData(p, svc) == Success(Some(data)) && data != ""
    requires svc.b64decode(data) == Success(bytes)
    requires svc.openZip(bytes) == Success(names)
    requires k < |XmlMembers(names)|
    requires forall i :: 0 <= i < k ==> svc.readMember(bytes, XmlMembers(names)[i]).Success?
    requires svc.readMember(bytes, XmlMembers(names)[k]).Failure?
    requires Caught(svc.readMember(bytes, XmlMembers(names)[k]).error, policy)
    ensures var xs := XmlMembers(names);
      PartContribution(p, svc, policy) ==
        Added(seq(k, i requires 0 <= i < k => svc.readMember(bytes, xs[i]).value))
  {
    ExtensionsExclusive(FilenameOf(p));
    ReadMembersFirstFailure(bytes, XmlMembers(names), k, svc);
  }

  /** A `.gz` part whose stream fails with a caught error (BadGzipFile as written) is skipped. */
  lemma CaughtGzipFailureSkipsPart(p: Part, svc: Services, policy: CatchPolicy, data: string, bytes: Bytes)
    requires EndsWith(FilenameOf(p), ".gz")
    requires AttachmentData(p, svc) == Success(Some(data)) && data != ""
    requires svc.b64decode(data) == Success(bytes)
    requires svc.gunzip(bytes).Failure? && Caught(svc.gunzip(bytes).error, policy)
    ensures PartContribution(p, svc, policy) == Added([])
  {
    ExtensionsExclusive(FilenameOf(p));
  }

  /**
   * Under either policy a part aborts the loop only through a failed fetch or
   * a decoding failure the policy does not catch; a caught failure never aborts.
   */
  lemma AbortsOnlyUncaught(parts: seq<Part>, svc: Services, policy: CatchPolicy, e: DecodeError)
    requires Caught(e, policy)
    ensures forall p :: PartContribution(p, svc, policy) != Aborted(DecodeFailed(e))
    ensures Collected(parts, svc, policy) != Failure(DecodeFailed(e))
  {
  }

  /**
   * With every decoding failure caught, the only exception that can leave
   * the loop is a failed attachment fetch.
   */
  lemma EveryDecodeErrorOnlyFetchRaises(parts: seq<Part>, svc: Services)
    ensures Collected(parts, svc, EveryDecodeError).Failure? ==>
      Collected(parts, svc, EveryDecodeError).error.AttachmentFetchFailed?
  {
  }

  /** A multipart payload with two leaf parts yields those two parts. */
  lemma TwoLeaves(a: Part, b: Part)
    requires a.parts.Absent? && b.parts.Absent?
    ensures Leaves(Part(Present([a, b]), None, None)) == [a, b]
  {
    assert Leaves(a) == [a] && Leaves(b) == [b];
    assert [a, b][1..] == [b];
    assert [b][1..] == [];
    assert LeavesOf([b]) == [b] + LeavesOf([]);
    assert LeavesOf([a, b]) == [a] + LeavesOf([b]);
  }

  /**
   * As written, a truncated gzip attachment (gzip raises EOFError, which the
   * `except` clause does not list) aborts the whole extraction, losing the
   * valid `.xml` attachment after it; with every decoding failure caught the
   * valid attachment is returned.
   */
  lemma TruncatedGzipAbortsExtraction(svc: Services, gzBytes: Bytes, xmlBytes: Bytes)
    requires svc.b64decode("H4sIAAAAAAAAAw==") == Success(gzBytes)
    requires svc.gunzip(gzBytes) == Failure(EOFError)
    requires svc.b64decode("WE1M") == Success(xmlBytes)
    ensures var msg := Message(Some(Part(Present([
              Part(Absent, Some("report.xml.gz"), Some(Body(None, Some("H4sIAAAAAAAAAw==")))),
              Part(Absent, Some("other.xml"), Some(Body(None, Some("WE1M"))))]), None, None)));
      && AttachmentContent(msg, svc, AsWritten) == Failure(DecodeFailed(EOFError))
      && AttachmentContent(msg, svc, EveryDecodeError) == Success(Some([xmlBytes]))
  {
    var gz := Part(Absent, Some("report.xml.gz"), Some(Body(None, Some("H4sIAAAAAAAAAw=="))));
    var xml := Part(Absent, Some("other.xml"), Some(Body(None, Some("WE1M"))));
    assert EndsWith("other.xml", ".xml") by { assert "other.xml"[5..] == ".xml"; }
    assert EndsWith("report.xml.gz", ".gz") by { assert "report.xml.gz"[10..] == ".gz"; }
    TwoLeaves(gz, xml);
    TruncatedGzipPart(gz, svc, "H4sIAAAAAAAAAw==", gzBytes);
    XmlPartYieldsDecoded(xml, svc, AsWritten, "WE1M", xmlBytes);
    XmlPartYieldsDecoded(xml, svc, EveryDecodeError, "WE1M", xmlBytes);
    CollectedPair(gz, xml, svc, AsWritten);
    CollectedPair(gz, xml, svc, EveryDecodeError);
    var none: seq<Bytes> := [];
    assert none + [xmlBytes] == [xmlBytes];
  }

  /** A `.gz` part whose stream is truncated raises EOFError as written, and is skipped when every decoding failure is caught. */
  lemma TruncatedGzipPart(p: Part, svc: Services, data: string, bytes: Bytes)
    requires EndsWith(FilenameOf(p), ".gz")
    requires AttachmentData(p, svc) == Success(Some(data)) && data != ""
    requires svc.b64decode(data) == Success(bytes)
    requires svc.gunzip(bytes) == Failure(EOFError)
    ensures PartContribution(p, svc, AsWritten) == Aborted(DecodeFailed(EOFError))
    ensures PartContribution(p, svc, EveryDecodeError) == Added([])
  {
    ExtensionsExclusive(FilenameOf(p));
  }

  /** Collecting over two parts combines their contributions, the first exception winning. */
  lemma CollectedPair(a: Part, b: Part, svc: Services, policy: CatchPolicy)
    ensures Collected([a, b], svc, policy) == Join(Contribution(a, svc, policy), Contribution(b, svc, policy))
  {
    CollectedStep([], a, svc, policy);
    CollectedStep([a], b, svc, policy);
    assert [] + [a] == [a];
    assert [a] + [b] == [a, b];
    if Contribution(a, svc, policy).Success? {
      var none: seq<Bytes> := [];
      assert none + Contribution(a, svc, policy).value == Contribution(a, svc, policy).value;
    }
  }

  /** A message header. */
  datatype Header = Header(name: string, value: string)

  /** `next((h['value'] for h in headers if h['name'] == name), default)`. */
  function HeaderValue(headers: seq<Header>, name: string, default: string): (v: string)
    ensures (exists i :: 0 <= i < |headers| && headers[i].name == name && v == headers[i].value &&
               forall j :: 0 <= j < i ==> headers[j].name != name)
         || ((forall i :: 0 <= i < |headers| ==> headers[i].name != name) && v == default)
  {
    if headers == [] then default
    else if headers[0].name == name then headers[0].value
    else
      var v := HeaderValue(headers[1..], name, default);
      assert forall i :: 1 <= i < |headers| ==> headers[i] == headers[1..][i - 1];
      v
  }

  /** The metadata record built for each unread message. */
  datatype EmailData = EmailData(id: string, threadId: string, subject: string, sender: string, date: string)

  function EmailSummary(id: string, threadId: string, headers: seq<Header>): (r: EmailData)
    ensures r.id == id && r.threadId == threadId
    ensures r.subject == "No Subject" || exists i :: 0 <= i < |headers| && headers[i] == Header("Subject", r.subject)
    ensures r.sender == "Unknown Sender" || exists i :: 0 <= i < |headers| && headers[i] == Header("From", r.sender)
    ensures r.date == "Unknown Date" || exists i :: 0 <= i < |headers| && headers[i] == Header("Date", r.date)
  {
    EmailData(id, threadId,
      HeaderValue(headers, "Subject", "No Subject"),
      HeaderValue(headers, "From", "Unknown Sender"),
      HeaderValue(headers, "Date", "Unknown Date"))
  }

  /** A missing header takes its default; a repeated one takes its first value. */
  lemma EmailSummaryDefaults(id: string, threadId: string, headers: seq<Header>)
    ensures (forall i :: 0 <= i < |headers| ==> headers[i].name != "Subject") ==>
      EmailSummary(id, threadId, headers).subject == "No Subject"
    ensures (forall i :: 0 <= i < |headers| ==> headers[i].name != "From") ==>
      EmailSummary(id, threadId, headers).sender == "Unknown Sender"
    ensures (forall i :: 0 <= i < |headers| ==> headers[i].name != "Date") ==>
      EmailSummary(id, threadId, headers).date == "Unknown Date"
    ensures |headers| >= 2 && headers[0].name == "Subject" && headers[1].name == "Subject" ==>
      EmailSummary(id, threadId, headers).subject == headers[0].value
  {
  }

  /** `format_email_info`: a heading, then the ID, Subject and Date lines. */
  function FormatEmailInfo(e: EmailData): (r: string)
    ensures "\U{1F4E7} Email Details:\n  ID: " + e.id + "\n" <= r
  {
    "\U{1F4E7} Email Details:" + "\n" +
    (("  ID: " + e.id) + "\n" +
     (("  Subject: " + e.subject) + "\n" +
      ("  Date: " + e.date)))
  }

  /**
   * For single-line field values the text has exactly four lines; the
   * sender appears in none of them (it does not depend on the sender at all).
   */
  lemma FormatEmailInfoLines(e: EmailData, sender: string)
    requires NoNewline(e.id) && NoNewline(e.subject) && NoNewline(e.date)
    ensures Lines(FormatEmailInfo(e)) ==
      ["\U{1F4E7} Email Details:", "  ID: " + e.id, "  Subject: " + e.subject, "  Date: " + e.date]
    ensures FormatEmailInfo(e.(sender := sender)) == FormatEmailInfo(e)
  {
    var heading := "\U{1F4E7} Email Details:";
    var idLine := "  ID: " + e.id;
    var subjectLine := "  Subject: " + e.subject;
    var dateLine := "  Date: " + e.date;
    NoNewlineConcat("  ID: ", e.id);
    NoNewlineConcat("  Subject: ", e.subject);
    NoNewlineConcat("  Date: ", e.date);
    LinesCons(heading, idLine + "\n" + (subjectLine + "\n" + dateLine));
    LinesCons(idLine, subjectLine + "\n" + dateLine);
    LinesCons(subjectLine, dateLine);
    LinesSingle(dateLine);
  }
}
