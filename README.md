# DMARC agent core, modelled in Dafny

This project models the decision logic of a DMARC report agent:
- Gmail attachment extraction: flattening a message's MIME part tree, selecting `.xml`, `.zip` and `.gz` attachments, decoding and unpacking them, and logging and skipping corrupt ones.
- The header lookups and the summary text for a message.
- The reshaping of parsed DMARC aggregate reports into the structure handed to the analysis model.
- The guards on attachment size, XML report shape and the model's JSON answer.
- The Slack posting loop with exponential backoff, and the lazily created Slack client.
- The generic `async_retry` attempt loop.
- The configuration defaults and `Config.validate`.

Library calls (Gmail API, base64, zipfile, gzip, parsedmarc, the XML and JSON parsers, Slack's `chat_postMessage`) are function-valued parameters. Each of them either returns a value or fails with a named error, so every property holds for every behaviour of those libraries. Python values that cross these boundaries are modelled as `PyValues.Value`, with Python's `dict.get`, `in` and subscript behaviour.

Modules:
- `Wrappers`: Option and Result.
- `Strings`: suffix and substring tests, and line splitting.
- `PyValues`
- `Configuration`: `config.py`.
- `Validators`: `utils/validators.py`.
- `Parser`: `utils/parser.py`.
- `Gmail`: `utils/gmail.py`.
- `Retry`: `utils/retry.py`.
- `Slack`: `utils/slack.py`.

The loops of the source are methods with loop invariants. Each method is proved equal to a specification function (`GetDmarcAttachmentContent`, `ReadXmlMembers`, `FormatStructure`, `ParseAndFormatAll`), or its `ensures` characterise every outcome directly (`RetryCall`, `PostWithRetries`, `Validate`).

## Model

| member | source | states |
|---|---|---|
| PyValues.Get | utils/parser.py:34-58 | `d.get(key, default)`: the stored value when the key is present, the default otherwise |
| PyValues.Contains | utils/validators.py:72 | `key in v`: key membership for a dict, some element equal to the string for a list, an occurrence at some index for a str; TypeError exactly for any other value |
| PyValues.Subscript | utils/validators.py:74 | `v[key]`: the stored value of a dict, KeyError naming the key when absent, TypeError on any non-dict |
| Configuration.GetEnv | config.py:8-19 | `os.getenv` returns a value exactly when the variable is set, and that value is the variable's own text |
| Configuration.ParseInt | config.py:9-19 | `int(text)` succeeds exactly on ASCII digits optionally after one sign; the value is non-negative unless the sign is `-` |
| Configuration.DigitsLeadingZero | config.py:9-19 | helper of ParseIntLeadingZero: a leading zero does not change a digit string's value |
| Configuration.ParseIntLeadingZero | config.py:9-19 | leading zeros are ignored (`int("007") == int("7")`) |
| Configuration.ParseIntSign | config.py:9-19 | a `+` sign keeps the value and a `-` sign negates it |
| Configuration.ShowNat | config.py:9-19 | helper of ParseShowRoundTrip: the decimal rendering of a natural is non-empty and made of digits only |
| Configuration.DigitsOfShowNat | config.py:9-19 | helper of ParseShowRoundTrip: the digits of a rendered natural evaluate back to that natural |
| Configuration.ParseShowRoundTrip | config.py:9-19 | every integer written in decimal is read back unchanged by `int()` |
| Configuration.Load | config.py:8-19 | the class body: the model name and the two Slack settings are taken from the environment as they are; each of the five integer settings is `int()` of the variable's text when it is set and of its default (3, 60, 3, 25, 10) when it is not; a failure names an integer setting that is set to text `int()` rejects |
| Configuration.LoadFailsIffBadInteger | config.py:8-19 | loading the settings fails exactly when one of the five integer variables is set to text `int()` rejects |
| Configuration.DefaultsWhenUnset | config.py:8-19 | in any environment where none of the five integer variables is set, loading succeeds with 3 OpenAI retries, a 60 s timeout, 3 Slack retries, 25 MB and 10 attachments; with an empty environment the whole configuration is the documented default (model gpt-4.1, no token or channel) |
| Configuration.Validate | config.py:24-32 | no errors iff token and channel are both non-empty; each message present iff its setting is missing or empty; at most two, token first |
| Validators.ValidateAttachmentSize | utils/validators.py:10-26 | never lets another exception escape; a rejection names the file, its size and the limit |
| Validators.SizeLimitInclusive | utils/validators.py:21-22 | exactly `limit * 1024 * 1024` bytes passes, one more byte is rejected, and passing is preserved by shrinking |
| Validators.DefaultSizeLimit | utils/validators.py:21-22 | with the 25 MB default an attachment passes iff it has at most 26214400 bytes |
| Validators.FindChild | utils/validators.py:50 | `find` returns the first direct child with the tag, and nothing iff no direct child has it |
| Validators.ValidateXmlStructure | utils/validators.py:28-51 | only defusedxml's refusals escape; a parse error becomes "invalid XML" exactly; every rejection is one of the three documented ones (see also XmlAcceptedIffDmarcShape, XmlChecksInOrder) |
| Validators.XmlAcceptedIffDmarcShape | utils/validators.py:38-51 | a document passes iff it parses, its root is `feedback` and a direct child is `report_metadata` |
| Validators.XmlChecksInOrder | utils/validators.py:38-51 | parse errors become "invalid XML"; forbidden constructs escape; a wrong root is reported before missing metadata |
| Validators.NestedMetadataIsMissing | utils/validators.py:50-51 | a `report_metadata` nested deeper than the root's children does not count |
| Validators.MissingKeys | utils/validators.py:81-82 | on a dict: the absent required keys, in the required order, and empty iff all are present |
| Validators.ValidateGptResponse | utils/validators.py:53-86 | an accepted answer is the decoded value unchanged; "invalid JSON" exactly when decoding fails; anything else that escapes is a TypeError (see also the Gpt lemmas) |
| Validators.GptInvalidJsonRejected | utils/validators.py:66-69 | text that is not JSON is rejected with the decoder's message |
| Validators.GptStatusDecides | utils/validators.py:72-78 | a dict with `status` passes unchanged iff the status is `empty` or `not_dmarc_report`, and is rejected otherwise, whatever its other keys |
| Validators.GptRequiredKeys | utils/validators.py:80-86 | a dict without `status` passes iff all four required keys are present, else it is rejected listing the missing ones |
| Validators.GptNonObjectAsWritten | utils/validators.py:72-86 | as written: a JSON list holding the four key names passes, and a JSON number raises TypeError |
| Validators.ValidateGptResponseObjectsOnly | utils/validators.py:53-86 | only JSON objects pass, nothing but ValidationError leaves the guard, and on objects it agrees with the source |
| Parser.Records | utils/parser.py:34-37 | every record of a shaped report is a dict whose sections are dicts or absent |
| Parser.FormatRecord | utils/parser.py:38-59 | the record built is a dict (its keys and fields are stated by the FormattedRecord lemmas) |
| Parser.FormattedRecordKeys | utils/parser.py:43-59 | a formatted record has exactly the fifteen documented keys |
| Parser.FormattedRecordSourceAddress | utils/parser.py:38-45 | `source_ip` and `source_country` are read from `source`, None when absent |
| Parser.FormattedRecordSourceOwner | utils/parser.py:38-48 | `source_domain`, `source_name` and `source_type` are read from `source`, None when absent |
| Parser.FormattedRecordIdentifiers | utils/parser.py:39-52 | the three identifier fields are read from `identifiers`, None when absent |
| Parser.FormattedRecordEvaluation | utils/parser.py:40-55 | the evaluated spf, dkim and disposition are read from `policy_evaluated`, None when absent |
| Parser.FormattedRecordDefaults | utils/parser.py:41-58 | `count` is copied (None when absent); the spf and dkim auth results are read from `auth_results`, defaulting to empty lists; `alignment` is copied, defaulting to an empty dict |
| Parser.FormattedReport | utils/parser.py:61-65 | three keys; metadata and policy passed through (None when absent); one formatted record per input record, in order |
| Parser.MissingRecordsFormatEmpty | utils/parser.py:34-37 | a report without `report` or without `records` formats with an empty record list |
| Parser.FormatStructure | utils/parser.py:23-65 | the record loop computes the formatted report |
| Parser.ParseDmarcXml | utils/parser.py:6-21 | the parsed report, or None when parsedmarc raises |
| Parser.FormattedAll | utils/parser.py:79-85 | at most one entry per file, each a formatted report with the three top-level keys |
| Parser.FormattedAllAppend | utils/parser.py:79-85 | the files of a concatenation are formatted independently and in order |
| Parser.FormattedAllPerFile | utils/parser.py:81-84 | a file contributes one formatted report iff its parse result is truthy, nothing otherwise |
| Parser.FormattedAllBounded | utils/parser.py:79-85 | at most one report per file, and none when every parse fails |
| Parser.ParseAndFormatAll | utils/parser.py:67-85 | the file loop computes the per-file formatted reports |
| Parser.ParseAndFormatXml | utils/parser.py:87-98 | fails iff parsedmarc raises; otherwise the formatted report |
| Strings.Lines | utils/gmail.py:124-129 | helper of FormatEmailInfoLines: splitting on newlines yields at least one line |
| Strings.LinesCons | utils/gmail.py:124-129 | helper of FormatEmailInfoLines: a newline-free prefix followed by a newline is a line of its own |
| Strings.LinesSingle | utils/gmail.py:124-129 | helper of FormatEmailInfoLines: a newline-free string is one line |
| Strings.PrefixOccursAtStart | utils/validators.py:72 | helper of IsSubstringIff: a prefix is an occurrence at index 0 |
| Strings.OccursAtShift | utils/validators.py:72 | helper of IsSubstringIff: occurrences in the tail are occurrences one index later |
| Strings.IsSubstringIff | utils/validators.py:72 | the recursive substring search succeeds exactly when the needle occurs at some index |
| Gmail.Leaves | utils/gmail.py:137-142 | `iter_parts` yields only parts without a `parts` key (exactly those, by LeavesExactly) |
| Gmail.LeavesOf | utils/gmail.py:138-140 | the sub-parts of a list yield only parts without a `parts` key |
| Gmail.LeavesExactly | utils/gmail.py:137-142 | `iter_parts` yields exactly the parts of the tree without a `parts` key |
| Gmail.LeavesOfExactly | utils/gmail.py:138-140 | a list of sub-parts yields exactly the leaves below its members |
| Gmail.XmlMembers | utils/gmail.py:174 | the archive member names kept are exactly those ending in `.xml` |
| Gmail.XmlMembersAppend | utils/gmail.py:174 | the filter keeps `namelist` order |
| Gmail.AttachmentData | utils/gmail.py:155-162 | only a part with a truthy attachment id can fail, and only with a failed fetch; without one the data is the inline body data |
| Gmail.OnDecodeFailure | utils/gmail.py:183-190 | a decoding failure aborts exactly when the policy does not catch it; a caught one keeps what was already appended |
| Gmail.Unpacked | utils/gmail.py:168-181 | unpacking aborts only with a decoding failure the policy does not catch; a name without a report extension gives nothing |
| Gmail.PartContribution | utils/gmail.py:149-190 | a part aborts only through a failed fetch of its attachment or an uncaught decoding failure; a part without a report extension contributes nothing |
| Gmail.Collected | utils/gmail.py:146-190 | the loop raises only a failed fetch or a decoding failure the policy does not catch |
| Gmail.ReadMembers | utils/gmail.py:175-177 | no more entries than names, one per name when nothing fails |
| Gmail.ReadMembersFailurePersists | utils/gmail.py:175-177 | after a failed member read no later member is read |
| Gmail.ReadMembersAllSucceed | utils/gmail.py:175-177 | when every read succeeds, the entries are the members' contents in order |
| Gmail.ReadMembersFirstFailure | utils/gmail.py:175-177 | at the first failing member, the contents read before it are kept |
| Gmail.ReadXmlMembers | utils/gmail.py:175-177 | the member loop computes the member reads |
| Gmail.ExtractPart | utils/gmail.py:149-190 | the loop body for one part computes that part's contribution or exception |
| Gmail.GetDmarcAttachmentContent | utils/gmail.py:131-192 | the loop over the leaf parts computes the attachment contents |
| Gmail.AttachmentContent | utils/gmail.py:146-192 | fails exactly when the loop raises, with its exception; None exactly when nothing was collected; otherwise the collected entries, in part order |
| Gmail.CollectedAbortPersists | utils/gmail.py:148-190 | once a part raises, later parts do not change the outcome |
| Gmail.NonCandidateSkipped | utils/gmail.py:152-153 | a part whose name ends in none of the extensions contributes nothing and makes no call |
| Gmail.CandidateNames | utils/gmail.py:152 | the extension test is case-sensitive, and `.xml.gz` is selected as `.gz` |
| Gmail.DataSourceChoice | utils/gmail.py:155-162 | the data is fetched iff the part has a non-empty attachment id; otherwise it is the inline body data |
| Gmail.NoDataSkipped | utils/gmail.py:164-165 | a selected part without data or with empty data contributes nothing |
| Gmail.ExtensionsExclusive | utils/gmail.py:169-179 | a `.gz` name is neither `.xml` nor `.zip`, and an `.xml` name is not `.zip` |
| Gmail.XmlPartYieldsDecoded | utils/gmail.py:168-170 | an `.xml` part contributes exactly its base64-decoded bytes |
| Gmail.ZipPartYieldsXmlMembers | utils/gmail.py:172-177 | a readable `.zip` part contributes its `.xml` members' contents in archive order |
| Gmail.GzPartYieldsDecompressed | utils/gmail.py:179-181 | a `.gz` part contributes exactly its decompressed content |
| Gmail.CaughtDecodeFailureSkipsPart | utils/gmail.py:167-190 | a caught base64 failure is skipped and the part contributes nothing |
| Gmail.CaughtZipOpenFailureSkipsPart | utils/gmail.py:172-190 | an archive that fails to open with a caught error is skipped |
| Gmail.CaughtMemberReadFailureKeepsEarlier | utils/gmail.py:175-190 | a caught member-read failure ends the part, keeping the members appended before it |
| Gmail.CaughtGzipFailureSkipsPart | utils/gmail.py:179-190 | a gzip stream failing with a caught error is skipped |
| Gmail.AbortsOnlyUncaught | utils/gmail.py:183-190 | under either policy, a caught decoding error never aborts a part or the loop |
| Gmail.JoinAssociative | utils/gmail.py:148-190 | helper of CollectedAppend: combining loop results is associative |
| Gmail.CollectedStep | utils/gmail.py:148-190 | one more part extends the collection by that part's contribution |
| Gmail.CollectedLoopStep | utils/gmail.py:148-190 | helper of GetDmarcAttachmentContent: one turn of the part loop either decides the whole loop with the part's exception or extends the collected contents by the part's entries |
| Gmail.CollectedAppend | utils/gmail.py:148-190 | collection over a concatenation is the combination of the two collections |
| Gmail.PartIsolated | utils/gmail.py:183-190 | a part that does not raise leaves the contributions before and after it unchanged |
| Gmail.EveryDecodeErrorOnlyFetchRaises | utils/gmail.py:183-190 | when every decoding failure is caught, only a failed attachment fetch can leave the loop |
| Gmail.TruncatedGzipAbortsExtraction | utils/gmail.py:179-183 | as written, a truncated `.gz` (a bare 10-byte gzip header, `H4sIAAAAAAAAAw==`) aborts extraction and loses a valid later `.xml`; catching every decoding error returns it |
| Gmail.HeaderValue | utils/gmail.py:107-109 | the value of the first header with the name, or the default when none has it |
| Gmail.EmailSummary | utils/gmail.py:104-110 | id and thread id are copied; each of subject, sender and date is its default or the value of a header of that name |
| Gmail.EmailSummaryDefaults | utils/gmail.py:104-110 | missing Subject, From and Date give No Subject, Unknown Sender and Unknown Date; a repeated header takes its first value |
| Gmail.FormatEmailInfoLines | utils/gmail.py:114-129 | the text is a heading, then ID, Subject and Date lines, and does not depend on the sender |
| Gmail.FormatEmailInfo | utils/gmail.py:114-129 | the text opens with the heading line and the ID line (the full layout is FormatEmailInfoLines) |
| Gmail.TruncatedGzipPart | utils/gmail.py:179-183 | a `.gz` part whose gzip stream is truncated raises EOFError as written, and contributes nothing when every decoding failure is caught |
| Gmail.CollectedPair | utils/gmail.py:148-190 | collecting over two parts combines their contributions, the first exception winning |
| Gmail.TwoLeaves | utils/gmail.py:137-144 | a payload of two leaf parts flattens to those two parts, in order |
| Strings.NoNewlineConcat | utils/gmail.py:124-129 | helper of FormatEmailInfoLines: joining newline-free strings keeps them newline-free |
| Gmail.LastCharOfSuffix | utils/gmail.py:152 | helper of ExtensionsExclusive: a string ending in a suffix ends in the suffix's last character |
| Retry.Power | utils/retry.py:42 | a positive base has positive powers |
| Retry.Passed | utils/retry.py:36-41 | the final attempt's own value is returned, or its own exception re-raised |
| Retry.RetryCall | utils/retry.py:31-48 | at most `max_attempts` calls; none and None when `max_attempts <= 0`; the last call's value or exception is passed on; the earlier calls all raised caught exceptions; an early stop means success or an uncaught exception; one sleep of `base_delay * exponential_base ** k` after each failed attempt but the last; all failing means `max_attempts - 1` sleeps and the last exception re-raised |
| Retry.DefaultBackoffDoubles | utils/retry.py:9-11 | with the default arguments the delays are 1, 2, 4 seconds, each double the one before |
| Retry.DelayPositive | utils/retry.py:42 | positive base delay and exponent base give positive delays |
| Slack.Passed | utils/slack.py:44-63 | the final attempt's own response is returned, or its own API error or other exception raised |
| Slack.Pow2 | utils/slack.py:57 | backoff delays are at least one second |
| Slack.PostWithRetries | utils/slack.py:42-63 | at most `SLACK_MAX_RETRIES` posts; none and None when it is `<= 0`; the first response is returned; the earlier posts all failed with a retryable error type; a non-retryable or non-API error stops at once; sleeps of `2 ** k` seconds |
| Slack.UnknownErrorNotRetried | utils/slack.py:48-56 | only rate_limited, timeout and service_unavailable are retried; a missing error type is `unknown_error` and not retried |
| Slack.SlackModule.constructor | utils/slack.py:7 | the module starts without a client |
| Slack.SlackModule.GetSlackClient | utils/slack.py:9-24 | an existing client is reused; otherwise a missing or empty token raises ValueError and leaves no client, and a present one builds and keeps a client with it |
| Slack.SlackModule.SendMessage | utils/slack.py:26-63 | a missing token raises ValueError before any post; otherwise the retry loop runs with the kept client |
| Slack.TwoSendsShareClient | utils/slack.py:19-40 | after a send with a valid token, a later send, whatever token it is given, posts with the client built from the first token and gets that client's retry outcome: at most `max_retries` posts, every post but the last a retryable failure, and a post before the limit stops the loop only when its outcome is not retryable |

## Left out

- Gmail OAuth, message listing and pagination, and the `main` drivers: network and environment I/O.
- The agents, the templates and the HTTP server: outside the modelled core.
- `glob` folder scanning: `ParseAndFormatAll` takes the list of file paths.
- Logging, `print`, `time.sleep` and `asyncio.sleep`: sleeps are returned as a list of delays.
- The async and decorator machinery of `async_retry`: only the attempt loop is modelled.
- The `:.1f` message formatting of sizes.
- Floating-point rounding: retry delays are `real`.
- Dictionary key order of formatted records.
- `int()` whitespace, underscores and non-ASCII digits.
- Parser.FormatStructure: it requires parsedmarc-shaped input (dicts where dicts are read). Other shapes either raise or format in ways the model does not describe. A non-dict where `.get` is called raises AttributeError, and a `records` of None, an int or a bool raises TypeError because it is not iterable. A `records` that is an empty dict or an empty string is iterated zero times and formats like an empty list. None of these cases is modelled.
- Parser.ParseAndFormatXml: the same shape requirement applies.
- Parser.ParseAndFormatAll: the same shape requirement applies to every truthy parse result.
- Gmail.ExtractPart: the loop body's `continue` statements are returns from a method called once per part. The `xml_contents` list is threaded through `Collected` rather than appended in place.
- `MAX_ATTACHMENTS_PER_EMAIL` is read and defaulted (`Configuration.Load`), but no modelled code enforces it.
- Case-insensitive extension matching, a "dmarc" file-name filter, storage of reports and a ceiling on decompressed size are not in the modelled code and are not modelled.
- The `messages().get(...).execute()` fetch of the message itself (utils/gmail.py:135): the message is a parameter, so an exception from that fetch is not modelled.
- Floats in decoded JSON: `PyValues.Value` has no float, so an answer such as `1.5` (on which `in` raises TypeError) cannot be expressed.

## Findings

| source | as written | input that shows it | evidently intended | confidence | as-written member | corrected member |
|---|---|---|---|---|---|---|
| utils/gmail.py:179-183 | the `except` clause lists UnicodeEncodeError, binascii.Error, BadZipFile and BadGzipFile only | a message with `report.xml.gz` whose data is `H4sIAAAAAAAAAw==` (a bare gzip header, on which gzip raises EOFError), followed by a valid `other.xml` | a corrupt attachment is logged and skipped; the valid one is still returned | not executed | Gmail.TruncatedGzipAbortsExtraction | Gmail.EveryDecodeErrorOnlyFetchRaises |
| utils/validators.py:72-86 | `in` and subscript are applied to whatever JSON value was decoded | the JSON text `["summary","failures","remediation","conclusion"]` passes; `42` raises TypeError | only JSON objects pass, and every failure is a ValidationError | not executed | Validators.GptNonObjectAsWritten | Validators.ValidateGptResponseObjectsOnly |
