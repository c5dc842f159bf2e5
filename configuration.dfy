/**
 * The settings of config.py: read once from the process environment when the
 * module is imported, then checked by `Config.validate`.
 */
module Configuration {
  import opened Wrappers

  /** The settings `Config` holds as class attributes. */
  datatype Config = Config(
    openaiModel: string,
    openaiMaxRetries: int,
    openaiTimeout: int,
    slackBotToken: Option<string>,
    dmarcChannelId: Option<string>,
    slackMaxRetries: int,
    maxAttachmentSizeMb: int,
    maxAttachmentsPerEmail: int)

  const KvStoreName: string := "dmarc-reports"

  const TokenRequired: string := "SLACK_BOT_TOKEN environment variable is required"
  const ChannelRequired: string := "DMARC_CHANNEL_ID environment variable is required"

  /** The ValueError `int(...)` raises while the class body runs, naming the setting. */
  datatype LoadError = InvalidInteger(variable: string, text: string)

  /** `os.getenv(name)`: the value, possibly empty, or None when unset. */
  function GetEnv(env: map<string, string>, name: string): (r: Option<string>)
    ensures r.Some? <==> name in env
    ensures r.Some? ==> r.value == env[name]
  {
    if name in env then Some(env[name]) else None
  }

  predicate IsDigit(c: char) {
    '0' <= c <= '9'
  }

  predicate AllDigits(s: string) {
    forall i :: 0 <= i < |s| ==> IsDigit(s[i])
  }

  /** The value of a string of decimal digits, most significant first. */
  function DigitsValue(s: string): nat
    requires AllDigits(s)
  {
    if s == [] then 0
    else DigitsValue(s[..|s| - 1]) * 10 + (s[|s| - 1] as int - '0' as int)
  }

  /** The texts `int()` accepts here: ASCII digits, optionally after one sign. */
  predicate IntegerText(text: string) {
    || (text != [] && AllDigits(text))
    || (|text| >= 2 && (text[0] == '+' || text[0] == '-') && AllDigits(text[1..]))
  }

  /** `int(text)` on an optionally signed string of ASCII digits; anything else raises ValueError. */
  function ParseInt(text: string): (r: Option<int>)
    ensures r.Some? <==> IntegerText(text)
    ensures r.Some? && text[0] != '-' ==> r.value >= 0
    ensures r.Some? && text[0] == '-' ==> r.value <= 0
  {
    if text != [] && (text[0] == '+' || text[0] == '-') then
      var digits := text[1..];
      if digits != [] && AllDigits(digits) then
        var magnitude: int := DigitsValue(digits);
        Some(if text[0] == '-' then -magnitude else magnitude)
      else None
    else if text != [] && AllDigits(text) then Some(DigitsValue(text))
    else None
  }

  /** `str(n)` for a natural number. */
  function ShowNat(n: nat): (r: string)
    ensures r != [] && AllDigits(r)
  {
    var digit := ['0' + (n % 10) as char];
    if n < 10 then digit else ShowNat(n / 10) + digit
  }

  /** `str(i)` for an integer. */
  function ShowInt(i: int): string {
    if i < 0 then "-" + ShowNat(-i) else ShowNat(i)
  }

  lemma {:induction false} DigitsOfShowNat(n: nat)
    ensures DigitsValue(ShowNat(n)) == n
  {
    var digit := ['0' + (n % 10) as char];
    if n >= 10 {
      var s := ShowNat(n / 10) + digit;
      assert s[..|s| - 1] == ShowNat(n / 10);
      DigitsOfShowNat(n / 10);
    }
  }

  /** Parsing what `str` prints gives the integer back. */
  lemma ParseShowRoundTrip(i: int)
    ensures ParseInt(ShowInt(i)) == Some(i)
  {
    if i < 0 {
      DigitsOfShowNat(-i);
      assert ("-" + ShowNat(-i))[1..] == ShowNat(-i);
    } else {
      DigitsOfShowNat(i);
    }
  }

  /** A leading zero does not change the value of a digit string. */
  lemma {:induction false} DigitsLeadingZero(t: string)
    requires AllDigits(t)
    ensures AllDigits("0" + t) && DigitsValue("0" + t) == DigitsValue(t)
  {
    if t != [] {
      var init := t[..|t| - 1];
      DigitsLeadingZero(init);
      assert ("0" + t)[..|"0" + t| - 1] == "0" + init;
    }
  }

  /** Leading zeros are ignored: `int("007") == int("7")`. */
  lemma ParseIntLeadingZero(t: string)
    requires t != [] && AllDigits(t)
    ensures ParseInt("0" + t) == ParseInt(t)
  {
    DigitsLeadingZero(t);
  }

  /** A `+` sign keeps the value and a `-` sign negates it. */
  lemma ParseIntSign(t: string)
    requires t != [] && AllDigits(t)
    ensures ParseInt("+" + t) == ParseInt(t)
    ensures ParseInt("-" + t) == Some(-ParseInt(t).value)
  {
    assert ("+" + t)[1..] == t;
    assert ("-" + t)[1..] == t;
  }

  /** `int(os.getenv(name, default))`. */
  function IntSetting(env: map<string, string>, name: string, default: string): Result<int, LoadError> {
    var text := GetEnv(env, name).GetOr(default);
    match ParseInt(text)
    case Some(n) => Success(n)
    case None => Failure(InvalidInteger(name, text))
  }

  /**
   * Running the class body of `Config` against the environment `env`: the
   * integer settings are converted in declaration order and the first one
   * that does not convert aborts the import.
   */
  function Load(env: map<string, string>): (r: Result<Config, LoadError>)
    ensures r.Success? ==>
      && r.value.openaiModel == GetEnv(env, "OPENAI_MODEL").GetOr("gpt-4.1")
      && r.value.slackBotToken == GetEnv(env, "SLACK_BOT_TOKEN")
      && r.value.dmarcChannelId == GetEnv(env, "DMARC_CHANNEL_ID")
    ensures r.Success? ==>
      && ParseInt(GetEnv(env, "OPENAI_MAX_RETRIES").GetOr("3")) == Some(r.value.openaiMaxRetries)
      && ParseInt(GetEnv(env, "OPENAI_TIMEOUT").GetOr("60")) == Some(r.value.openaiTimeout)
      && ParseInt(GetEnv(env, "SLACK_MAX_RETRIES").GetOr("3")) == Some(r.value.slackMaxRetries)
      && ParseInt(GetEnv(env, "MAX_ATTACHMENT_SIZE_MB").GetOr("25")) == Some(r.value.maxAttachmentSizeMb)
      && ParseInt(GetEnv(env, "MAX_ATTACHMENTS_PER_EMAIL").GetOr("10")) == Some(r.value.maxAttachmentsPerEmail)
    ensures r.Failure? ==>
      && r.error.variable in IntegerSettings
      && r.error.variable in env
      && r.error.text == env[r.error.variable]
      && ParseInt(r.error.text).None?
  {
    assert ParseInt("3") == Some(3) by { assert DigitsValue("3") == DigitsValue("") * 10 + 3; }
    assert ParseInt("60") == Some(60) by { assert "60"[..1] == "6"; assert DigitsValue("6") == 6; }
    assert ParseInt("25") == Some(25) by { assert "25"[..1] == "2"; assert DigitsValue("2") == 2; }
    assert ParseInt("10") == Some(10) by { assert "10"[..1] == "1"; assert DigitsValue("1") == 1; }
    var openaiModel := GetEnv(env, "OPENAI_MODEL").GetOr("gpt-4.1");
    match IntSetting(env, "OPENAI_MAX_RETRIES", "3")
    case Failure(e) => Failure(e)
    case Success(openaiMaxRetries) =>
      match IntSetting(env, "OPENAI_TIMEOUT", "60")
      case Failure(e) => Failure(e)
      case Success(openaiTimeout) =>
        var token := GetEnv(env, "SLACK_BOT_TOKEN");
        var channel := GetEnv(env, "DMARC_CHANNEL_ID");
        match IntSetting(env, "SLACK_MAX_RETRIES", "3")
        case Failure(e) => Failure(e)
        case Success(slackMaxRetries) =>
          match IntSetting(env, "MAX_ATTACHMENT_SIZE_MB", "25")
          case Failure(e) => Failure(e)
          case Success(maxSize) =>
            match IntSetting(env, "MAX_ATTACHMENTS_PER_EMAIL", "10")
            case Failure(e) => Failure(e)
            case Success(maxAttachments) =>
              Success(Config(openaiModel, openaiMaxRetries, openaiTimeout, token, channel,
                             slackMaxRetries, maxSize, maxAttachments))
  }

  const IntegerSettings: seq<string> :=
    ["OPENAI_MAX_RETRIES", "OPENAI_TIMEOUT", "SLACK_MAX_RETRIES",
     "MAX_ATTACHMENT_SIZE_MB", "MAX_ATTACHMENTS_PER_EMAIL"]

  /** Loading fails exactly when one of the integer settings is present and does not convert. */
  lemma LoadFailsIffBadInteger(env: map<string, string>)
    ensures Load(env).Failure? <==>
      exists name :: name in IntegerSettings && name in env && ParseInt(env[name]).None?
  {
    assert ParseInt("3") == Some(3) by { assert DigitsValue("3") == DigitsValue("") * 10 + 3; }
    assert ParseInt("60") == Some(60) by { assert "60"[..1] == "6"; assert DigitsValue("6") == 6; }
    assert ParseInt("25") == Some(25) by { assert "25"[..1] == "2"; assert DigitsValue("2") == 2; }
    assert ParseInt("10") == Some(10) by { assert "10"[..1] == "1"; assert DigitsValue("1") == 1; }
  }

  /**
   * With none of the integer variables set, loading succeeds and they take the
   * documented defaults, whatever else the environment holds.
   */
  lemma DefaultsWhenUnset(env: map<string, string>)
    requires forall n :: n in IntegerSettings ==> n !in env
    ensures Load(env).Success?
    ensures var c := Load(env).value;
      c.openaiMaxRetries == 3 && c.openaiTimeout == 60 && c.slackMaxRetries == 3
      && c.maxAttachmentSizeMb == 25 && c.maxAttachmentsPerEmail == 10
    ensures env == map[] ==> Load(env) == Success(Config("gpt-4.1", 3, 60, None, None, 3, 25, 10))
  {
    assert ParseInt("3") == Some(3) by { assert DigitsValue("3") == DigitsValue("") * 10 + 3; }
    assert ParseInt("60") == Some(60) by { assert "60"[..1] == "6"; assert DigitsValue("6") == 6; }
    assert ParseInt("25") == Some(25) by { assert "25"[..1] == "2"; assert DigitsValue("2") == 2; }
    assert ParseInt("10") == Some(10) by { assert "10"[..1] == "1"; assert DigitsValue("1") == 1; }
  }

  /**
   * `Config.validate`: one message per required Slack setting that is unset
   * or empty, the token's first.
   */
  method Validate(c: Config) returns (errors: seq<string>)
    ensures errors == [] <==> IsSet(c.slackBotToken) && IsSet(c.dmarcChannelId)
    ensures TokenRequired in errors <==> !IsSet(c.slackBotToken)
    ensures ChannelRequired in errors <==> !IsSet(c.dmarcChannelId)
    ensures |errors| <= 2
    ensures forall e :: e in errors ==> e == TokenRequired || e == ChannelRequired
    ensures |errors| == 2 ==> errors == [TokenRequired, ChannelRequired]
  {
    errors := [];
    if !IsSet(c.slackBotToken) {
      errors := errors + [TokenRequired];
    }
    if !IsSet(c.dmarcChannelId) {
      errors := errors + [ChannelRequired];
    }
  }
}
