/** Configuration from the environment: lookups with defaults and the
    required-variable check. The environment is a map in which an absent
    variable reads as "". */
module EnvConfig {
  import opened Wrappers
  import opened GoInt

  type Env = map<string, string>

  /** os.Getenv: an unset variable reads as "". */
  function Lookup(env: Env, key: string): string
  {
    if key in env then env[key] else ""
  }

  /** getenv: the value when it is non-empty, otherwise the default. */
  function Getenv(env: Env, key: string, def: string): (r: string)
    ensures Lookup(env, key) != "" ==> r == Lookup(env, key)
    ensures Lookup(env, key) == "" ==> r == def
    ensures def != "" ==> r != ""
  {
    var v := Lookup(env, key);
    if v != "" then v else def
  }

  predicate IsDigit(c: char)
  {
    '0' <= c <= '9'
  }

  predicate AllDigits(s: string)
  {
    forall i :: 0 <= i < |s| ==> IsDigit(s[i])
  }

  function DigitValue(c: char): nat
    requires IsDigit(c)
  {
    c as int - '0' as int
  }

  function DigitChar(d: nat): (c: char)
    requires d < 10
    ensures IsDigit(c) && DigitValue(c) == d
  {
    ('0' as int + d) as char
  }

  /** The number a string of decimal digits denotes. */
  function DecimalValue(s: string): nat
    requires AllDigits(s)
  {
    if |s| == 0 then 0 else DecimalValue(s[..|s| - 1]) * 10 + DigitValue(s[|s| - 1])
  }

  /** strconv.ParseUint(s, 10, 64): one or more decimal digits (no sign, no
      underscores) whose value fits in 64 bits. */
  function ParseUint(s: string): (r: Option<nat>)
    ensures r.Some? <==> |s| > 0 && AllDigits(s) && DecimalValue(s) <= MaxUint64
    ensures r.Some? ==> r.value == DecimalValue(s)
  {
    if |s| > 0 && AllDigits(s) && DecimalValue(s) <= MaxUint64 then Some(DecimalValue(s)) else None
  }

  /** The decimal form of a number, without leading zeros. */
  function Decimal(n: nat): (s: string)
    ensures |s| > 0 && AllDigits(s)
  {
    if n < 10 then [DigitChar(n)] else Decimal(n / 10) + [DigitChar(n % 10)]
  }

  /** Reading a decimal form back gives the number. */
  lemma {:induction false} DecimalValueOfDecimal(n: nat)
    ensures DecimalValue(Decimal(n)) == n
  {
    if n >= 10 {
      var s := Decimal(n);
      assert s[..|s| - 1] == Decimal(n / 10);
      DecimalValueOfDecimal(n / 10);
    }
  }

  /** ParseUint accepts the decimal form of every 64-bit unsigned number. */
  lemma ParseDecimal(n: nat)
    requires n <= MaxUint64
    ensures ParseUint(Decimal(n)) == Some(n)
  {
    DecimalValueOfDecimal(n);
  }

  /** getenvInt64 as written: a positive 64-bit unsigned value is converted
      with int64(u), which wraps values of 2^63 and above to negatives. */
  function GetenvInt64AsWritten(env: Env, key: string, def: Int64): (r: Int64)
    ensures Lookup(env, key) == "" ==> r == def
    ensures ParseUint(Lookup(env, key)).None? ==> r == def
    ensures ParseUint(Lookup(env, key)) == Some(0) ==> r == def
    ensures ParseUint(Lookup(env, key)).Some? && ParseUint(Lookup(env, key)).value > 0 ==>
      r == WrapInt64(ParseUint(Lookup(env, key)).value)
  {
    var v := Lookup(env, key);
    if v == "" then def
    else match ParseUint(v)
      case None => def
      case Some(u) => if u == 0 then def else WrapInt64(u)
  }

  /** getenvInt as written: on 64-bit platforms ParseUint(val, 10, 0) and
      int(u) are the 64-bit conversions, so it is getenvInt64. */
  function GetenvIntAsWritten(env: Env, key: string, def: Int64): (r: Int64)
    ensures Lookup(env, key) == "" ==> r == def
    ensures ParseUint(Lookup(env, key)).None? ==> r == def
    ensures ParseUint(Lookup(env, key)) == Some(0) ==> r == def
    ensures ParseUint(Lookup(env, key)).Some? && ParseUint(Lookup(env, key)).value > 0 ==>
      r == WrapInt64(ParseUint(Lookup(env, key)).value)
  {
    GetenvInt64AsWritten(env, key, def)
  }

  /** Every value from 2^63 to 2^64 - 1 passes both checks and comes out
      negative, 2^64 below itself, whatever the default; 2^63 gives the
      most negative int64. */
  lemma AsWrittenGoesNegative(key: string, u: nat, def: Int64)
    requires MaxInt64 < u <= MaxUint64
    ensures var env := map[key := Decimal(u)];
      && GetenvInt64AsWritten(env, key, def) == u - TwoTo64 < 0
      && GetenvIntAsWritten(env, key, def) == u - TwoTo64 < 0
    ensures u == MaxInt64 + 1 ==> GetenvInt64AsWritten(map[key := Decimal(u)], key, def) == MinInt64
  {
    ParseDecimal(u);
    WrapsOnce(u);
  }

  /** A value in [2^63, 2^64) wraps to itself minus 2^64. */
  lemma WrapsOnce(u: int)
    requires MaxInt64 < u <= MaxUint64
    ensures WrapInt64(u) == u - TwoTo64
  {
    var r := WrapInt64(u);
    var k := (u - r) / TwoTo64;
    assert u - r == k * TwoTo64;
    assert 0 < u - r < 2 * TwoTo64;
  }

  /** getenvInt64 as intended: the parsed value when it is positive and
      representable, otherwise the default. */
  function GetenvInt64(env: Env, key: string, def: Int64): (r: Int64)
    ensures def > 0 ==> r > 0
    ensures r == def || (ParseUint(Lookup(env, key)) == Some(r) && r > 0)
    ensures ParseUint(Lookup(env, key)).Some? && 0 < ParseUint(Lookup(env, key)).value <= MaxInt64 ==>
      r == ParseUint(Lookup(env, key)).value
  {
    var v := Lookup(env, key);
    if v == "" then def
    else match ParseUint(v)
      case None => def
      case Some(u) => if u == 0 || u > MaxInt64 then def else u
  }

  /** getenvInt as intended; int is 64 bits wide. */
  function GetenvInt(env: Env, key: string, def: Int64): (r: Int64)
    ensures def > 0 ==> r > 0
    ensures r == def || (ParseUint(Lookup(env, key)) == Some(r) && r > 0)
    ensures ParseUint(Lookup(env, key)).Some? && 0 < ParseUint(Lookup(env, key)).value <= MaxInt64 ==>
      r == ParseUint(Lookup(env, key)).value
  {
    GetenvInt64(env, key, def)
  }

  /** The variable is unset, unparseable, or at most the int64 maximum. */
  predicate FitsInt64(env: Env, key: string)
  {
    ParseUint(Lookup(env, key)).None? || ParseUint(Lookup(env, key)).value <= MaxInt64
  }

  /** The two agree wherever the written conversion does not wrap. */
  lemma CorrectedAgreesBelowWrap(env: Env, key: string, def: Int64)
    requires FitsInt64(env, key)
    ensures GetenvInt64(env, key, def) == GetenvInt64AsWritten(env, key, def)
  {
  }

  /** getenvDuration: `parseDuration` stands for time.ParseDuration, in
      nanoseconds. Unset, unparseable and non-positive values give the
      default. */
  function GetenvDuration(env: Env, key: string, def: Int64, parseDuration: string -> Option<Int64>): (r: Int64)
    ensures Lookup(env, key) == "" ==> r == def
    ensures Lookup(env, key) != "" && parseDuration(Lookup(env, key)).None? ==> r == def
    ensures def > 0 ==> r > 0
    ensures r == def || (parseDuration(Lookup(env, key)) == Some(r) && r > 0)
    ensures Lookup(env, key) != "" && parseDuration(Lookup(env, key)).Some? ==>
      (parseDuration(Lookup(env, key)).value > 0 ==> r == parseDuration(Lookup(env, key)).value)
  {
    var v := Lookup(env, key);
    if v == "" then def
    else match parseDuration(v)
      case None => def
      case Some(d) => if d <= 0 then def else d
  }

  const Second: int := 1_000_000_000

  const DefaultAddr := ":1025"
  const DefaultDomain := "localhost"
  const DefaultMaxMessageBytes: Int64 := 10 * 1024 * 1024
  const DefaultMaxRecipients: Int64 := 50
  const DefaultTimeout: Int64 := 10 * Second

  /** The variables without which the gateway does not start. */
  const Required := {"SENDER_EMAIL", "SENDER_PASSWORD", "ENTRA_CLIENT_ID", "ENTRA_TENANT_ID", "ENTRA_CLIENT_SECRET"}

  /** The optional variables. */
  const Optional := {"SMTP_SERVER_ADDR", "SMTP_SERVER_DOMAIN", "SMTP_MAX_MESSAGE_BYTES",
                     "SMTP_MAX_RECIPIENTS", "SMTP_WRITE_TIMEOUT", "SMTP_READ_TIMEOUT", "SENTRY_DSN"}

  /** Some required variable is unset or empty. */
  predicate AnyRequiredEmpty(env: Env)
  {
    || Lookup(env, "SENDER_EMAIL") == ""
    || Lookup(env, "SENDER_PASSWORD") == ""
    || Lookup(env, "ENTRA_CLIENT_ID") == ""
    || Lookup(env, "ENTRA_TENANT_ID") == ""
    || Lookup(env, "ENTRA_CLIENT_SECRET") == ""
  }

  datatype Config = Config(
    smtpAddr: string,
    smtpDomain: string,
    maxMessageBytes: Int64,
    maxRecipients: Int64,
    writeTimeout: Int64,
    readTimeout: Int64,
    senderEmail: string,
    senderPassword: string,
    entraClientID: string,
    entraTenantID: string,
    entraClientSecret: string,
    sentryDSN: string)

  /** Every setting of the configuration, given the two integer settings. */
  function Assemble(env: Env, parseDuration: string -> Option<Int64>,
                    maxMessageBytes: Int64, maxRecipients: Int64): Config
  {
    Config(
      Getenv(env, "SMTP_SERVER_ADDR", DefaultAddr),
      Getenv(env, "SMTP_SERVER_DOMAIN", DefaultDomain),
      maxMessageBytes,
      maxRecipients,
      GetenvDuration(env, "SMTP_WRITE_TIMEOUT", DefaultTimeout, parseDuration),
      GetenvDuration(env, "SMTP_READ_TIMEOUT", DefaultTimeout, parseDuration),
      Lookup(env, "SENDER_EMAIL"),
      Lookup(env, "SENDER_PASSWORD"),
      Lookup(env, "ENTRA_CLIENT_ID"),
      Lookup(env, "ENTRA_TENANT_ID"),
      Lookup(env, "ENTRA_CLIENT_SECRET"),
      Lookup(env, "SENTRY_DSN"))
  }

  /** The required-variable check: the error is the set of required
      variables that are empty. */
  function Checked(env: Env, cfg: Config): Result<Config, set<string>>
  {
    if AnyRequiredEmpty(env) then
      Failure(set name | name in Required && Lookup(env, name) == "")
    else Success(cfg)
  }

  /** Every setting other than the two integer limits comes from its own
      variable: the address from SMTP_SERVER_ADDR, the domain from
      SMTP_SERVER_DOMAIN, the write and read timeouts from SMTP_WRITE_TIMEOUT
      and SMTP_READ_TIMEOUT, and the credentials and DSN from theirs. */
  predicate ReadsOwnVariables(env: Env, parseDuration: string -> Option<Int64>, c: Config)
  {
    && c.smtpAddr == Getenv(env, "SMTP_SERVER_ADDR", DefaultAddr)
    && c.smtpDomain == Getenv(env, "SMTP_SERVER_DOMAIN", DefaultDomain)
    && c.writeTimeout == GetenvDuration(env, "SMTP_WRITE_TIMEOUT", DefaultTimeout, parseDuration)
    && c.readTimeout == GetenvDuration(env, "SMTP_READ_TIMEOUT", DefaultTimeout, parseDuration)
    && c.senderEmail == Lookup(env, "SENDER_EMAIL")
    && c.senderPassword == Lookup(env, "SENDER_PASSWORD")
    && c.entraClientID == Lookup(env, "ENTRA_CLIENT_ID")
    && c.entraTenantID == Lookup(env, "ENTRA_TENANT_ID")
    && c.entraClientSecret == Lookup(env, "ENTRA_CLIENT_SECRET")
    && c.sentryDSN == Lookup(env, "SENTRY_DSN")
  }

  /** LoadConfig. The error is the set of required variables that are
      empty; Go lists them in map order, which is unspecified. */
  function LoadConfig(env: Env, parseDuration: string -> Option<Int64>): (r: Result<Config, set<string>>)
    ensures r.Failure? <==> exists name :: name in Required && Lookup(env, name) == ""
    ensures r.Failure? ==> forall name :: name in r.error <==> name in Required && Lookup(env, name) == ""
    ensures r.Success? ==>
      && r.value.senderEmail == Lookup(env, "SENDER_EMAIL") != ""
      && r.value.senderPassword == Lookup(env, "SENDER_PASSWORD") != ""
      && r.value.entraClientID == Lookup(env, "ENTRA_CLIENT_ID") != ""
      && r.value.entraTenantID == Lookup(env, "ENTRA_TENANT_ID") != ""
      && r.value.entraClientSecret == Lookup(env, "ENTRA_CLIENT_SECRET") != ""
      && r.value.sentryDSN == Lookup(env, "SENTRY_DSN")
      && r.value.smtpAddr != "" && r.value.smtpDomain != ""
      && r.value.maxMessageBytes > 0 && r.value.maxRecipients > 0
      && r.value.writeTimeout > 0 && r.value.readTimeout > 0
    ensures r.Success? ==> ReadsOwnVariables(env, parseDuration, r.value)
    ensures r.Success? ==>
      && r.value.maxMessageBytes == GetenvInt64(env, "SMTP_MAX_MESSAGE_BYTES", DefaultMaxMessageBytes)
      && r.value.maxRecipients == GetenvInt(env, "SMTP_MAX_RECIPIENTS", DefaultMaxRecipients)
  {
    Checked(env, Assemble(env, parseDuration,
                          GetenvInt64(env, "SMTP_MAX_MESSAGE_BYTES", DefaultMaxMessageBytes),
                          GetenvInt(env, "SMTP_MAX_RECIPIENTS", DefaultMaxRecipients)))
  }

  /** LoadConfig as written: the integer settings go through the wrapping
      conversions. */
  function LoadConfigAsWritten(env: Env, parseDuration: string -> Option<Int64>): (r: Result<Config, set<string>>)
    ensures r.Failure? <==> exists name :: name in Required && Lookup(env, name) == ""
    ensures r.Failure? ==> forall name :: name in r.error <==> name in Required && Lookup(env, name) == ""
    ensures r.Success? ==> ReadsOwnVariables(env, parseDuration, r.value)
    ensures r.Success? ==>
      && r.value.maxMessageBytes == GetenvInt64AsWritten(env, "SMTP_MAX_MESSAGE_BYTES", DefaultMaxMessageBytes)
      && r.value.maxRecipients == GetenvIntAsWritten(env, "SMTP_MAX_RECIPIENTS", DefaultMaxRecipients)
  {
    Checked(env, Assemble(env, parseDuration,
                          GetenvInt64AsWritten(env, "SMTP_MAX_MESSAGE_BYTES", DefaultMaxMessageBytes),
                          GetenvIntAsWritten(env, "SMTP_MAX_RECIPIENTS", DefaultMaxRecipients)))
  }

  /** The corrected and as-written loads fail alike, with the same error,
      and succeed with the same settings except the two integer ones; those
      agree too when neither value reaches 2^63. */
  lemma LoadConfigsAgree(env: Env, parseDuration: string -> Option<Int64>)
    ensures LoadConfig(env, parseDuration).Failure? == LoadConfigAsWritten(env, parseDuration).Failure?
    ensures LoadConfig(env, parseDuration).Failure? ==>
      LoadConfig(env, parseDuration).error == LoadConfigAsWritten(env, parseDuration).error
    ensures LoadConfig(env, parseDuration).Success? ==>
      var c, w := LoadConfig(env, parseDuration).value, LoadConfigAsWritten(env, parseDuration).value;
      w == c.(maxMessageBytes := w.maxMessageBytes, maxRecipients := w.maxRecipients)
    ensures FitsInt64(env, "SMTP_MAX_MESSAGE_BYTES") && FitsInt64(env, "SMTP_MAX_RECIPIENTS") ==>
      LoadConfig(env, parseDuration) == LoadConfigAsWritten(env, parseDuration)
  {
    if FitsInt64(env, "SMTP_MAX_MESSAGE_BYTES") && FitsInt64(env, "SMTP_MAX_RECIPIENTS") {
      CorrectedAgreesBelowWrap(env, "SMTP_MAX_MESSAGE_BYTES", DefaultMaxMessageBytes);
      CorrectedAgreesBelowWrap(env, "SMTP_MAX_RECIPIENTS", DefaultMaxRecipients);
    }
  }

  /** A message-size value from 2^63 up loads as written into a negative
      size, where the corrected load keeps the positive default. */
  lemma AsWrittenLoadGoesNegative(env: Env, parseDuration: string -> Option<Int64>, u: nat)
    requires !AnyRequiredEmpty(env)
    requires MaxInt64 < u <= MaxUint64
    requires ParseUint(Lookup(env, "SMTP_MAX_MESSAGE_BYTES")) == Some(u)
    ensures LoadConfigAsWritten(env, parseDuration).Success?
    ensures LoadConfigAsWritten(env, parseDuration).value.maxMessageBytes == u - TwoTo64 < 0
    ensures LoadConfig(env, parseDuration).value.maxMessageBytes == DefaultMaxMessageBytes
  {
    WrapsOnce(u);
  }

  /** With no optional variable set, every optional setting is its default. */
  lemma DefaultsWhenUnset(env: Env, parseDuration: string -> Option<Int64>)
    requires forall name :: name in Optional ==> name !in env
    requires LoadConfig(env, parseDuration).Success?
    ensures var c := LoadConfig(env, parseDuration).value;
      && c.smtpAddr == ":1025" && c.smtpDomain == "localhost"
      && c.maxMessageBytes == 10485760 && c.maxRecipients == 50
      && c.writeTimeout == 10 * Second && c.readTimeout == 10 * Second
      && c.sentryDSN == ""
  {
  }

  /** Optional variables never decide whether loading fails. */
  lemma OptionalNeverFails(env: Env, parseDuration: string -> Option<Int64>, name: string, value: string)
    requires name in Optional
    ensures LoadConfig(env[name := value], parseDuration).Failure? == LoadConfig(env, parseDuration).Failure?
  {
    assert forall n :: n in Required ==> Lookup(env[name := value], n) == Lookup(env, n);
  }
}
