/** Environment-scoped configuration: which `config/<env>.properties` resource is read,
    and the typed getters layered over `Properties.getProperty`.

    Reading the resource from the classpath and parsing the `.properties` syntax are
    not modelled: the available resources are given as a map from resource path to
    the already-parsed key/value map.
 */
module Config {
  import opened Wrappers

  /** A loaded properties file: key to value. */
  type Properties = map<string, string>

  /** The state held by the configuration singleton. */
  datatype ConfigManager = ConfigManager(environment: string, properties: Properties)

  datatype LoadError = MissingResource(message: string)

  datatype NumberFormatError = NumberFormatError(input: string)

  const DefaultEnvironment: string := "dev"
  const PathPrefix: string := "config/"
  const PathSuffix: string := ".properties"

  const BrowserKey: string := "browser"
  const HeadlessKey: string := "headless"
  const ApiTimeoutKey: string := "api.timeout"
  const ApiBaseUrlKey: string := "api.base.url"
  const UiBaseUrlKey: string := "ui.base.url"
  const DbUrlKey: string := "db.url"
  const DbUserKey: string := "db.user"
  const DbPasswordKey: string := "db.password"

  const DefaultBrowser: string := "chromium"
  const DefaultHeadless: string := "true"
  const DefaultApiTimeout: string := "30000"

  /** Java `int` bounds, the range `Integer.parseInt` accepts. */
  const IntMin: int := -0x8000_0000
  const IntMax: int := 0x7FFF_FFFF

  // ---------------------------------------------------------------------------
  // Environment and resource path

  /** The environment name: the `env` system property, or "dev" when it is unset. */
  function Environment(envProperty: Option<string>): (env: string)
    ensures envProperty.Some? ==> env == envProperty.value
    ensures envProperty.None? ==> env == DefaultEnvironment
  {
    envProperty.GetOr(DefaultEnvironment)
  }

  /** The classpath resource holding the properties of environment `env`. */
  function ConfigPath(env: string): (path: string)
    ensures |path| == |PathPrefix| + |env| + |PathSuffix|
    ensures path[..|PathPrefix|] == PathPrefix
    ensures path[|PathPrefix|..|PathPrefix| + |env|] == env
    ensures path[|PathPrefix| + |env|..] == PathSuffix
  {
    PathPrefix + env + PathSuffix
  }

  /** Recovers the environment name from a resource path, if it has the expected shape. */
  function EnvironmentOfPath(path: string): (env: Option<string>)
    ensures env.Some? ==> ConfigPath(env.value) == path
  {
    if |path| >= |PathPrefix| + |PathSuffix|
       && path[..|PathPrefix|] == PathPrefix
       && path[|path| - |PathSuffix|..] == PathSuffix
    then
      var e := path[|PathPrefix|..|path| - |PathSuffix|];
      assert path == PathPrefix + e + PathSuffix;
      Some(e)
    else None
  }

  /** Every environment has its own resource path: the path determines the environment. */
  lemma ConfigPathRoundTrip(env: string)
    ensures EnvironmentOfPath(ConfigPath(env)) == Some(env)
  {
    var p := ConfigPath(env);
    assert p[|PathPrefix|..|p| - |PathSuffix|] == env;
  }

  /** Constructs the configuration: picks the environment, then loads its resource.
      A missing resource is an error naming the path. */
  function Load(envProperty: Option<string>, resources: map<string, Properties>): (r: Result<ConfigManager, LoadError>)
    ensures var path := ConfigPath(Environment(envProperty));
            && (r.Success? <==> path in resources)
            && (r.Success? ==> r.value.environment == Environment(envProperty)
                               && r.value.properties == resources[path])
            && (r.Failure? ==> r.error.message == "Unable to find config file: " + path)
  {
    var env := Environment(envProperty);
    var path := ConfigPath(env);
    if path in resources then Success(ConfigManager(env, resources[path]))
    else Failure(MissingResource("Unable to find config file: " + path))
  }

  // ---------------------------------------------------------------------------
  // Lookups

  /** `getProperty(key)`: the stored value, or absent (Java null). */
  function GetProperty(c: ConfigManager, key: string): (r: Option<string>)
    ensures r.Some? <==> key in c.properties
    ensures r.Some? ==> r.value == c.properties[key]
  {
    if key in c.properties then Some(c.properties[key]) else None
  }

  /** `getProperty(key, default)`: the stored value when present, `default` otherwise. */
  function GetPropertyOr(c: ConfigManager, key: string, default: string): (r: string)
    ensures key in c.properties ==> r == c.properties[key]
    ensures key !in c.properties ==> r == default
  {
    if key in c.properties then c.properties[key] else default
  }

  /** The two overloads agree: the defaulting one is the plain one with null replaced. */
  lemma GetPropertyOverloadsAgree(c: ConfigManager, key: string, default: string)
    ensures GetPropertyOr(c, key, default) == GetProperty(c, key).GetOr(default)
    ensures GetProperty(c, key).Some? ==> GetPropertyOr(c, key, default) == GetProperty(c, key).value
  {
  }

  function GetApiBaseUrl(c: ConfigManager): (r: Option<string>)
    ensures r.Some? <==> ApiBaseUrlKey in c.properties
    ensures r.Some? ==> r.value == c.properties[ApiBaseUrlKey]
  {
    GetProperty(c, ApiBaseUrlKey)
  }

  function GetUiBaseUrl(c: ConfigManager): (r: Option<string>)
    ensures r.Some? <==> UiBaseUrlKey in c.properties
    ensures r.Some? ==> r.value == c.properties[UiBaseUrlKey]
  {
    GetProperty(c, UiBaseUrlKey)
  }

  function GetDatabaseUrl(c: ConfigManager): (r: Option<string>)
    ensures r.Some? <==> DbUrlKey in c.properties
    ensures r.Some? ==> r.value == c.properties[DbUrlKey]
  {
    GetProperty(c, DbUrlKey)
  }

  function GetDatabaseUser(c: ConfigManager): (r: Option<string>)
    ensures r.Some? <==> DbUserKey in c.properties
    ensures r.Some? ==> r.value == c.properties[DbUserKey]
  {
    GetProperty(c, DbUserKey)
  }

  function GetDatabasePassword(c: ConfigManager): (r: Option<string>)
    ensures r.Some? <==> DbPasswordKey in c.properties
    ensures r.Some? ==> r.value == c.properties[DbPasswordKey]
  {
    GetProperty(c, DbPasswordKey)
  }

  /** The configured browser name, "chromium" when none is configured. */
  function GetBrowser(c: ConfigManager): (r: string)
    ensures BrowserKey !in c.properties ==> r == DefaultBrowser
    ensures BrowserKey in c.properties ==> r == c.properties[BrowserKey]
  {
    GetPropertyOr(c, BrowserKey, DefaultBrowser)
  }

  /** Headless unless "headless" is set to something other than "true" (in any case). */
  function IsHeadless(c: ConfigManager): (r: bool)
    ensures HeadlessKey !in c.properties ==> r
    ensures HeadlessKey in c.properties ==> (r <==> IsTrueWord(c.properties[HeadlessKey]))
  {
    TrueWordCharacterisation(DefaultHeadless);
    ParseBoolean(Some(GetPropertyOr(c, HeadlessKey, DefaultHeadless)))
  }

  /** `Integer.parseInt(getProperty("api.timeout", "30000"))`. */
  function GetApiTimeout(c: ConfigManager): (r: Result<int, NumberFormatError>)
    ensures ApiTimeoutKey !in c.properties ==> r == Success(30000)
    ensures ApiTimeoutKey in c.properties ==> r == ParseInt(c.properties[ApiTimeoutKey])
    ensures r.Success? ==> IntMin <= r.value <= IntMax
  {
    ParseDefaultTimeout();
    ParseInt(GetPropertyOr(c, ApiTimeoutKey, DefaultApiTimeout))
  }

  // ---------------------------------------------------------------------------
  // Case folding (ASCII) and Boolean.parseBoolean

  function ToLowerChar(ch: char): (r: char)
    ensures 'A' <= ch <= 'Z' ==> r as int == ch as int + 32 && 'a' <= r <= 'z'
    ensures !('A' <= ch <= 'Z') ==> r == ch
  {
    if 'A' <= ch <= 'Z' then (ch as int + 32) as char else ch
  }

  /** `String.toLowerCase`, restricted to the ASCII letters. */
  function ToLower(s: string): (r: string)
    ensures |r| == |s|
    ensures forall i :: 0 <= i < |s| ==> r[i] == ToLowerChar(s[i])
  {
    if |s| == 0 then [] else [ToLowerChar(s[0])] + ToLower(s[1..])
  }

  /** Lower-casing twice is lower-casing once. */
  lemma ToLowerIdempotent(s: string)
    ensures ToLower(ToLower(s)) == ToLower(s)
  {
  }

  /** A string that is already lower case is its own lower-case form. */
  lemma ToLowerOfLower(s: string)
    requires forall i :: 0 <= i < |s| ==> !('A' <= s[i] <= 'Z')
    ensures ToLower(s) == s
  {
  }

  /** `s` is the lower-case word `word` with any of its letters written as capitals. */
  predicate SpelledIgnoringCase(s: string, word: string)
  {
    && |s| == |word|
    && forall i :: 0 <= i < |s| ==> s[i] == word[i] || s[i] as int + 32 == word[i] as int
  }

  /** Lower-casing gives a lower-case word exactly for the case spellings of that word. */
  lemma LowerSpelling(s: string, word: string)
    requires forall i :: 0 <= i < |word| ==> 'a' <= word[i] <= 'z'
    ensures ToLower(s) == word <==> SpelledIgnoringCase(s, word)
  {
    if ToLower(s) == word {
      forall i | 0 <= i < |s|
        ensures s[i] == word[i] || s[i] as int + 32 == word[i] as int
      {
        assert ToLowerChar(s[i]) == word[i];
      }
    }
    if SpelledIgnoringCase(s, word) {
      forall i | 0 <= i < |s|
        ensures ToLower(s)[i] == word[i]
      {
        assert 'a' <= word[i] <= 'z';
      }
    }
  }

  /** `String.equalsIgnoreCase` over ASCII letters. */
  predicate EqualsIgnoreCase(a: string, b: string)
  {
    ToLower(a) == ToLower(b)
  }

  /** "true" written in any mix of upper and lower case. */
  predicate IsTrueWord(s: string)
  {
    && |s| == 4
    && (s[0] == 't' || s[0] == 'T')
    && (s[1] == 'r' || s[1] == 'R')
    && (s[2] == 'u' || s[2] == 'U')
    && (s[3] == 'e' || s[3] == 'E')
  }

  /** Comparing with "true" ignoring case accepts exactly the sixteen spellings of "true". */
  lemma TrueWordCharacterisation(s: string)
    ensures EqualsIgnoreCase(s, "true") <==> IsTrueWord(s)
  {
    ToLowerOfLower("true");
    if EqualsIgnoreCase(s, "true") {
      assert |s| == 4;
      assert ToLower(s)[0] == 't' && ToLower(s)[1] == 'r' && ToLower(s)[2] == 'u' && ToLower(s)[3] == 'e';
    }
    if IsTrueWord(s) {
      assert ToLower(s) == "true";
    }
  }

  /** `Boolean.parseBoolean`: null and every string other than "true" (ignoring case) is false. */
  function ParseBoolean(s: Option<string>): (r: bool)
    ensures r <==> s.Some? && IsTrueWord(s.value)
  {
    if s.Some? then TrueWordCharacterisation(s.value); EqualsIgnoreCase(s.value, "true") else false
  }

  // ---------------------------------------------------------------------------
  // Decimal integers: Integer.parseInt and its inverse

  predicate IsDigit(ch: char)
  {
    '0' <= ch <= '9'
  }

  predicate AllDigits(s: string)
  {
    forall i :: 0 <= i < |s| ==> IsDigit(s[i])
  }

  function DigitValue(ch: char): (d: nat)
    requires IsDigit(ch)
    ensures d < 10
  {
    ch as int - '0' as int
  }

  function DigitChar(d: nat): (ch: char)
    requires d < 10
    ensures IsDigit(ch) && DigitValue(ch) == d
  {
    ('0' as int + d) as char
  }

  /** The value of a run of decimal digits, most significant first. */
  function DigitsValue(ds: string): nat
    requires AllDigits(ds)
  {
    if |ds| == 0 then 0 else DigitsValue(ds[..|ds| - 1]) * 10 + DigitValue(ds[|ds| - 1])
  }

  /** The shortest decimal rendering of `n`. */
  function FormatNat(n: nat): (s: string)
    ensures |s| > 0
    decreases n
  {
    if n < 10 then [DigitChar(n)] else FormatNat(n / 10) + [DigitChar(n % 10)]
  }

  /** `Integer.toString`: a minus sign for negative values, then the digits of the magnitude. */
  function FormatInt(n: int): (s: string)
    ensures |s| > 0
  {
    if n < 0 then "-" + FormatNat(-n) else FormatNat(n)
  }

  lemma {:induction false} FormatNatDigits(n: nat)
    ensures AllDigits(FormatNat(n))
    ensures DigitsValue(FormatNat(n)) == n
    decreases n
  {
    if n >= 10 {
      FormatNatDigits(n / 10);
      var s := FormatNat(n);
      assert s[..|s| - 1] == FormatNat(n / 10);
    }
  }

  /** `Integer.parseInt(s, 10)`: an optional '+' or '-', then at least one decimal digit,
      and the value must fit in a Java `int`; anything else is a NumberFormatException. */
  function ParseInt(s: string): (r: Result<int, NumberFormatError>)
    ensures r.Success? ==> IntMin <= r.value <= IntMax
    ensures |s| == 0 ==> r.Failure?
    ensures s == "-" || s == "+" ==> r.Failure?
    ensures r.Failure? ==> r.error.input == s
  {
    if |s| == 0 then Failure(NumberFormatError(s))
    else
      var signed := s[0] == '-' || s[0] == '+';
      var digits := if signed then s[1..] else s;
      if |digits| == 0 || !AllDigits(digits) then Failure(NumberFormatError(s))
      else
        var magnitude: int := DigitsValue(digits);
        var v := if s[0] == '-' then -magnitude else magnitude;
        if IntMin <= v <= IntMax then Success(v) else Failure(NumberFormatError(s))
  }

  /** The value of an input made of digits only, or of a '+' and digits: the digits' value,
      accepted exactly when it fits in a Java `int`. Leading zeros are allowed. */
  lemma ParseIntOfDigits(ds: string)
    requires |ds| > 0 && AllDigits(ds)
    ensures var v: int := DigitsValue(ds);
            ParseInt(ds) == if v <= IntMax then Success(v) else Failure(NumberFormatError(ds))
    ensures var v: int := DigitsValue(ds);
            ParseInt("+" + ds) == if v <= IntMax then Success(v) else Failure(NumberFormatError("+" + ds))
  {
    assert IsDigit(ds[0]);
    assert ("+" + ds)[1..] == ds;
  }

  /** The value of a '-' followed by digits: the digits' value negated, accepted exactly when it
      is at least Integer.MIN_VALUE. */
  lemma ParseIntOfNegative(ds: string)
    requires |ds| > 0 && AllDigits(ds)
    ensures var v: int := 0 - DigitsValue(ds) as int;
            ParseInt("-" + ds) == if IntMin <= v then Success(v) else Failure(NumberFormatError("-" + ds))
  {
    assert ("-" + ds)[1..] == ds;
  }

  /** Any string containing a character that is neither a digit nor a leading sign is rejected. */
  lemma ParseIntRejectsNonDigit(s: string, i: int)
    requires 0 <= i < |s|
    requires !IsDigit(s[i])
    requires i > 0 || (s[0] != '-' && s[0] != '+')
    ensures ParseInt(s).Failure?
  {
    if |s| > 0 && (s[0] == '-' || s[0] == '+') {
      assert s[1..][i - 1] == s[i];
    }
  }

  /** Parsing the rendering of any Java `int` gives the value back. */
  lemma ParseFormatRoundTrip(n: int)
    requires IntMin <= n <= IntMax
    ensures ParseInt(FormatInt(n)) == Success(n)
  {
    if n < 0 {
      FormatNatDigits(-n);
      var s := FormatInt(n);
      assert s[1..] == FormatNat(-n);
    } else {
      FormatNatDigits(n);
      var s := FormatNat(n);
      assert IsDigit(s[0]);
    }
  }

  /** With no `env` property the "dev" resource is read, and with none of the browser, headless
      and timeout keys set the getters fall back to chromium, headless and 30000 ms. */
  lemma DefaultConfiguration(resources: map<string, Properties>)
    ensures Load(None, resources).Success? <==> "config/dev.properties" in resources
    ensures Load(None, resources).Success? ==> Load(None, resources).value.environment == "dev"
    ensures forall c: ConfigManager ::
              BrowserKey !in c.properties && HeadlessKey !in c.properties && ApiTimeoutKey !in c.properties ==>
              GetBrowser(c) == "chromium" && IsHeadless(c) && GetApiTimeout(c) == Success(30000)
  {
    assert ConfigPath(Environment(None)) == "config/dev.properties";
  }

  lemma ParseDefaultTimeout()
    ensures ParseInt(DefaultApiTimeout) == Success(30000)
  {
    ParseFormatRoundTrip(30000);
    assert FormatNat(30000) == DefaultApiTimeout;
  }
}
