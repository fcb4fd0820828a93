/**
 * The configuration lookup of the authorization package: a value from the
 * project's `MAGIC_AUTHORIZATION` mapping when it names the setting, otherwise
 * the package default, otherwise a `KeyError`.
 */
module Settings {
  import opened Common
  import opened PyString

  /** The Python values a setting can hold. */
  datatype Value = Str(s: string) | Bool(b: bool) | Int(i: int) | Null

  datatype SettingError = KeyError(name: string)

  /**
   * The parts of the Django settings object the lookup reads. `debug` is the
   * value `DEBUG` had when the settings module was first imported: `DEFAULTS`
   * is built once, at import, so a later change of `DEBUG` does not reach it.
   * `user` is the `MAGIC_AUTHORIZATION` attribute as it is at lookup time
   * (`None` when the project does not define it).
   */
  datatype Config = Config(debug: bool, user: Option<map<string, Value>>)

  const COOKIE_SECURE := "COOKIE_SECURE"
  const COOKIE_MAX_AGE := "COOKIE_MAX_AGE"
  const COOKIE_SAMESITE := "COOKIE_SAMESITE"
  const COOKIE_HTTPONLY := "COOKIE_HTTPONLY"
  const COOKIE_PREFIX := "COOKIE_PREFIX"
  const TOKEN_PARAM := "TOKEN_PARAM"
  const FORBIDDEN_HANDLER := "FORBIDDEN_HANDLER"
  const FORBIDDEN_TEMPLATE := "FORBIDDEN_TEMPLATE"

  /** One year in seconds. */
  const ONE_YEAR := 60 * 60 * 24 * 365

  /** The `DEFAULTS` table; `COOKIE_SECURE` is `not DEBUG`, evaluated at import. */
  function Defaults(debug: bool): map<string, Value> {
    map[
      COOKIE_SECURE := Bool(!debug),
      COOKIE_MAX_AGE := Int(ONE_YEAR),
      COOKIE_SAMESITE := Str("lax"),
      COOKIE_HTTPONLY := Bool(true),
      COOKIE_PREFIX := Str("django_magic_authorization_"),
      TOKEN_PARAM := Str("token")
    ]
  }

  /** `getattr(settings, "MAGIC_AUTHORIZATION", {})`. */
  function Overrides(cfg: Config): map<string, Value> {
    match cfg.user
    case Some(m) => m
    case None => map[]
  }

  /**
   * `get_setting(name)`: a lookup in `DEFAULTS` overlaid with the project's
   * mapping (`{**DEFAULTS, **MAGIC_AUTHORIZATION}`), raising `KeyError(name)`
   * for a name in neither.
   */
  function GetSetting(cfg: Config, name: string): (r: Result<Value, SettingError>)
    ensures var merged := Defaults(cfg.debug) + Overrides(cfg);
      (r.Ok? <==> name in merged) && (r.Ok? ==> r.value == merged[name])
    ensures r.Err? ==> r.error == KeyError(name)
  {
    var user := Overrides(cfg);
    if name in user then Ok(user[name])
    else if name in Defaults(cfg.debug) then Ok(Defaults(cfg.debug)[name])
    else Err(KeyError(name))
  }

  /** A setting that is always present: one of the names of the `DEFAULTS` table. */
  function Setting(cfg: Config, name: string): (v: Value)
    requires name in Defaults(cfg.debug)
    ensures GetSetting(cfg, name) == Ok(v)
  {
    GetSetting(cfg, name).value
  }

  /**
   * The decimal digits of a natural number, as `str(n)` writes them: digits
   * that `int` reads back as `n`, with no leading zero except in `"0"` itself.
   */
  function Decimal(n: nat): (r: string)
    ensures r != [] && AllDigits(r)
    ensures DigitsValue(r) == n
    ensures r[0] == '0' ==> r == "0"
  {
    var d := ['0' + (n % 10) as char];
    if n < 10 then d
    else
      var h := Decimal(n / 10);
      assert (h + d)[..|h|] == h;
      h + d
  }

  /**
   * How an f-string renders a setting value. An integer is written as an
   * optional minus sign and the decimal digits of its magnitude.
   */
  function Format(v: Value): (r: string)
    ensures v.Int? ==> r != [] && (r[0] == '-' <==> v.i < 0)
    ensures v.Int? ==> var digits := if v.i < 0 then r[1..] else r;
      AllDigits(digits) && DigitsValue(digits) == (if v.i < 0 then -v.i else v.i)
  {
    match v
    case Str(s) => s
    case Bool(b) => if b then "True" else "False"
    case Int(i) => if i < 0 then "-" + Decimal(-i) else Decimal(i)
    case Null => "None"
  }

  /** Python truthiness of a setting value. */
  predicate TruthyValue(v: Value) {
    match v
    case Str(s) => s != ""
    case Bool(b) => b
    case Int(i) => i != 0
    case Null => false
  }

  /** A project override always wins, whatever the default. */
  lemma OverrideWins(debug: bool, user: map<string, Value>, name: string)
    requires name in user
    ensures GetSetting(Config(debug, Some(user)), name) == Ok(user[name])
  {
  }

  /** Without `MAGIC_AUTHORIZATION` every documented setting has its default value. */
  lemma DefaultValues(debug: bool)
    ensures GetSetting(Config(debug, None), COOKIE_SECURE) == Ok(Bool(!debug))
    ensures GetSetting(Config(debug, None), COOKIE_MAX_AGE) == Ok(Int(31536000))
    ensures GetSetting(Config(debug, None), COOKIE_SAMESITE) == Ok(Str("lax"))
    ensures GetSetting(Config(debug, None), COOKIE_HTTPONLY) == Ok(Bool(true))
    ensures GetSetting(Config(debug, None), COOKIE_PREFIX) == Ok(Str("django_magic_authorization_"))
    ensures GetSetting(Config(debug, None), TOKEN_PARAM) == Ok(Str("token"))
  {
  }

  /** An absent `MAGIC_AUTHORIZATION` behaves exactly like an empty one. */
  lemma MissingMappingIsEmpty(debug: bool, name: string)
    ensures GetSetting(Config(debug, None), name) == GetSetting(Config(debug, Some(map[])), name)
  {
  }

  /** The six names of the table never raise, whatever the project sets. */
  lemma TableNamesNeverRaise(cfg: Config, name: string)
    requires name in {COOKIE_SECURE, COOKIE_MAX_AGE, COOKIE_SAMESITE, COOKIE_HTTPONLY, COOKIE_PREFIX, TOKEN_PARAM}
    ensures GetSetting(cfg, name).Ok?
  {
  }

  /**
   * The two denial settings are missing from the table, so reading either of
   * them raises unless the project sets it.
   */
  lemma DenialSettingsNeedOverride(cfg: Config, name: string)
    requires name == FORBIDDEN_HANDLER || name == FORBIDDEN_TEMPLATE
    ensures GetSetting(cfg, name).Err? <==> name !in Overrides(cfg)
  {
  }
}
