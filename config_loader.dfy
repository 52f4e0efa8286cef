/**
 * The configuration checks run once the alert-rules document has been parsed: the required
 * sections, the required e-mail settings, and a non-empty rule list; and the section getters.
 */
module Configuration {
  import opened Wrappers

  /** A value of the parsed configuration document. */
  datatype Value =
    | Null
    | Bool(b: bool)
    | Number(n: real)
    | Text(s: string)
    | List(items: seq<Value>)
    | Dict(entries: map<string, Value>)

  /** Whether a value counts as true in a condition: everything but false, zero and the empty ones. */
  predicate Truthy(v: Value)
  {
    match v
    case Null => false
    case Bool(b) => b
    case Number(n) => n != 0.0
    case Text(s) => s != []
    case List(items) => items != []
    case Dict(entries) => entries != map[]
  }

  /** Whether `key` occurs as a contiguous piece of `s`. */
  predicate IsInfix(key: string, s: string)
    decreases |s|
  {
    key <= s || (s != [] && IsInfix(key, s[1..]))
  }

  /** Values that a membership test can look into; on any other value it raises a type error. */
  predicate IsContainer(v: Value)
  {
    v.Dict? || v.List? || v.Text?
  }

  /** A membership test `key in v`: a key of a mapping, an element of a list, a piece of a text. */
  function Contains(v: Value, key: string): (r: Option<bool>)
    ensures r.None? <==> !IsContainer(v)
    ensures v.Dict? ==> r == Some(key in v.entries)
  {
    match v
    case Dict(entries) => Some(key in entries)
    case List(items) => Some(Text(key) in items)
    case Text(s) => Some(IsInfix(key, s))
    case _ => None
  }

  /** The result of validation: a boolean answer, or the type error the membership test raises. */
  datatype Verdict = Returns(valid: bool) | RaisesTypeError

  /**
   * Checks the keys in order and stops at the first one that is missing (false) or when the
   * container cannot be searched (a type error, raised at the first key).
   */
  function CheckAll(container: Value, keys: seq<string>): (r: Verdict)
    ensures r.RaisesTypeError? <==> keys != [] && !IsContainer(container)
    ensures r == Returns(true) <==> forall i :: 0 <= i < |keys| ==> Contains(container, keys[i]) == Some(true)
    decreases |keys|
  {
    if keys == [] then Returns(true)
    else match Contains(container, keys[0])
      case None => RaisesTypeError
      case Some(found) =>
        if !found then Returns(false) else CheckAll(container, keys[1..])
  }

  const RequiredSections: seq<string> := ["prometheus", "email", "alert_rules"]
  const RequiredEmailFields: seq<string> := ["smtp_server", "from_email", "username", "password"]

  /** The section stored under `key`, or `default` when the document has none. */
  function Section(config: map<string, Value>, key: string, default: Value): (v: Value)
    ensures key in config ==> v == config[key]
    ensures key !in config ==> v == default
  {
    if key in config then config[key] else default
  }

  function GetPrometheusConfig(config: map<string, Value>): (v: Value)
    ensures "prometheus" in config ==> v == config["prometheus"]
    ensures "prometheus" !in config ==> v == Dict(map[])
  {
    Section(config, "prometheus", Dict(map[]))
  }

  function GetEmailConfig(config: map<string, Value>): (v: Value)
    ensures "email" in config ==> v == config["email"]
    ensures "email" !in config ==> v == Dict(map[])
  {
    Section(config, "email", Dict(map[]))
  }

  function GetAlertSettings(config: map<string, Value>): (v: Value)
    ensures "alert_settings" in config ==> v == config["alert_settings"]
    ensures "alert_settings" !in config ==> v == Dict(map[])
  {
    Section(config, "alert_settings", Dict(map[]))
  }

  function GetAlertRules(config: map<string, Value>): (v: Value)
    ensures "alert_rules" in config ==> v == config["alert_rules"]
    ensures "alert_rules" !in config ==> v == List([])
  {
    Section(config, "alert_rules", List([]))
  }

  /** The document has every required section. */
  predicate HasSections(m: map<string, Value>)
  {
    "prometheus" in m && "email" in m && "alert_rules" in m
  }

  /** The e-mail section names every required setting. */
  predicate HasEmailFields(email: Value)
  {
    && Contains(email, "smtp_server") == Some(true)
    && Contains(email, "from_email") == Some(true)
    && Contains(email, "username") == Some(true)
    && Contains(email, "password") == Some(true)
  }

  /** The declarative reading of a valid configuration. */
  predicate ConfigOk(config: Option<map<string, Value>>)
  {
    && config.Some?
    && HasSections(config.value)
    && HasEmailFields(config.value["email"])
    && Truthy(config.value["alert_rules"])
  }

  /**
   * Validates a loaded document (None when nothing was loaded). It is invalid when absent or
   * empty, when a required section is missing, when the e-mail section lacks a required field,
   * or when the rule list is empty; an e-mail section that cannot be searched raises.
   */
  function Validate(config: Option<map<string, Value>>): (r: Verdict)
    ensures config.None? ==> r == Returns(false)
    ensures config == Some(map[]) ==> r == Returns(false)
    ensures config.Some? && !HasSections(config.value) ==> r == Returns(false)
    ensures config.Some? && HasSections(config.value) ==>
      var email := config.value["email"];
      && (r.RaisesTypeError? <==> !IsContainer(email))
      && (IsContainer(email) && !HasEmailFields(email) ==> r == Returns(false))
      && (!Truthy(config.value["alert_rules"]) ==> r != Returns(true))
    ensures r == Returns(true) <==> ConfigOk(config)
  {
    if config.None? || config.value == map[] then Returns(false)
    else
      var m := config.value;
      assert RequiredSections[0] == "prometheus" && RequiredSections[1] == "email" && RequiredSections[2] == "alert_rules";
      var sections := CheckAll(Dict(m), RequiredSections);
      if sections != Returns(true) then sections
      else
        assert RequiredEmailFields[0] == "smtp_server" && RequiredEmailFields[1] == "from_email";
        assert RequiredEmailFields[2] == "username" && RequiredEmailFields[3] == "password";
        var fields := CheckAll(GetEmailConfig(m), RequiredEmailFields);
        if fields != Returns(true) then fields
        else Returns(Truthy(GetAlertRules(m)))
  }
}
