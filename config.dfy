/**
 * The start-up configuration of the updater (src/config.ts): the optional
 * hostname allow-list and the optional set of record types, turned from the
 * JSON text of their environment variables into sets.
 */
module Configuration {
  import opened Wrappers

  /** One element of a parsed JSON array: a string, or any other JSON value. */
  datatype JsonElement = JString(text: string) | JOther

  /**
   * What `JSON.parse` gives for an environment value: the elements of the
   * array, or `None` when the text is not valid JSON (the parse throws).
   */
  type JsonParser = string -> Option<seq<JsonElement>>

  datatype ConfigError =
    | CannotParseHostnames(raw: string)
    | CannotParseRecordTypes(raw: string)
    | NoRecordTypes
    | UnsupportedRecordType

  /** The text of the error thrown for each failure. */
  function Message(e: ConfigError): string
  {
    match e
    case CannotParseHostnames(raw) => "Cannot parse HOSTNAMES: " + raw + "."
    case CannotParseRecordTypes(raw) => "Cannot parse RECORD_TYPES: " + raw + "."
    case NoRecordTypes => "Please specific record types to update."
    case UnsupportedRecordType => "Only A and AAAA record types are supported."
  }

  /**
   * The configuration value after validation. `None` in `hostnames` or
   * `recordTypes` means the variable was not given: no restriction.
   */
  datatype Config = Config(
    domainId: string,
    hostnames: Option<set<string>>,
    recordTypes: Option<set<string>>)

  const SupportedRecordTypes: set<string> := {"A", "AAAA"}

  predicate IsSupported(e: JsonElement)
  {
    e == JString("A") || e == JString("AAAA")
  }

  /** `process.env[key]` is truthy: present and not the empty string. */
  predicate IsSet(env: map<string, string>, key: string)
  {
    key in env && env[key] != ""
  }

  /**
   * `new Set(list)` as the hostname check sees it: a record name is a string,
   * so only the string elements can ever match one.
   */
  function HostnameSet(elements: seq<JsonElement>): (hosts: set<string>)
    ensures forall h :: h in hosts <==> JString(h) in elements
  {
    set e | e in elements && e.JString? :: e.text
  }

  /**
   * The checks on the parsed RECORD_TYPES list: the empty list is refused
   * first, then any element other than "A" or "AAAA"; otherwise the list
   * becomes the set of its elements.
   */
  function ValidateRecordTypes(types: seq<JsonElement>): (r: Result<set<string>, ConfigError>)
    ensures r == Failure(NoRecordTypes) <==> |types| == 0
    ensures r == Failure(UnsupportedRecordType) <==>
              |types| > 0 && exists e :: e in types && !IsSupported(e)
    ensures r.Failure? ==> r.error == NoRecordTypes || r.error == UnsupportedRecordType
    ensures r.Success? ==> r.value != {} && r.value <= SupportedRecordTypes
    ensures r.Success? ==> forall t :: t in r.value <==> JString(t) in types
  {
    if |types| == 0 then
      Failure(NoRecordTypes)
    else if exists e :: e in types && !IsSupported(e) then
      Failure(UnsupportedRecordType)
    else
      var s := set e | e in types && e.JString? :: e.text;
      assert types[0] in types && IsSupported(types[0]);
      assert types[0].text in s;
      Success(s)
  }

  /**
   * Validation depends only on which elements occur, not on their order or
   * how often each is repeated.
   */
  lemma RecordTypesIgnoreOrderAndDuplicates(xs: seq<JsonElement>, ys: seq<JsonElement>)
    requires forall e :: e in xs <==> e in ys
    ensures ValidateRecordTypes(xs) == ValidateRecordTypes(ys)
  {
    assert |xs| > 0 ==> xs[0] in ys;
    assert |ys| > 0 ==> ys[0] in xs;
    if |xs| > 0 {
      var sx := set e | e in xs && e.JString? :: e.text;
      var sy := set e | e in ys && e.JString? :: e.text;
      assert sx == sy by {
        forall t ensures t in sx <==> t in sy {
          assert t in sx <==> JString(t) in xs;
          assert t in sy <==> JString(t) in ys;
        }
      }
    }
  }

  /** HOSTNAMES is unset, or its text parses. */
  predicate HostnamesParse(env: map<string, string>, parse: JsonParser)
  {
    !IsSet(env, "HOSTNAMES") || parse(env["HOSTNAMES"]).Some?
  }

  /**
   * Loading the two optional variables: HOSTNAMES is handled first, then
   * RECORD_TYPES; the first failure is the one reported. `domainId` stands for
   * the already validated LINODE_DOMAIN_ID.
   */
  function LoadConfig(domainId: string, env: map<string, string>, parse: JsonParser)
    : (r: Result<Config, ConfigError>)
    ensures !IsSet(env, "HOSTNAMES") && !IsSet(env, "RECORD_TYPES") ==>
              r == Success(Config(domainId, None, None))
    ensures IsSet(env, "HOSTNAMES") && parse(env["HOSTNAMES"]).None? ==>
              r == Failure(CannotParseHostnames(env["HOSTNAMES"]))
    ensures HostnamesParse(env, parse) && !IsSet(env, "RECORD_TYPES") ==> r.Success?
    ensures HostnamesParse(env, parse) && IsSet(env, "RECORD_TYPES") &&
            parse(env["RECORD_TYPES"]).None? ==>
              r == Failure(CannotParseRecordTypes(env["RECORD_TYPES"]))
    ensures HostnamesParse(env, parse) && IsSet(env, "RECORD_TYPES") &&
            parse(env["RECORD_TYPES"]).Some? && ValidateRecordTypes(parse(env["RECORD_TYPES"]).value).Failure? ==>
              r == Failure(ValidateRecordTypes(parse(env["RECORD_TYPES"]).value).error)
    ensures r.Success? <==>
              && HostnamesParse(env, parse)
              && (!IsSet(env, "RECORD_TYPES") ||
                  (parse(env["RECORD_TYPES"]).Some? && ValidateRecordTypes(parse(env["RECORD_TYPES"]).value).Success?))
    ensures r.Success? ==> r.value.domainId == domainId
    ensures r.Success? ==> (r.value.hostnames.Some? <==> IsSet(env, "HOSTNAMES"))
    ensures r.Success? ==> (r.value.recordTypes.Some? <==> IsSet(env, "RECORD_TYPES"))
    ensures r.Success? && r.value.hostnames.Some? ==>
              parse(env["HOSTNAMES"]).Some? &&
              forall h :: h in r.value.hostnames.value <==> JString(h) in parse(env["HOSTNAMES"]).value
    ensures r.Success? && r.value.recordTypes.Some? ==>
              parse(env["RECORD_TYPES"]).Some? &&
              Success(r.value.recordTypes.value) == ValidateRecordTypes(parse(env["RECORD_TYPES"]).value)
  {
    var hostnames: Result<Option<set<string>>, ConfigError> :=
      if !IsSet(env, "HOSTNAMES") then Success(None)
      else match parse(env["HOSTNAMES"])
        case None => Failure(CannotParseHostnames(env["HOSTNAMES"]))
        case Some(elements) => Success(Some(HostnameSet(elements)));
    if hostnames.Failure? then
      Failure(hostnames.error)
    else if !IsSet(env, "RECORD_TYPES") then
      Success(Config(domainId, hostnames.value, None))
    else match parse(env["RECORD_TYPES"])
      case None => Failure(CannotParseRecordTypes(env["RECORD_TYPES"]))
      case Some(types) =>
        match ValidateRecordTypes(types)
        case Failure(e) => Failure(e)
        case Success(s) => Success(Config(domainId, hostnames.value, Some(s)))
  }
}
