/**
 * `ServiceConfiguration`: the per-service configuration kept in the `service_configurations`
 * table, keyed by service name and environment. Reads fall back to a default configuration for a
 * service that has none yet, writes stamp the configuration with the tool's version, and an
 * interactive edit writes only what the operator confirmed.
 *
 * The table is the field `stored` of the object; the editor, the confirmation prompt, the
 * difference check and the JSON-schema check are inputs; `pascalcase`, `spinalcase`, the working
 * directory and `VERSION` are fixed when the object is made.
 */
module ServiceConfig {
  import opened Wrappers
  import opened Strings
  import opened Dicts
  import opened Json
  import opened Errors

  const DefaultTargetGroupDeregistrationDelay: int := 30
  const DefaultLoadBalancingAlgorithm: string := "least_outstanding_requests"

  /** The key a stored configuration carries the writing tool's version under. */
  const VersionKey: string := "cloudlift_version"

  /** The message an edit fails with when the table cannot be reached. */
  const StoreUnavailable: string := "Unable to fetch service configuration from DynamoDB."

  /*** The default configuration ***/

  const DefaultHttpInterface: Dict<Json> := [
    Entry("internal", JBool(false)),
    Entry("alb", JObject([Entry("create_new", JBool(true))])),
    Entry("restrict_access_to", JArray([JStr("0.0.0.0/0")])),
    Entry("container_port", JNum(80)),
    Entry("health_check_path", JStr("/elb-check")),
    Entry("load_balancing_algorithm", JStr(DefaultLoadBalancingAlgorithm)),
    Entry("deregistartion_delay", JNum(DefaultTargetGroupDeregistrationDelay))
  ]

  /** The settings of the one service a default configuration holds. */
  function DefaultService(serviceName: string, environment: string, spinalCase: string -> string): Dict<Json> {
    [ Entry("http_interface", JObject(DefaultHttpInterface)),
      Entry("secrets_name", JStr(spinalCase(serviceName + "-" + environment))),
      Entry("system_controls", JArray([])),
      Entry("memory_reservation", JNum(1000)),
      Entry("command", JNull) ]
  }

  /**
   * `_default_service_configuration`: an ECR repository named after the working directory and a
   * single HTTP service named after the service.
   */
  function DefaultServiceConfiguration(serviceName: string, environment: string, workingDirectory: string,
                                       pascalCase: string -> string, spinalCase: string -> string): (r: Dict<Json>)
    ensures && Keys(r) == {"ecr_repo", "services"}
            && Lookup(r, "ecr_repo") == Some(JObject([Entry("name", JStr(spinalCase(workingDirectory + "-repo")))]))
            && Lookup(r, VersionKey) == None
            && Lookup(r, "services").Some? && Lookup(r, "services").value.JObject?
            && Keys(Lookup(r, "services").value.fields) == {pascalCase(serviceName)}
  {
    var services := [Entry(pascalCase(serviceName), JObject(DefaultService(serviceName, environment, spinalCase)))];
    var d := [ Entry("ecr_repo", JObject([Entry("name", JStr(spinalCase(workingDirectory + "-repo")))])),
               Entry("services", JObject(services)) ];
    KeysCons(d[0], d[1..]);
    KeysCons(d[1], []);
    assert d[1..] == [d[1]] + [];
    KeysCons(services[0], []);
    assert services == [services[0]] + [];
    assert |VersionKey| == 17 && |"ecr_repo"| == 8 && |"services"| == 8;
    assert "ecr_repo"[0] != "services"[0];
    LookupFirst(d, 0, "ecr_repo");
    LookupFirst(d, 1, "services");
    d
  }

  /**
   * The default names its ECR repository `spinalcase(<working directory>-repo)`, holds exactly one
   * service keyed `pascalcase(<service name>)` that listens on port 80 behind a new, public load
   * balancer, reserves 1000 MB, has no command and no system controls, and carries no version.
   */
  lemma DefaultShape(serviceName: string, environment: string, workingDirectory: string,
                     pascalCase: string -> string, spinalCase: string -> string)
    ensures var d := DefaultServiceConfiguration(serviceName, environment, workingDirectory, pascalCase, spinalCase);
            && Keys(d) == {"ecr_repo", "services"}
            && Lookup(d, "ecr_repo") == Some(JObject([Entry("name", JStr(spinalCase(workingDirectory + "-repo")))]))
            && Lookup(d, VersionKey) == None
            && Lookup(d, "services").Some? && Lookup(d, "services").value.JObject?
            && Keys(Lookup(d, "services").value.fields) == {pascalCase(serviceName)}
    ensures var service := DefaultService(serviceName, environment, spinalCase);
            && Lookup(service, "memory_reservation") == Some(JNum(1000))
            && Lookup(service, "command") == Some(JNull)
            && Lookup(service, "system_controls") == Some(JArray([]))
            && Lookup(service, "secrets_name") == Some(JStr(spinalCase(serviceName + "-" + environment)))
            && Lookup(service, "http_interface") == Some(JObject(DefaultHttpInterface))
    ensures && Lookup(DefaultHttpInterface, "container_port") == Some(JNum(80))
            && Lookup(DefaultHttpInterface, "internal") == Some(JBool(false))
            && Lookup(DefaultHttpInterface, "restrict_access_to") == Some(JArray([JStr("0.0.0.0/0")]))
            && Lookup(DefaultHttpInterface, "alb") == Some(JObject([Entry("create_new", JBool(true))]))
  {
    DefaultServiceLookups(serviceName, environment, spinalCase);
    DefaultHttpInterfaceLookups();
  }

  lemma DefaultServiceLookups(serviceName: string, environment: string, spinalCase: string -> string)
    ensures var service := DefaultService(serviceName, environment, spinalCase);
            && Lookup(service, "memory_reservation") == Some(JNum(1000))
            && Lookup(service, "command") == Some(JNull)
            && Lookup(service, "system_controls") == Some(JArray([]))
            && Lookup(service, "secrets_name") == Some(JStr(spinalCase(serviceName + "-" + environment)))
            && Lookup(service, "http_interface") == Some(JObject(DefaultHttpInterface))
  {
    var service := DefaultService(serviceName, environment, spinalCase);
    assert |"http_interface"| == 14 && |"secrets_name"| == 12 && |"system_controls"| == 15;
    assert |"memory_reservation"| == 18 && |"command"| == 7;
    LookupFirst(service, 0, "http_interface");
    LookupFirst(service, 1, "secrets_name");
    LookupFirst(service, 2, "system_controls");
    LookupFirst(service, 3, "memory_reservation");
    LookupFirst(service, 4, "command");
  }

  lemma DefaultHttpInterfaceLookups()
    ensures && Lookup(DefaultHttpInterface, "container_port") == Some(JNum(80))
            && Lookup(DefaultHttpInterface, "internal") == Some(JBool(false))
            && Lookup(DefaultHttpInterface, "restrict_access_to") == Some(JArray([JStr("0.0.0.0/0")]))
            && Lookup(DefaultHttpInterface, "alb") == Some(JObject([Entry("create_new", JBool(true))]))
  {
    var h := DefaultHttpInterface;
    assert |"internal"| == 8 && |"alb"| == 3 && |"restrict_access_to"| == 18 && |"container_port"| == 14;
    LookupFirst(h, 0, "internal");
    LookupFirst(h, 1, "alb");
    LookupFirst(h, 2, "restrict_access_to");
    LookupFirst(h, 3, "container_port");
  }

  /*** Reading and writing ***/

  /** Whether the table holds a configuration that counts: a missing or empty one does not. */
  predicate HasConfiguration(stored: Option<Dict<Json>>) {
    stored.Some? && stored.value != []
  }

  /** What `get_config` returns for a given table content and default. */
  function ReadConfiguration(stored: Option<Dict<Json>>, default: Dict<Json>, stripVersion: bool): (r: Dict<Json>)
    ensures var existing := if HasConfiguration(stored) then stored.value else default;
            forall k :: k != VersionKey ==> Lookup(r, k) == Lookup(existing, k)
    ensures stripVersion ==> Lookup(r, VersionKey) == None
    ensures !stripVersion && HasConfiguration(stored) ==> r == stored.value
    ensures !HasConfiguration(stored) && VersionKey !in Keys(default) ==> r == default
  {
    var existing := if HasConfiguration(stored) then stored.value else default;
    if stripVersion then Pop(existing, VersionKey) else existing
  }

  /** What `set_config` stores: the configuration stamped with the version that writes it. */
  function Stamped(config: Dict<Json>, version: string): Dict<Json> {
    Assign(config, VersionKey, JStr(version))
  }

  /**
   * Setting a configuration and reading it back gives the configuration without the version
   * stamp; when it came from a read, that is exactly what was set.
   */
  lemma GetAfterSet(config: Dict<Json>, version: string, default: Dict<Json>)
    ensures ReadConfiguration(Some(Stamped(config, version)), default, true) == Pop(config, VersionKey)
    ensures VersionKey !in Keys(config) ==> ReadConfiguration(Some(Stamped(config, version)), default, true) == config
  {
    assert Stamped(config, version) != [] by {
      assert VersionKey in Keys(Stamped(config, version));
    }
    PopAssign(config, VersionKey, JStr(version));
  }

  /**
   * Refreshing the version stamp of a stored configuration keeps every other setting and records
   * the new version.
   */
  lemma VersionRefreshed(stored: Option<Dict<Json>>, default: Dict<Json>, version: string)
    ensures var refreshed := Stamped(ReadConfiguration(stored, default, true), version);
            var existing := if HasConfiguration(stored) then stored.value else default;
            && Lookup(refreshed, VersionKey) == Some(JStr(version))
            && (forall k :: k != VersionKey ==> Lookup(refreshed, k) == Lookup(existing, k))
            && Keys(refreshed) == Keys(existing) + {VersionKey}
  {
    var existing := if HasConfiguration(stored) then stored.value else default;
    AssignKeys(Pop(existing, VersionKey), VersionKey, JStr(version));
  }

  /** A service with nothing stored reads as the default, which has no version to strip. */
  lemma ReadMissing(stored: Option<Dict<Json>>, serviceName: string, environment: string, workingDirectory: string,
                    pascalCase: string -> string, spinalCase: string -> string, stripVersion: bool)
    requires !HasConfiguration(stored)
    ensures ReadConfiguration(stored, DefaultServiceConfiguration(serviceName, environment, workingDirectory,
                                                                  pascalCase, spinalCase), stripVersion)
         == DefaultServiceConfiguration(serviceName, environment, workingDirectory, pascalCase, spinalCase)
  {
    DefaultShape(serviceName, environment, workingDirectory, pascalCase, spinalCase);
  }

  /*** Schema validation ***/

  /** One step of the path to the offending value: a key or a list position. */
  datatype PathItem = Key(key: string) | Index(index: nat)

  /** What the schema check reports on failure. */
  datatype ValidationError = ValidationError(message: string, relativePath: seq<PathItem>)

  /** `str(item)`. */
  function PathText(item: PathItem): string {
    match item
    case Key(key) => key
    case Index(index) => NatToString(index)
  }

  function PathTexts(path: seq<PathItem>): (r: seq<string>)
    ensures |r| == |path|
    ensures forall i :: 0 <= i < |path| ==> r[i] == PathText(path[i])
  {
    seq(|path|, i requires 0 <= i < |path| => PathText(path[i]))
  }

  /** The text of the `UnrecoverableException` a schema failure becomes. */
  function ValidationMessage(error: ValidationError): string {
    error.message + " in " + Join(PathTexts(error.relativePath), ".")
  }

  /**
   * The failure text starts with the schema's message, and what follows `" in "` splits at the
   * dots back into the path, when no key on it holds a dot.
   */
  lemma ValidationMessageParts(error: ValidationError)
    requires |error.relativePath| >= 1
    requires forall i :: 0 <= i < |error.relativePath| ==>
               error.relativePath[i].Key? ==> '.' !in error.relativePath[i].key
    ensures var text := ValidationMessage(error);
            var n := |error.message| + 4;
            && n <= |text| && text[..n] == error.message + " in "
            && Split(text[n..], ".") == PathTexts(error.relativePath)
  {
    var texts := PathTexts(error.relativePath);
    var text := ValidationMessage(error);
    var n := |error.message| + 4;
    assert text[..n] == error.message + " in ";
    assert text[n..] == Join(texts, ".");
    forall i | 0 <= i < |texts| ensures '.' !in texts[i] {
      if error.relativePath[i].Index? {
        var digits := NatToString(error.relativePath[i].index);
        assert texts[i] == digits;
        forall j | 0 <= j < |digits| ensures digits[j] != '.' {
        }
      }
    }
    SplitJoin(texts, '.');
  }

  /** `_validate_changes`: the schema check's verdict, its failure turned into the tool's exception. */
  function ValidateChanges(config: Dict<Json>, check: Dict<Json> -> Option<ValidationError>): (r: Result<(), Exception>)
    ensures r.Ok? <==> check(config).None?
    ensures r.Err? ==> r.error == UnrecoverableException(ValidationMessage(check(config).value))
  {
    match check(config)
    case None => Ok(())
    case Some(error) => Err(UnrecoverableException(ValidationMessage(error)))
  }

  const ContainerLabelsError: ValidationError :=
    ValidationError("1 is not of type 'string'",
                    [Key("services"), Key("TestService"), Key("container_labels"), Key("key")])

  /**
   * A container label whose value is a number is reported with the dotted path to it:
   * "1 is not of type 'string' in services.TestService.container_labels.key".
   */
  lemma ContainerLabelsMessage()
    ensures ValidationMessage(ContainerLabelsError)
         == "1 is not of type 'string'" + " in " + ("services" + "." + ("TestService" + "." + ("container_labels" + "." + "key")))
  {
    var texts := PathTexts(ContainerLabelsError.relativePath);
    assert texts == ["services", "TestService", "container_labels", "key"];
    assert texts[1..][1..][1..] == ["key"];
  }

  /*** The configuration object ***/

  class ServiceConfiguration {
    const serviceName: string
    const environment: string
    /** `VERSION` of the running tool. */
    const version: string
    /** `basename(getcwd())`. */
    const workingDirectory: string
    const pascalCase: string -> string
    const spinalCase: string -> string
    /** Whether the table answers; when it does not, every read and write raises `ClientError`. */
    const reachable: bool

    /** Set once a read found no configuration and fell back to the default. */
    var newService: bool
    /** The configuration of this service's item in the table, if it has one. */
    var stored: Option<Dict<Json>>

    constructor(serviceName: string, environment: string, version: string, workingDirectory: string,
                pascalCase: string -> string, spinalCase: string -> string, reachable: bool,
                stored: Option<Dict<Json>>)
      ensures this.serviceName == serviceName && this.environment == environment && this.version == version
      ensures this.workingDirectory == workingDirectory && this.reachable == reachable
      ensures this.pascalCase == pascalCase && this.spinalCase == spinalCase
      ensures this.stored == stored && !newService
    {
      this.serviceName := serviceName;
      this.environment := environment;
      this.version := version;
      this.workingDirectory := workingDirectory;
      this.pascalCase := pascalCase;
      this.spinalCase := spinalCase;
      this.reachable := reachable;
      this.stored := stored;
      newService := false;
    }

    function Default(): Dict<Json> {
      DefaultServiceConfiguration(serviceName, environment, workingDirectory, pascalCase, spinalCase)
    }

    /**
     * `get_config`: the stored configuration, or the default when there is none (which marks the
     * service as new), without its version stamp unless asked to keep it.
     */
    method GetConfig(stripVersion: bool) returns (r: Result<Dict<Json>, Exception>)
      modifies this`newService
      ensures !reachable ==> r == Err(ClientError) && newService == old(newService)
      ensures reachable ==> r == Ok(ReadConfiguration(stored, Default(), stripVersion))
      ensures reachable ==> newService == (old(newService) || !HasConfiguration(stored))
    {
      if !reachable {
        return Err(ClientError);
      }
      var existing: Dict<Json>;
      if stored.Some? && stored.value != [] {
        existing := stored.value;
      } else {
        existing := Default();
        newService := true;
      }
      if stripVersion {
        existing := Pop(existing, VersionKey);
      }
      r := Ok(existing);
    }

    /**
     * `set_config`: stamps the caller's configuration with the version, in place, then stores it.
     * `config'` is the caller's dictionary afterwards.
     */
    method SetConfig(config: Dict<Json>) returns (config': Dict<Json>, r: Result<(), Exception>)
      modifies this`stored
      ensures config' == Stamped(config, version)
      ensures reachable ==> r == Ok(()) && stored == Some(config')
      ensures !reachable ==> r == Err(ClientError) && stored == old(stored)
    {
      config' := Assign(config, VersionKey, JStr(version));
      if !reachable {
        return config', Err(ClientError);
      }
      stored := Some(config');
      r := Ok(());
    }

    /** `update_cloudlift_version`: reads the configuration and writes it back with the current version. */
    method UpdateCloudliftVersion() returns (r: Result<(), Exception>)
      modifies this
      ensures !reachable ==> r == Err(ClientError) && stored == old(stored)
      ensures reachable ==> r == Ok(()) && stored == Some(Stamped(ReadConfiguration(old(stored), Default(), true), version))
      ensures newService == (old(newService) || (reachable && !HasConfiguration(old(stored))))
    {
      var config := GetConfig(true);
      if config.Err? {
        return Err(config.error);
      }
      var _, written := SetConfig(config.value);
      r := written;
    }

    /** `validate`: runs the schema check on the stored configuration, version stamp included. */
    method Validate(check: Dict<Json> -> Option<ValidationError>) returns (r: Result<(), Exception>)
      modifies this`newService
      ensures !reachable ==> r == Err(ClientError)
      ensures reachable ==> r == ValidateChanges(ReadConfiguration(stored, Default(), false), check)
      ensures newService == (old(newService) || (reachable && !HasConfiguration(stored)))
    {
      var config := GetConfig(false);
      if config.Err? {
        return Err(config.error);
      }
      r := ValidateChanges(config.value, check);
    }

    /**
     * `edit_config`. `edited` is what the editor returns, already parsed (`None` when the editor was
     * closed without saving); `changed` is whether the parsed text differs from what was shown;
     * `confirmed` is the operator's answer to the confirmation prompt.
     */
    method EditConfig(edited: Option<Dict<Json>>, changed: bool, confirmed: bool) returns (r: Result<(), Exception>)
      modifies this
      ensures !reachable ==> r == Err(UnrecoverableException(StoreUnavailable)) && stored == old(stored)
      ensures reachable ==> r == Ok(())
      ensures reachable && edited.None? ==>
                stored == if old(newService) || !HasConfiguration(old(stored))
                          then Some(Stamped(ReadConfiguration(old(stored), Default(), true), version))
                          else old(stored)
      ensures reachable && edited.Some? ==>
                stored == if changed && confirmed then Some(Stamped(edited.value, version)) else old(stored)
      ensures newService == (old(newService) || (reachable && !HasConfiguration(old(stored))))
    {
      var current := GetConfig(true);
      if current.Err? {
        return Err(UnrecoverableException(StoreUnavailable));
      }
      r := Ok(());
      if edited.None? {
        if newService {
          var _, written := SetConfig(current.value);
        }
      } else if changed && confirmed {
        var _, written := SetConfig(edited.value);
      }
    }
  }

  /**
   * Editing a service that has nothing stored, on an object that has not read before, and closing
   * the editor without saving stores the default stamped with the version.
   */
  lemma EditUnsavedStoresDefault(stored: Option<Dict<Json>>, serviceName: string, environment: string,
                                 workingDirectory: string, pascalCase: string -> string,
                                 spinalCase: string -> string, version: string)
    requires !HasConfiguration(stored)
    ensures var default := DefaultServiceConfiguration(serviceName, environment, workingDirectory, pascalCase, spinalCase);
            Stamped(ReadConfiguration(stored, default, true), version) == Stamped(default, version)
  {
    ReadMissing(stored, serviceName, environment, workingDirectory, pascalCase, spinalCase, true);
  }
}
