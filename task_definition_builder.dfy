/**
 * cloudlift/deployment/task_definition_builder.py: the ECS task definition a service's
 * configuration describes, and the key renaming applied to its serialised form.
 *
 * The configuration is the part of a service's entry that the builder reads, one field per key;
 * a key that may be absent is an `Option`, so that reading a missing key raises the `KeyError`
 * the builder raises. The troposphere objects become datatypes with the same fields.
 */
module TaskDefinitionBuilder {
  import opened Wrappers
  import opened Strings
  import opened Dicts
  import opened Json
  import opened Errors

  // ---------------------------------------------------------------------------
  // Names
  // ---------------------------------------------------------------------------

  /** `container_name(service_name)`: the service's name with the suffix `Container`. */
  function ContainerName(serviceName: string): (r: string)
    ensures |r| == |serviceName| + 9 && r[..|serviceName|] == serviceName && r[|serviceName|..] == "Container"
  {
    serviceName + "Container"
  }

  /** `strip_container_name(name)`: every occurrence of `Container` removed. */
  function StripContainerName(name: string): string {
    RemoveAll(name, "Container")
  }

  /** Stripping undoes naming the container, for a name that does not itself hold `Container`. */
  lemma StripContainerNameRoundTrip(serviceName: string)
    requires !Contains(serviceName, "Container")
    ensures StripContainerName(ContainerName(serviceName)) == serviceName
  {
    var suffix := "Container";
    var named := serviceName + suffix;
    forall i: nat | i < |serviceName| ensures !OccursAt(named, suffix, i) {
      if i + |suffix| <= |serviceName| {
        assert !OccursAt(serviceName, suffix, i);
        assert named[i..i + |suffix|] == serviceName[i..i + |suffix|];
      } else {
        var d := |serviceName| - i;
        assert 0 < d < |suffix|;
        assert named[i + d] == 'C' && suffix[d] != 'C';
        Mismatch(named, suffix, i, d);
      }
    }
    RemoveAppended(serviceName, suffix);
  }

  /** `_resource_name(service_name)`: the service's name with the suffix `TaskDefinition`. */
  function ResourceName(serviceName: string): (r: string)
    ensures |r| == |serviceName| + 14 && r[..|serviceName|] == serviceName && r[|serviceName|..] == "TaskDefinition"
  {
    serviceName + "TaskDefinition"
  }

  /** The task family: `f'{environment}{service_name}Family'[:255]`. */
  function FamilyName(environment: string, serviceName: string): (r: string)
    ensures |r| <= 255
    ensures |environment + serviceName + "Family"| <= 255 ==> r == environment + serviceName + "Family"
    ensures r == (environment + serviceName + "Family")[..|r|]
  {
    Truncate(environment + serviceName + "Family", 255)
  }

  // ---------------------------------------------------------------------------
  // Configuration and task definition
  // ---------------------------------------------------------------------------

  datatype PlacementConstraintConfig = PlacementConstraintConfig(constraintType: Option<string>, expression: Option<string>)
  datatype SystemControlConfig = SystemControlConfig(namespace: Option<string>, value: Option<string>)
  datatype HttpInterface = HttpInterface(containerPort: Option<int>)
  datatype UdpInterface = UdpInterface(containerPort: Option<int>, healthCheckPort: Option<int>)
  datatype TcpInterface = TcpInterface(containerPort: Option<int>)
  datatype HealthCheckConfig = HealthCheckConfig(command: Option<string>, startPeriod: Option<int>, retries: Option<int>,
                                                 interval: Option<int>, timeout: Option<int>)
  /** A sidecar's entry; `name` and `memory_reservation` are read with `.get`, so a missing one is `None`. */
  datatype SidecarConfig = SidecarConfig(name: Option<string>, image: string, command: Option<seq<string>>,
                                         memoryReservation: Option<int>)

  /** The keys of a service's configuration that the builder reads. */
  datatype ServiceConfig = ServiceConfig(
    placementConstraints: Option<seq<PlacementConstraintConfig>>,
    taskRoleArn: Option<string>,
    taskExecutionRoleArn: Option<string>,
    httpInterface: Option<HttpInterface>,
    udpInterface: Option<UdpInterface>,
    tcpInterface: Option<TcpInterface>,
    memoryReservation: Option<int>,
    /** `None` when the key is absent, `Some(None)` when it is `null`. */
    command: Option<Option<string>>,
    stopTimeout: Option<int>,
    systemControls: Option<seq<SystemControlConfig>>,
    containerHealthCheck: Option<HealthCheckConfig>,
    sidecars: Option<seq<SidecarConfig>>,
    containerLabels: Option<Dict<string>>,
    logGroup: Option<string>)

  /** What a `TaskDefinitionBuilder` is constructed with. */
  datatype Builder = Builder(environment: string, serviceName: string, configuration: ServiceConfig, region: string)

  /** A name/value pair: an `Environment`, a `Secret`, a `SystemControl` or a `PlacementConstraint`. */
  datatype NameValue = NameValue(name: string, value: string)

  datatype PortMapping = PortMapping(containerPort: int, hostPort: Option<int>, protocol: Option<string>)

  datatype LogConfiguration = LogConfiguration(logDriver: string, options: Dict<string>)

  datatype HealthCheck = HealthCheck(command: seq<string>, startPeriod: Option<int>, retries: Option<int>,
                                     interval: Option<int>, timeout: Option<int>)

  /** A troposphere `ContainerDefinition`; `None` stands for a property that is not set. */
  datatype ContainerDefinition = ContainerDefinition(
    name: string,
    image: string,
    /** The string `'true'` for the service's container, the boolean `False` for a sidecar. */
    essential: Json,
    logConfiguration: LogConfiguration,
    memoryReservation: int,
    cpu: Option<int>,
    environment: seq<NameValue>,
    secrets: Option<seq<NameValue>>,
    command: Option<seq<string>>,
    stopTimeout: Option<int>,
    systemControls: Option<seq<NameValue>>,
    portMappings: Option<seq<PortMapping>>,
    healthCheck: Option<HealthCheck>,
    links: Option<seq<string>>,
    dockerLabels: Option<Dict<string>>)

  /** A troposphere `TaskDefinition` resource: its logical name and its properties. */
  datatype TaskDefinition = TaskDefinition(
    resourceName: string,
    family: string,
    containerDefinitions: seq<ContainerDefinition>,
    placementConstraints: Option<seq<NameValue>>,
    taskRoleArn: Option<string>,
    executionRoleArn: Option<string>,
    networkMode: Option<string>)

  /**
   * The configuration of each container, keyed by container name, as `build_config`'s caller
   * passes it: a dict whose `environment` and `secrets` entries map names to values.
   */
  type ContainerConfigurations = map<string, Dict<Dict<string>>>

  /** What `container_name(None)` raises: `None + "Container"`. */
  const NoneNameError := TypeError("unsupported operand type(s) for +: 'NoneType' and 'str'")

  /** What `int(None)` raises. */
  const NoneIntError := TypeError("int() argument must be a string, a bytes-like object or a real number, not 'NoneType'")

  // ---------------------------------------------------------------------------
  // The parts of build_template_resource
  // ---------------------------------------------------------------------------

  /** `_gen_log_config()`: the environment's log group unless the configuration names one. */
  function LogConfig(builder: Builder): (r: LogConfiguration)
    ensures r.logDriver == "awslogs" && |r.options| == 3
  {
    var group := match builder.configuration.logGroup
      case Some(g) => g
      case None => builder.environment + "-" + "logs";
    LogConfiguration("awslogs", [
      Entry("awslogs-stream-prefix", builder.serviceName),
      Entry("awslogs-group", group),
      Entry("awslogs-region", builder.region)])
  }

  /** The log configuration: `awslogs`, prefixed by the service name, in the builder's region. */
  lemma LogConfigOptions(builder: Builder)
    ensures var r := LogConfig(builder);
            r.logDriver == "awslogs" &&
            Lookup(r.options, "awslogs-stream-prefix") == Some(builder.serviceName) &&
            Lookup(r.options, "awslogs-region") == Some(builder.region) &&
            (builder.configuration.logGroup.Some? ==> Lookup(r.options, "awslogs-group") == builder.configuration.logGroup) &&
            (builder.configuration.logGroup.None? ==> Lookup(r.options, "awslogs-group") == Some(builder.environment + "-logs")) &&
            Keys(r.options) == {"awslogs-stream-prefix", "awslogs-group", "awslogs-region"}
  {
    var options := LogConfig(builder).options;
    assert builder.environment + "-" + "logs" == builder.environment + "-logs";
    assert options[1..][1..] == [options[2]];
    assert Lookup(options[1..][1..], "awslogs-region") == Some(builder.region);
    assert Lookup(options[1..], "awslogs-group") == Some(options[1].value);
    assert Keys(options) == {options[0].key, options[1].key, options[2].key} by {
      forall k | k in Keys(options) ensures k in {options[0].key, options[1].key, options[2].key} {
        var i :| 0 <= i < 3 && options[i].key == k;
      }
      assert options[0].key in Keys(options) && options[1].key in Keys(options) && options[2].key in Keys(options);
    }
  }

  /** `container_configuration.get(section, {})`. */
  function Section(containerConfiguration: Dict<Dict<string>>, section: string): Dict<string> {
    match Lookup(containerConfiguration, section)
    case Some(d) => d
    case None => []
  }

  /** `[Environment(Name=name, Value=d[name]) for name in d]`, and likewise for secrets. */
  function Pairs(d: Dict<string>): (r: seq<NameValue>)
    ensures |r| == |d| && forall i :: 0 <= i < |d| ==> r[i] == NameValue(d[i].key, d[i].value)
  {
    seq(|d|, i requires 0 <= i < |d| => NameValue(d[i].key, d[i].value))
  }

  /** The placement constraints: each reads its `type`, then its `expression`. */
  function PlacementConstraints(constraints: seq<PlacementConstraintConfig>): (r: Result<seq<NameValue>, Exception>)
    ensures r.Ok? <==> forall i :: 0 <= i < |constraints| ==>
                          constraints[i].constraintType.Some? && constraints[i].expression.Some?
    ensures r.Err? ==> r.error == KeyError("type") || r.error == KeyError("expression")
    ensures r.Ok? ==> |r.value| == |constraints| &&
                      forall i :: 0 <= i < |constraints| ==>
                        r.value[i] == NameValue(constraints[i].constraintType.value, constraints[i].expression.value)
  {
    if constraints == [] then Ok([])
    else match (constraints[0].constraintType, constraints[0].expression)
      case (None, _) => Err(KeyError("type"))
      case (_, None) => Err(KeyError("expression"))
      case (Some(constraintType), Some(expression)) =>
        var rest := PlacementConstraints(constraints[1..]);
        assert forall i :: 0 < i < |constraints| ==> constraints[i] == constraints[1..][i - 1];
        if rest.Err? then rest else Ok([NameValue(constraintType, expression)] + rest.value)
  }

  /** The system controls: each needs a `namespace` and then a `value`. */
  function SystemControls(controls: seq<SystemControlConfig>): (r: Result<seq<NameValue>, Exception>)
    ensures r.Ok? <==> forall i :: 0 <= i < |controls| ==> controls[i].namespace.Some? && controls[i].value.Some?
    ensures r.Err? ==> r.error == KeyError("namespace") || r.error == KeyError("value")
    ensures r.Ok? ==> |r.value| == |controls| &&
                      forall i :: 0 <= i < |controls| ==>
                        r.value[i] == NameValue(controls[i].namespace.value, controls[i].value.value)
  {
    if controls == [] then Ok([])
    else match (controls[0].namespace, controls[0].value)
      case (None, _) => Err(KeyError("namespace"))
      case (_, None) => Err(KeyError("value"))
      case (Some(namespace), Some(value)) =>
        var rest := SystemControls(controls[1..]);
        assert forall i :: 0 < i < |controls| ==> controls[i] == controls[1..][i - 1];
        if rest.Err? then rest else Ok([NameValue(namespace, value)] + rest.value)
  }

  /** The container's system controls, when the configuration has them. */
  function SystemControlsSetting(config: ServiceConfig): Result<Option<seq<NameValue>>, Exception> {
    if config.systemControls.None? then Ok(None)
    else match SystemControls(config.systemControls.value)
      case Err(e) => Err(e)
      case Ok(controls) => Ok(Some(controls))
  }

  /** The ports that the interface the builder maps (the first of HTTP, UDP and TCP) reads are all present. */
  predicate PortsPresent(config: ServiceConfig) {
    if config.httpInterface.Some? then config.httpInterface.value.containerPort.Some?
    else if config.udpInterface.Some? then
      config.udpInterface.value.containerPort.Some? && config.udpInterface.value.healthCheckPort.Some?
    else if config.tcpInterface.Some? then config.tcpInterface.value.containerPort.Some?
    else true
  }

  /** The port mappings, by precedence: HTTP, then UDP, then TCP; a port the interface lacks raises. */
  function PortMappings(config: ServiceConfig): (r: Result<Option<seq<PortMapping>>, Exception>)
    ensures r.Ok? <==> PortsPresent(config)
    ensures r.Err? ==> r.error == KeyError("container_port") || r.error == KeyError("health_check_port")
    ensures r.Ok? ==> (r.value.Some? <==> config.httpInterface.Some? || config.udpInterface.Some? || config.tcpInterface.Some?)
  {
    if config.httpInterface.Some? then
      match config.httpInterface.value.containerPort
      case None => Err(KeyError("container_port"))
      case Some(port) => Ok(Some([PortMapping(port, None, None)]))
    else if config.udpInterface.Some? then
      match (config.udpInterface.value.containerPort, config.udpInterface.value.healthCheckPort)
      case (None, _) => Err(KeyError("container_port"))
      case (_, None) => Err(KeyError("health_check_port"))
      case (Some(port), Some(healthCheckPort)) =>
        Ok(Some([PortMapping(port, Some(port), Some("udp")),
                 PortMapping(healthCheckPort, Some(healthCheckPort), Some("tcp"))]))
    else if config.tcpInterface.Some? then
      match config.tcpInterface.value.containerPort
      case None => Err(KeyError("container_port"))
      case Some(port) => Ok(Some([PortMapping(port, None, Some("tcp"))]))
    else Ok(None)
  }

  /** The container health check: a shell command, and the timings that are configured. */
  function HealthCheckOf(check: HealthCheckConfig): Result<HealthCheck, Exception> {
    match check.command
    case None => Err(KeyError("command"))
    case Some(command) => Ok(HealthCheck(["CMD-SHELL", command], check.startPeriod, check.retries, check.interval, check.timeout))
  }

  /** The container's health check, when the configuration has one. */
  function HealthCheckSetting(config: ServiceConfig): Result<Option<HealthCheck>, Exception> {
    if config.containerHealthCheck.None? then Ok(None)
    else match HealthCheckOf(config.containerHealthCheck.value)
      case Err(e) => Err(e)
      case Ok(check) => Ok(Some(check))
  }

  /** A link to a sidecar: `<name>Container:<name>`. */
  function Link(name: string): string {
    ContainerName(name) + ":" + name
  }

  /**
   * `(k, v) = key` for one key of a sidecar's configuration: a string unpacks into two names only
   * when it has exactly two characters.
   */
  function UnpackKey(key: string): (r: Result<NameValue, Exception>)
    ensures r.Ok? <==> |key| == 2
    ensures r.Ok? ==> r.value.name + r.value.value == key
    ensures r.Err? ==> r.error.ValueError?
  {
    if |key| == 2 then
      assert key == [key[0]] + [key[1]];
      Ok(NameValue([key[0]], [key[1]]))
    else if |key| > 2 then Err(ValueError("too many values to unpack (expected 2)"))
    else Err(ValueError("not enough values to unpack (expected 2, got " + NatToString(|key|) + ")"))
  }

  /** A sidecar's `Environment`: one entry per key of its container configuration, unpacked. */
  function SidecarEnvironment(containerConfiguration: Dict<Dict<string>>): (r: Result<seq<NameValue>, Exception>)
    ensures r.Ok? <==> forall i :: 0 <= i < |containerConfiguration| ==> |containerConfiguration[i].key| == 2
    ensures r.Ok? ==> |r.value| == |containerConfiguration|
    ensures r.Err? ==> r.error.ValueError?
  {
    if containerConfiguration == [] then Ok([])
    else match UnpackKey(containerConfiguration[0].key)
      case Err(e) => Err(e)
      case Ok(pair) =>
        var rest := SidecarEnvironment(containerConfiguration[1..]);
        assert forall i :: 0 < i < |containerConfiguration| ==> containerConfiguration[i] == containerConfiguration[1..][i - 1];
        if rest.Err? then rest else Ok([pair] + rest.value)
  }

  /** The configuration of a container, or an empty one: `container_configurations.get(name, {})`. */
  function ConfigurationOf(containerConfigurations: ContainerConfigurations, name: string): Dict<Dict<string>> {
    if name in containerConfigurations then containerConfigurations[name] else []
  }

  /**
   * `_gen_container_definitions_for_sidecar(sidecar, log_config, env_config)`: its name, its
   * environment and its memory reservation are evaluated in that order, and the first that fails raises.
   */
  function SidecarDefinition(sidecar: SidecarConfig, log: LogConfiguration, containerConfiguration: Dict<Dict<string>>)
    : (r: Result<ContainerDefinition, Exception>)
    ensures r.Ok? <==> sidecar.name.Some? && sidecar.memoryReservation.Some? &&
                       forall j :: 0 <= j < |containerConfiguration| ==> |containerConfiguration[j].key| == 2
    ensures r.Err? ==> r.error == NoneNameError || r.error == NoneIntError || r.error.ValueError?
  {
    if sidecar.name.None? then Err(NoneNameError)
    else match SidecarEnvironment(containerConfiguration)
      case Err(e) => Err(e)
      case Ok(environment) =>
        if sidecar.memoryReservation.None? then Err(NoneIntError)
        else Ok(ContainerDefinition(ContainerName(sidecar.name.value), sidecar.image, JBool(false), log,
                                    sidecar.memoryReservation.value, None, environment, None, sidecar.command,
                                    None, None, None, None, None, None))
  }

  /**
   * One turn of the sidecar loop: the sidecar's container configuration is looked up under its
   * container name, which raises for a sidecar without a name, and its definition built from it.
   */
  function SidecarStep(sidecar: SidecarConfig, log: LogConfiguration, containerConfigurations: ContainerConfigurations)
    : Result<ContainerDefinition, Exception>
  {
    if sidecar.name.None? then Err(NoneNameError)
    else SidecarDefinition(sidecar, log, ConfigurationOf(containerConfigurations, ContainerName(sidecar.name.value)))
  }

  /** The definitions of the sidecars `sidecars[..n]`, in order; the first failing one fails them all. */
  function SidecarDefinitions(sidecars: seq<SidecarConfig>, n: nat, log: LogConfiguration,
                              containerConfigurations: ContainerConfigurations): Result<seq<ContainerDefinition>, Exception>
    requires n <= |sidecars|
  {
    if n == 0 then Ok([])
    else match SidecarDefinitions(sidecars, n - 1, log, containerConfigurations)
      case Err(e) => Err(e)
      case Ok(before) =>
        match SidecarStep(sidecars[n - 1], log, containerConfigurations)
        case Err(e) => Err(e)
        case Ok(definition) => Ok(before + [definition])
  }

  /** Once a sidecar's definition fails, the definitions of all the sidecars fail with its error. */
  lemma {:induction false} SidecarFailurePersists(sidecars: seq<SidecarConfig>, i: nat, n: nat, log: LogConfiguration,
                                                  containerConfigurations: ContainerConfigurations)
    requires i <= n <= |sidecars|
    requires SidecarDefinitions(sidecars, i, log, containerConfigurations).Err?
    ensures SidecarDefinitions(sidecars, n, log, containerConfigurations) == SidecarDefinitions(sidecars, i, log, containerConfigurations)
    decreases n
  {
    if n > i {
      SidecarFailurePersists(sidecars, i, n - 1, log, containerConfigurations);
    }
  }

  /** The links of the service's container, one per sidecar, in order; a sidecar without a name raises. */
  function Links(sidecars: seq<SidecarConfig>): (r: Result<seq<string>, Exception>)
    ensures r.Ok? <==> forall i :: 0 <= i < |sidecars| ==> sidecars[i].name.Some?
    ensures r.Err? ==> r.error == NoneNameError
    ensures r.Ok? ==> |r.value| == |sidecars| && forall i :: 0 <= i < |sidecars| ==> r.value[i] == Link(sidecars[i].name.value)
  {
    if forall i :: 0 <= i < |sidecars| ==> sidecars[i].name.Some? then
      Ok(seq(|sidecars|, i requires 0 <= i < |sidecars| => Link(sidecars[i].name.value)))
    else Err(NoneNameError)
  }

  /** The container's links, when the configuration has sidecars. */
  function LinksSetting(config: ServiceConfig): Result<Option<seq<string>>, Exception> {
    if config.sidecars.None? then Ok(None)
    else match Links(config.sidecars.value)
      case Err(e) => Err(e)
      case Ok(links) => Ok(Some(links))
  }

  /**
   * The service's own container without its links: the keys it reads, in the order the builder
   * reads them, and the first that is missing raises.
   */
  function MainContainerBase(builder: Builder, containerConfigurations: ContainerConfigurations, ecrImageUri: string,
                             log: LogConfiguration): (r: Result<ContainerDefinition, Exception>)
    ensures r.Ok? ==> r.value.name == ContainerName(builder.serviceName) && r.value.image == ecrImageUri &&
                      r.value.essential == JStr("true") && r.value.links.None?
  {
    var config := builder.configuration;
    var name := ContainerName(builder.serviceName);
    if name !in containerConfigurations then Err(KeyError(name))
    else if config.memoryReservation.None? then Err(KeyError("memory_reservation"))
    else if config.command.None? then Err(KeyError("command"))
    else match SystemControlsSetting(config)
      case Err(e) => Err(e)
      case Ok(controls) =>
        match PortMappings(config)
        case Err(e) => Err(e)
        case Ok(ports) =>
          match HealthCheckSetting(config)
          case Err(e) => Err(e)
          case Ok(healthCheck) =>
            var containerConfiguration := containerConfigurations[name];
            Ok(ContainerDefinition(
              name, ecrImageUri, JStr("true"), log, config.memoryReservation.value, Some(0),
              Pairs(Section(containerConfiguration, "environment")),
              Some(Pairs(Section(containerConfiguration, "secrets"))),
              if config.command.value.Some? then Some([config.command.value.value]) else None,
              config.stopTimeout, controls, ports, healthCheck, None, config.containerLabels))
  }

  /** The service's own container: its settings, then its links to the sidecars. */
  function MainContainer(builder: Builder, containerConfigurations: ContainerConfigurations, ecrImageUri: string,
                         log: LogConfiguration): (r: Result<ContainerDefinition, Exception>)
    ensures r.Ok? ==> r.value.name == ContainerName(builder.serviceName) && r.value.image == ecrImageUri &&
                      r.value.essential == JStr("true") && (r.value.links.Some? <==> builder.configuration.sidecars.Some?)
  {
    match MainContainerBase(builder, containerConfigurations, ecrImageUri, log)
    case Err(e) => Err(e)
    case Ok(base) =>
      match LinksSetting(builder.configuration)
      case Err(e) => Err(e)
      case Ok(links) => Ok(base.(links := links))
  }

  /** The sidecars of a configuration; none when the key is absent. */
  function Sidecars(config: ServiceConfig): seq<SidecarConfig> {
    if config.sidecars.Some? then config.sidecars.value else []
  }

  /** What `build_template_resource(container_configurations, ecr_image_uri)` returns or raises. */
  function TemplateResource(builder: Builder, containerConfigurations: ContainerConfigurations, ecrImageUri: string)
    : (r: Result<TaskDefinition, Exception>)
    ensures r.Ok? ==>
              var defs := r.value.containerDefinitions;
              |defs| == 1 + |Sidecars(builder.configuration)| && defs[0].essential == JStr("true") &&
              forall i :: 1 <= i < |defs| ==> defs[i].essential == JBool(false)
  {
    var config := builder.configuration;
    var constraints := if config.placementConstraints.Some? then PlacementConstraints(config.placementConstraints.value) else Ok([]);
    if constraints.Err? then Err(constraints.error)
    else
      var log := LogConfig(builder);
      match MainContainer(builder, containerConfigurations, ecrImageUri, log)
      case Err(e) => Err(e)
      case Ok(main) =>
        var sidecars := Sidecars(config);
        match SidecarDefinitions(sidecars, |sidecars|, log, containerConfigurations)
        case Err(e) => Err(e)
        case Ok(definitions) =>
          SidecarDefinitionsNamed(sidecars, log, containerConfigurations, definitions);
          Ok(TaskDefinition(
            ResourceName(builder.serviceName),
            FamilyName(builder.environment, builder.serviceName),
            [main] + definitions,
            if config.placementConstraints.Some? then Some(constraints.value) else None,
            config.taskRoleArn,
            config.taskExecutionRoleArn,
            if config.udpInterface.Some? || config.tcpInterface.Some? then Some("awsvpc") else None))
  }

  /** The loop building the links of the service's container, raising at the first sidecar without a name. */
  method BuildLinks(sidecars: seq<SidecarConfig>) returns (r: Result<seq<string>, Exception>)
    ensures r == Links(sidecars)
  {
    var links: seq<string> := [];
    for i := 0 to |sidecars|
      invariant forall j :: 0 <= j < i ==> sidecars[j].name.Some?
      invariant |links| == i && forall j :: 0 <= j < i ==> links[j] == Link(sidecars[j].name.value)
    {
      if sidecars[i].name.None? {
        return Err(NoneNameError);
      }
      links := links + [Link(sidecars[i].name.value)];
    }
    assert links == Links(sidecars).value;
    return Ok(links);
  }

  /** The loop building the sidecars' definitions, stopping at the first that raises. */
  method BuildSidecarDefinitions(sidecars: seq<SidecarConfig>, log: LogConfiguration,
                                 containerConfigurations: ContainerConfigurations)
    returns (r: Result<seq<ContainerDefinition>, Exception>)
    ensures r == SidecarDefinitions(sidecars, |sidecars|, log, containerConfigurations)
  {
    var definitions: seq<ContainerDefinition> := [];
    for i := 0 to |sidecars|
      invariant SidecarDefinitions(sidecars, i, log, containerConfigurations) == Ok(definitions)
    {
      var definition := SidecarStep(sidecars[i], log, containerConfigurations);
      if definition.Err? {
        SidecarFailurePersists(sidecars, i + 1, |sidecars|, log, containerConfigurations);
        return Err(definition.error);
      }
      definitions := definitions + [definition.value];
    }
    return Ok(definitions);
  }

  /** `build_template_resource(container_configurations, ecr_image_uri)`. */
  method BuildTemplateResource(builder: Builder, containerConfigurations: ContainerConfigurations, ecrImageUri: string)
    returns (r: Result<TaskDefinition, Exception>)
    ensures r == TemplateResource(builder, containerConfigurations, ecrImageUri)
  {
    var config := builder.configuration;
    var placementConstraints: Option<seq<NameValue>> := None;
    if config.placementConstraints.Some? {
      var constraints := PlacementConstraints(config.placementConstraints.value);
      if constraints.Err? {
        return Err(constraints.error);
      }
      placementConstraints := Some(constraints.value);
    }
    var networkMode: Option<string> := None;
    if config.udpInterface.Some? || config.tcpInterface.Some? {
      networkMode := Some("awsvpc");
    }
    var log := LogConfig(builder);
    var base := MainContainerBase(builder, containerConfigurations, ecrImageUri, log);
    if base.Err? {
      return Err(base.error);
    }
    var main := base.value;
    if config.sidecars.Some? {
      var links := BuildLinks(config.sidecars.value);
      if links.Err? {
        return Err(links.error);
      }
      main := main.(links := Some(links.value));
    }
    var definitions := BuildSidecarDefinitions(Sidecars(config), log, containerConfigurations);
    if definitions.Err? {
      return Err(definitions.error);
    }
    return Ok(TaskDefinition(ResourceName(builder.serviceName), FamilyName(builder.environment, builder.serviceName),
                             [main] + definitions.value, placementConstraints, config.taskRoleArn,
                             config.taskExecutionRoleArn, networkMode));
  }

  // ---------------------------------------------------------------------------
  // What a task definition holds
  // ---------------------------------------------------------------------------

  /** A sidecar has a name, its configuration's keys unpack into two names each, and it has a memory reservation. */
  predicate SidecarReady(containerConfigurations: ContainerConfigurations, sidecar: SidecarConfig) {
    && sidecar.name.Some?
    && (var containerConfiguration := ConfigurationOf(containerConfigurations, ContainerName(sidecar.name.value));
        forall j :: 0 <= j < |containerConfiguration| ==> |containerConfiguration[j].key| == 2)
    && sidecar.memoryReservation.Some?
  }

  /**
   * The sidecars' definitions succeed exactly when every sidecar is ready; otherwise the error is the
   * `TypeError` of a missing name or memory reservation, or the `ValueError` of a key that does not unpack.
   */
  lemma {:induction false} SidecarDefinitionsOkIff(sidecars: seq<SidecarConfig>, n: nat, log: LogConfiguration,
                                                   containerConfigurations: ContainerConfigurations)
    requires n <= |sidecars|
    ensures var r := SidecarDefinitions(sidecars, n, log, containerConfigurations);
            (r.Ok? <==> forall i :: 0 <= i < n ==> SidecarReady(containerConfigurations, sidecars[i])) &&
            (r.Err? ==> r.error == NoneNameError || r.error == NoneIntError || r.error.ValueError?)
  {
    if n > 0 {
      SidecarDefinitionsOkIff(sidecars, n - 1, log, containerConfigurations);
    }
  }

  /** The sidecars' definitions, when they succeed: one per sidecar, in order. */
  lemma {:induction false} SidecarDefinitionsEach(sidecars: seq<SidecarConfig>, n: nat, log: LogConfiguration,
                                                  containerConfigurations: ContainerConfigurations)
    requires n <= |sidecars|
    requires SidecarDefinitions(sidecars, n, log, containerConfigurations).Ok?
    ensures var r := SidecarDefinitions(sidecars, n, log, containerConfigurations).value;
            |r| == n && forall i :: 0 <= i < n ==> SidecarStep(sidecars[i], log, containerConfigurations) == Ok(r[i])
  {
    if n > 0 {
      SidecarDefinitionsEach(sidecars, n - 1, log, containerConfigurations);
    }
  }

  /**
   * A sidecar's definition: it has a name and a memory reservation, and its container is named
   * after it, not essential, with its image, memory, command and the shared log configuration.
   */
  lemma SidecarDefinitionFields(sidecar: SidecarConfig, log: LogConfiguration, containerConfiguration: Dict<Dict<string>>)
    requires SidecarDefinition(sidecar, log, containerConfiguration).Ok?
    ensures var d := SidecarDefinition(sidecar, log, containerConfiguration).value;
            sidecar.name.Some? && sidecar.memoryReservation.Some? &&
            d.name == sidecar.name.value + "Container" && d.image == sidecar.image && d.essential == JBool(false) &&
            d.logConfiguration == log && d.memoryReservation == sidecar.memoryReservation.value && d.command == sidecar.command &&
            |d.environment| == |containerConfiguration| && d.cpu.None? && d.secrets.None? && d.links.None?
  {
  }

  /** The parts a built task definition is assembled from. */
  lemma TemplateResourceParts(builder: Builder, containerConfigurations: ContainerConfigurations, ecrImageUri: string)
    requires TemplateResource(builder, containerConfigurations, ecrImageUri).Ok?
    ensures var config := builder.configuration;
            var log := LogConfig(builder);
            var main := MainContainer(builder, containerConfigurations, ecrImageUri, log);
            var sidecars := SidecarDefinitions(Sidecars(config), |Sidecars(config)|, log, containerConfigurations);
            var t := TemplateResource(builder, containerConfigurations, ecrImageUri).value;
            main.Ok? && sidecars.Ok? && t.containerDefinitions == [main.value] + sidecars.value &&
            t.resourceName == ResourceName(builder.serviceName) && t.family == FamilyName(builder.environment, builder.serviceName) &&
            t.taskRoleArn == config.taskRoleArn && t.executionRoleArn == config.taskExecutionRoleArn &&
            t.networkMode == (if config.udpInterface.Some? || config.tcpInterface.Some? then Some("awsvpc") else None) &&
            (t.placementConstraints.Some? <==> config.placementConstraints.Some?)
  {
  }

  /**
   * Building the task definition succeeds exactly when no key it reads is missing, no sidecar lacks
   * a name or a memory reservation, and no sidecar key fails to unpack.
   */
  lemma TemplateResourceOkIff(builder: Builder, containerConfigurations: ContainerConfigurations, ecrImageUri: string)
    ensures var config := builder.configuration;
            TemplateResource(builder, containerConfigurations, ecrImageUri).Ok? <==>
              (config.placementConstraints.Some? ==>
                 forall i :: 0 <= i < |config.placementConstraints.value| ==>
                   config.placementConstraints.value[i].constraintType.Some? && config.placementConstraints.value[i].expression.Some?) &&
              ContainerName(builder.serviceName) in containerConfigurations &&
              config.memoryReservation.Some? && config.command.Some? &&
              (config.systemControls.Some? ==>
                 forall i :: 0 <= i < |config.systemControls.value| ==>
                   config.systemControls.value[i].namespace.Some? && config.systemControls.value[i].value.Some?) &&
              PortsPresent(config) &&
              (config.containerHealthCheck.Some? ==> config.containerHealthCheck.value.command.Some?) &&
              forall i :: 0 <= i < |Sidecars(config)| ==> SidecarReady(containerConfigurations, Sidecars(config)[i])
  {
    var config := builder.configuration;
    var sidecars := Sidecars(config);
    SidecarDefinitionsOkIff(sidecars, |sidecars|, LogConfig(builder), containerConfigurations);
  }

  /**
   * The error raised is that of the first key that is missing, in the order the builder reads them:
   * the placement constraints, the service's container configuration, the memory reservation and
   * the command, then the system controls, the port mappings, the health check and the sidecars'
   * links.
   */
  lemma TemplateResourceFirstError(builder: Builder, containerConfigurations: ContainerConfigurations, ecrImageUri: string)
    ensures var config := builder.configuration;
            var r := TemplateResource(builder, containerConfigurations, ecrImageUri);
            var name := ContainerName(builder.serviceName);
            var constraints := PlacementConstraints(if config.placementConstraints.Some? then config.placementConstraints.value else []);
            (constraints.Err? ==> r == Err(constraints.error)) &&
            (constraints.Ok? ==>
               (name !in containerConfigurations ==> r == Err(KeyError(name))) &&
               (name in containerConfigurations && config.memoryReservation.None? ==> r == Err(KeyError("memory_reservation"))) &&
               (name in containerConfigurations && config.memoryReservation.Some? && config.command.None? ==>
                  r == Err(KeyError("command"))) &&
               (name in containerConfigurations && config.memoryReservation.Some? && config.command.Some? ==>
                  (SystemControlsSetting(config).Err? ==> r == Err(SystemControlsSetting(config).error)) &&
                  (SystemControlsSetting(config).Ok? && PortMappings(config).Err? ==> r == Err(PortMappings(config).error)) &&
                  (SystemControlsSetting(config).Ok? && PortMappings(config).Ok? && HealthCheckSetting(config).Err? ==>
                     r == Err(KeyError("command"))) &&
                  (SystemControlsSetting(config).Ok? && PortMappings(config).Ok? && HealthCheckSetting(config).Ok? ==>
                     (LinksSetting(config).Err? ==> r == Err(NoneNameError)))))
  {
  }

  /** Every error building raises is a `KeyError`, the `ValueError` of unpacking, or the `TypeError` of a missing sidecar name or memory reservation. */
  lemma TemplateResourceErrors(builder: Builder, containerConfigurations: ContainerConfigurations, ecrImageUri: string)
    ensures var r := TemplateResource(builder, containerConfigurations, ecrImageUri);
            r.Err? ==> r.error.KeyError? || r.error.ValueError? || r.error == NoneNameError || r.error == NoneIntError
  {
    var config := builder.configuration;
    var sidecars := Sidecars(config);
    SidecarDefinitionsOkIff(sidecars, |sidecars|, LogConfig(builder), containerConfigurations);
  }

  /**
   * A task definition built: its resource name and family, its roles and placement constraints as
   * configured, and `awsvpc` networking exactly for a UDP or TCP interface.
   */
  lemma TemplateResourceLayout(builder: Builder, containerConfigurations: ContainerConfigurations, ecrImageUri: string)
    requires TemplateResource(builder, containerConfigurations, ecrImageUri).Ok?
    ensures var config := builder.configuration;
            var t := TemplateResource(builder, containerConfigurations, ecrImageUri).value;
            t.resourceName == builder.serviceName + "TaskDefinition" &&
            t.family == Truncate(builder.environment + builder.serviceName + "Family", 255) &&
            (t.networkMode == Some("awsvpc") <==> config.udpInterface.Some? || config.tcpInterface.Some?) &&
            (t.networkMode.Some? ==> t.networkMode == Some("awsvpc")) &&
            t.taskRoleArn == config.taskRoleArn && t.executionRoleArn == config.taskExecutionRoleArn &&
            (t.placementConstraints.Some? <==> config.placementConstraints.Some?)
  {
    TemplateResourceParts(builder, containerConfigurations, ecrImageUri);
  }

  /**
   * The containers of a built task definition: the service's own first (essential, no CPU units, the
   * image given, its memory reservation), then one per sidecar.
   */
  lemma MainContainerFirst(builder: Builder, containerConfigurations: ContainerConfigurations, ecrImageUri: string)
    requires TemplateResource(builder, containerConfigurations, ecrImageUri).Ok?
    ensures var config := builder.configuration;
            var defs := TemplateResource(builder, containerConfigurations, ecrImageUri).value.containerDefinitions;
            |defs| == 1 + |Sidecars(config)| &&
            defs[0].name == builder.serviceName + "Container" && defs[0].image == ecrImageUri &&
            defs[0].essential == JStr("true") && defs[0].cpu == Some(0) &&
            config.memoryReservation.Some? &&
            defs[0].memoryReservation == config.memoryReservation.value && defs[0].logConfiguration == LogConfig(builder)
  {
    var config := builder.configuration;
    var sidecars := Sidecars(config);
    var log := LogConfig(builder);
    TemplateResourceParts(builder, containerConfigurations, ecrImageUri);
    MainContainerSettings(builder, containerConfigurations, ecrImageUri, log);
    SidecarDefinitionsEach(sidecars, |sidecars|, log, containerConfigurations);
  }

  /** The sidecars' definitions, when they succeed: named after their sidecars, not essential, all logging alike. */
  lemma SidecarDefinitionsNamed(sidecars: seq<SidecarConfig>, log: LogConfiguration,
                                containerConfigurations: ContainerConfigurations, definitions: seq<ContainerDefinition>)
    requires SidecarDefinitions(sidecars, |sidecars|, log, containerConfigurations) == Ok(definitions)
    ensures |definitions| == |sidecars| &&
            forall i :: 0 <= i < |sidecars| ==>
              sidecars[i].name.Some? &&
              definitions[i].name == sidecars[i].name.value + "Container" && definitions[i].essential == JBool(false) &&
              definitions[i].image == sidecars[i].image && definitions[i].logConfiguration == log
  {
    SidecarDefinitionsEach(sidecars, |sidecars|, log, containerConfigurations);
    forall i | 0 <= i < |sidecars|
      ensures sidecars[i].name.Some? &&
              definitions[i].name == sidecars[i].name.value + "Container" && definitions[i].essential == JBool(false) &&
              definitions[i].image == sidecars[i].image && definitions[i].logConfiguration == log
    {
      assert SidecarStep(sidecars[i], log, containerConfigurations) == Ok(definitions[i]);
      SidecarDefinitionFields(sidecars[i], log, ConfigurationOf(containerConfigurations, ContainerName(sidecars[i].name.value)));
    }
  }

  /** After the service's container come the sidecars', in order, none of them essential, all logging alike. */
  lemma SidecarsFollow(builder: Builder, containerConfigurations: ContainerConfigurations, ecrImageUri: string,
                       t: TaskDefinition)
    requires TemplateResource(builder, containerConfigurations, ecrImageUri) == Ok(t)
    ensures var sidecars := Sidecars(builder.configuration);
            |t.containerDefinitions| == 1 + |sidecars| &&
            forall i :: 0 <= i < |sidecars| ==>
              sidecars[i].name.Some? &&
              t.containerDefinitions[i + 1].name == sidecars[i].name.value + "Container" &&
              t.containerDefinitions[i + 1].essential == JBool(false) &&
              t.containerDefinitions[i + 1].image == sidecars[i].image &&
              t.containerDefinitions[i + 1].logConfiguration == LogConfig(builder)
  {
    var config := builder.configuration;
    var sidecars := Sidecars(config);
    var log := LogConfig(builder);
    TemplateResourceParts(builder, containerConfigurations, ecrImageUri);
    var main := MainContainer(builder, containerConfigurations, ecrImageUri, log).value;
    var rest := SidecarDefinitions(sidecars, |sidecars|, log, containerConfigurations).value;
    SidecarDefinitionsNamed(sidecars, log, containerConfigurations, rest);
    ConsShift(main, rest, t.containerDefinitions);
  }

  /** The elements after the head of a sequence built by putting one element in front. */
  lemma ConsShift(head: ContainerDefinition, rest: seq<ContainerDefinition>, all: seq<ContainerDefinition>)
    requires all == [head] + rest
    ensures |all| == 1 + |rest| && forall i :: 0 <= i < |rest| ==> all[i + 1] == rest[i]
  {
  }

  /**
   * The service's container: one environment entry and one secret per key of its configuration's
   * sections, in order (none when a section is absent); a command only when one is configured; the
   * optional settings exactly when configured.
   */
  lemma MainContainerSettings(builder: Builder, containerConfigurations: ContainerConfigurations, ecrImageUri: string,
                              log: LogConfiguration)
    requires MainContainer(builder, containerConfigurations, ecrImageUri, log).Ok?
    ensures var config := builder.configuration;
            var c := MainContainer(builder, containerConfigurations, ecrImageUri, log).value;
            var name := ContainerName(builder.serviceName);
            name in containerConfigurations && config.memoryReservation.Some? && config.command.Some? &&
            var containerConfiguration := containerConfigurations[name];
            var environment := Section(containerConfiguration, "environment");
            var secrets := Section(containerConfiguration, "secrets");
            c.name == builder.serviceName + "Container" && c.image == ecrImageUri && c.essential == JStr("true") &&
            c.cpu == Some(0) && c.memoryReservation == config.memoryReservation.value && c.logConfiguration == log &&
            (|c.environment| == |environment| &&
             forall i :: 0 <= i < |environment| ==> c.environment[i].name == environment[i].key && c.environment[i].value == environment[i].value) &&
            ("environment" !in Keys(containerConfiguration) ==> c.environment == []) &&
            (c.secrets.Some? && |c.secrets.value| == |secrets| &&
             forall i :: 0 <= i < |secrets| ==> c.secrets.value[i].name == secrets[i].key && c.secrets.value[i].value == secrets[i].value) &&
            ("secrets" !in Keys(containerConfiguration) ==> c.secrets == Some([])) &&
            (c.command.Some? <==> config.command.value.Some?) &&
            (c.command.Some? ==> c.command.value == [config.command.value.value]) &&
            c.stopTimeout == config.stopTimeout &&
            c.dockerLabels == config.containerLabels &&
            (c.systemControls.Some? <==> config.systemControls.Some?) &&
            (c.healthCheck.Some? <==> config.containerHealthCheck.Some?) &&
            (c.healthCheck.Some? ==>
               var h := config.containerHealthCheck.value;
               h.command.Some? &&
               c.healthCheck.value.command == ["CMD-SHELL", h.command.value] &&
               c.healthCheck.value.startPeriod == h.startPeriod && c.healthCheck.value.retries == h.retries &&
               c.healthCheck.value.interval == h.interval && c.healthCheck.value.timeout == h.timeout) &&
            (c.links.Some? <==> config.sidecars.Some?) &&
            (c.links.Some? ==> Links(config.sidecars.value) == Ok(c.links.value)) &&
            PortMappings(config) == Ok(c.portMappings)
  {
    var name := ContainerName(builder.serviceName);
    var containerConfiguration := containerConfigurations[name];
    assert Lookup(containerConfiguration, "environment").None? ==> Section(containerConfiguration, "environment") == [];
    assert Lookup(containerConfiguration, "secrets").None? ==> Section(containerConfiguration, "secrets") == [];
  }

  /** The links of a built task definition's service container: `<name>Container:<name>` per sidecar, in order. */
  lemma LinksOfSidecars(builder: Builder, containerConfigurations: ContainerConfigurations, ecrImageUri: string)
    requires TemplateResource(builder, containerConfigurations, ecrImageUri).Ok?
    ensures var config := builder.configuration;
            var c := TemplateResource(builder, containerConfigurations, ecrImageUri).value.containerDefinitions[0];
            (c.links.Some? <==> config.sidecars.Some?) &&
            (c.links.Some? ==>
               |c.links.value| == |config.sidecars.value| &&
               forall i :: 0 <= i < |config.sidecars.value| ==>
                 config.sidecars.value[i].name.Some? &&
                 c.links.value[i] == config.sidecars.value[i].name.value + "Container:" + config.sidecars.value[i].name.value)
  {
    TemplateResourceParts(builder, containerConfigurations, ecrImageUri);
    MainContainerSettings(builder, containerConfigurations, ecrImageUri, LogConfig(builder));
  }

  /**
   * Port mappings: an HTTP interface wins over UDP, which wins over TCP; a UDP interface maps its
   * port for UDP and its health check port for TCP, reading the port first; a host port, when set,
   * is the container port.
   */
  lemma PortMappingsPrecedence(config: ServiceConfig)
    ensures var m := PortMappings(config);
            (m.Ok? ==> (m.value.Some? <==> config.httpInterface.Some? || config.udpInterface.Some? || config.tcpInterface.Some?)) &&
            (m.Ok? && m.value.Some? ==> forall p :: p in m.value.value && p.hostPort.Some? ==> p.hostPort.value == p.containerPort) &&
            (config.httpInterface.Some? && config.httpInterface.value.containerPort.Some? ==>
               m == Ok(Some([PortMapping(config.httpInterface.value.containerPort.value, None, None)]))) &&
            (config.httpInterface.None? && config.udpInterface.Some? && config.udpInterface.value.containerPort.None? ==>
               m == Err(KeyError("container_port"))) &&
            (config.httpInterface.None? && config.udpInterface.Some? && m.Ok? ==>
               var udp := config.udpInterface.value;
               |m.value.value| == 2 &&
               m.value.value[0].containerPort == udp.containerPort.value && m.value.value[0].protocol == Some("udp") &&
               m.value.value[1].containerPort == udp.healthCheckPort.value && m.value.value[1].protocol == Some("tcp")) &&
            (config.httpInterface.None? && config.udpInterface.None? && config.tcpInterface.Some? &&
             config.tcpInterface.value.containerPort.Some? ==>
               m == Ok(Some([PortMapping(config.tcpInterface.value.containerPort.value, None, Some("tcp"))]))) &&
            (m.Ok? && m.value.Some? ==>
               ((exists p :: p in m.value.value && p.protocol == Some("udp")) <==> config.httpInterface.None? && config.udpInterface.Some?))
  {
    var m := PortMappings(config);
    if m.Ok? && m.value.Some? {
      var ports := m.value.value;
      if config.httpInterface.Some? {
        var only := PortMapping(config.httpInterface.value.containerPort.value, None, None);
        assert ports == [only];
        assert forall p :: p in ports ==> p == only;
      } else if config.udpInterface.Some? {
        assert ports[0] in ports;
      } else if config.tcpInterface.Some? {
        var only := PortMapping(config.tcpInterface.value.containerPort.value, None, Some("tcp"));
        assert ports == [only];
        assert forall p :: p in ports ==> p == only;
      }
    }
  }

  // The HTTP service of the builder's test: its configuration, containers and expected definitions.

  const HttpServiceConfig := ServiceConfig(
    Some([PlacementConstraintConfig(Some("memberOf"), Some("expr"))]), Some("arn2"), Some("arn1"),
    Some(HttpInterface(Some(9090))), None, None, Some(100), Some(Some("./start_script.sh")), Some(70),
    Some([SystemControlConfig(Some("net.core.somaxconn"), Some("1024"))]), None, None, None, None)
  const HttpServiceBuilder := Builder("test", "dummy", HttpServiceConfig, "region1")
  const HttpServiceContainer: Dict<Dict<string>> := [
    Entry("secrets", [Entry("CLOUDLIFT_INJECTED_SECRETS", "arn_injected_secrets")]),
    Entry("environment", [Entry("PORT", "80")])]
  const HttpServiceLog := LogConfiguration("awslogs", [
    Entry("awslogs-stream-prefix", "dummy"), Entry("awslogs-group", "test-logs"), Entry("awslogs-region", "region1")])
  const HttpServiceDefinition := ContainerDefinition(
    "dummyContainer", "nginx:default", JStr("true"), HttpServiceLog, 100, Some(0),
    [NameValue("PORT", "80")], Some([NameValue("CLOUDLIFT_INJECTED_SECRETS", "arn_injected_secrets")]),
    Some(["./start_script.sh"]), Some(70), Some([NameValue("net.core.somaxconn", "1024")]),
    Some([PortMapping(9090, None, None)]), None, None, None)

  /** The test's log configuration: the environment's log group. */
  lemma HttpServiceLogConfig()
    ensures LogConfig(HttpServiceBuilder) == HttpServiceLog
  {
    var options := LogConfig(HttpServiceBuilder).options;
    assert options[1].value == "test-logs";
    assert |options| == 3 && options[0] == HttpServiceLog.options[0] && options[1] == HttpServiceLog.options[1] &&
           options[2] == HttpServiceLog.options[2];
  }

  /** The test's service container: its environment and secret, command, stop timeout, system control and port. */
  lemma HttpServiceMainContainer()
    ensures MainContainer(HttpServiceBuilder, map["dummyContainer" := HttpServiceContainer], "nginx:default", HttpServiceLog) ==
            Ok(HttpServiceDefinition)
  {
    var containerConfiguration := HttpServiceContainer;
    assert Section(containerConfiguration, "environment") == [Entry("PORT", "80")] by {
      assert containerConfiguration[1..] == [Entry("environment", [Entry("PORT", "80")])];
    }
    assert Section(containerConfiguration, "secrets") == [Entry("CLOUDLIFT_INJECTED_SECRETS", "arn_injected_secrets")];
    assert Pairs([Entry("PORT", "80")]) == [NameValue("PORT", "80")];
    assert Pairs([Entry("CLOUDLIFT_INJECTED_SECRETS", "arn_injected_secrets")]) ==
           [NameValue("CLOUDLIFT_INJECTED_SECRETS", "arn_injected_secrets")];
    var controls := HttpServiceConfig.systemControls.value;
    assert controls[1..] == [];
    assert [NameValue("net.core.somaxconn", "1024")] + [] == [NameValue("net.core.somaxconn", "1024")];
    assert SystemControls(controls) == Ok([NameValue("net.core.somaxconn", "1024")]);
    assert SystemControlsSetting(HttpServiceConfig) == Ok(Some([NameValue("net.core.somaxconn", "1024")]));
    assert PortMappings(HttpServiceConfig) == Ok(Some([PortMapping(9090, None, None)]));
    assert HealthCheckSetting(HttpServiceConfig) == Ok(None);
    assert LinksSetting(HttpServiceConfig) == Ok(None);
    assert ContainerName("dummy") == "dummyContainer";
  }

  /** The builder's test for an HTTP service: the whole task definition it expects. */
  lemma HttpServiceExample()
    ensures TemplateResource(HttpServiceBuilder, map["dummyContainer" := HttpServiceContainer], "nginx:default") ==
            Ok(TaskDefinition("dummyTaskDefinition", "testdummyFamily", [HttpServiceDefinition],
                              Some([NameValue("memberOf", "expr")]), Some("arn2"), Some("arn1"), None))
  {
    var containers := map["dummyContainer" := HttpServiceContainer];
    HttpServiceLogConfig();
    HttpServiceMainContainer();
    var constraints := HttpServiceConfig.placementConstraints.value;
    assert constraints[1..] == [];
    assert [NameValue("memberOf", "expr")] + [] == [NameValue("memberOf", "expr")];
    assert PlacementConstraints(constraints) == Ok([NameValue("memberOf", "expr")]);
    assert SidecarDefinitions([], 0, HttpServiceLog, containers) == Ok([]);
    assert [HttpServiceDefinition] + [] == [HttpServiceDefinition];
    HttpServiceNames();
  }

  /** The test's family and resource names. */
  lemma HttpServiceNames()
    ensures FamilyName("test", "dummy") == "testdummyFamily"
    ensures ResourceName("dummy") == "dummyTaskDefinition"
  {
  }

  // ---------------------------------------------------------------------------
  // camelize_keys
  // ---------------------------------------------------------------------------

  /** `c.lower()` for a character, on the ASCII letters. */
  function LowerChar(c: char): (r: char)
    ensures 'A' <= c <= 'Z' ==> 'a' <= r <= 'z' && r as int - c as int == 32
    ensures !('A' <= c <= 'Z') ==> r == c
  {
    if 'A' <= c <= 'Z' then (c as int + 32) as char else c
  }

  /** `_camel_case(value)`: the first character lower-cased. */
  function CamelCase(value: string): string {
    if value == [] then [] else [LowerChar(value[0])] + value[1..]
  }

  /** Camel-casing changes at most the first character, and lower-cases it. */
  lemma CamelCaseFirstOnly(value: string)
    ensures |CamelCase(value)| == |value|
    ensures value == [] ==> CamelCase(value) == []
    ensures value != [] ==> CamelCase(value)[0] == LowerChar(value[0]) && CamelCase(value)[1..] == value[1..]
  {
  }

  /** Camel-casing twice is camel-casing once. */
  lemma CamelCaseIdempotent(value: string)
    ensures CamelCase(CamelCase(value)) == CamelCase(value)
  {
    if value != [] {
      assert CamelCase(value)[1..] == value[1..];
    }
  }

  /** What `camelize_keys(data)` returns: a dict with its keys camel-cased, anything else as it is. */
  function Camelized(data: Json): (r: Json)
    ensures r.JObject? <==> data.JObject?
    ensures !data.JObject? ==> r == data
    decreases data, 2
  {
    match data
    case JObject(fields) => JObject(FromEntries(Renamed(data)))
    case _ => data
  }

  /** The entries `camelize_keys`'s loop assigns in turn, one per entry of the dict. */
  function Renamed(data: Json): (r: seq<Entry<Json>>)
    requires data.JObject?
    ensures |r| == |data.fields|
    decreases data, 1
  {
    seq(|data.fields|, i requires 0 <= i < |data.fields| => RenamedAt(data, i))
  }

  /** The entry assigned for `data.fields[i]`: its key camel-cased, its value stored. */
  function RenamedAt(data: Json, i: nat): Entry<Json>
    requires data.JObject? && i < |data.fields|
    decreases data, 0
  {
    var e := data.fields[i];
    assert e in data.fields;
    Entry(CamelCase(e.key), ValueOf(e.value))
  }

  /** The value stored for a dict's entry: a dict camelized, a list's elements each camelized. */
  function ValueOf(value: Json): Json
    decreases value, 3
  {
    match value
    case JObject(_) => Camelized(value)
    case JArray(items) => JArray(seq(|items|, i requires 0 <= i < |items| => Camelized(items[i])))
    case _ => value
  }

  /** `camelize_keys(data)`. */
  method CamelizeKeys(data: Json) returns (r: Json)
    ensures r == Camelized(data)
    decreases data, 0
  {
    if !data.JObject? {
      return data;
    }
    ghost var renamed := Renamed(data);
    var result: Dict<Json> := [];
    for i := 0 to |data.fields|
      invariant result == AssignedUpTo(renamed, i)
    {
      var k, v := data.fields[i].key, data.fields[i].value;
      assert data.fields[i] in data.fields;
      assert renamed[i] == RenamedAt(data, i);
      var stored := StoreValue(v);
      result := Assign(result, CamelCase(k), stored);
    }
    return JObject(result);
  }

  /** The body of `camelize_keys`'s loop: the value stored for one entry. */
  method StoreValue(v: Json) returns (stored: Json)
    ensures stored == ValueOf(v)
    decreases v, 1
  {
    if v.JObject? {
      stored := CamelizeKeys(v);
    } else if v.JArray? {
      var elements: seq<Json> := [];
      for j := 0 to |v.items|
        invariant |elements| == j && forall m :: 0 <= m < j ==> elements[m] == Camelized(v.items[m])
      {
        var c := CamelizeKeys(v.items[j]);
        elements := elements + [c];
      }
      stored := JArray(elements);
    } else {
      stored := v;
    }
  }

  /** The keys the loop assigns are the dict's keys camel-cased, position by position. */
  lemma RenamedKeys(fields: Dict<Json>)
    ensures forall i :: 0 <= i < |fields| ==> Renamed(JObject(fields))[i] == Entry(CamelCase(fields[i].key), ValueOf(fields[i].value))
    ensures forall k :: k in Keys(Renamed(JObject(fields))) <==> exists i :: 0 <= i < |fields| && CamelCase(fields[i].key) == k
  {
    var renamed := Renamed(JObject(fields));
    assert forall i :: 0 <= i < |fields| ==> renamed[i] == RenamedAt(JObject(fields), i);
    forall k | k in Keys(renamed) ensures exists i :: 0 <= i < |fields| && CamelCase(fields[i].key) == k {
      var i :| 0 <= i < |renamed| && renamed[i].key == k;
      assert CamelCase(fields[i].key) == k;
    }
    forall k | exists i :: 0 <= i < |fields| && CamelCase(fields[i].key) == k ensures k in Keys(renamed) {
      var i :| 0 <= i < |fields| && CamelCase(fields[i].key) == k;
      assert renamed[i].key == k;
    }
  }

  /**
   * The keys of a camelized dict are the camel-cased keys of the original, distinct, and each
   * holds the camelized value of the last original entry whose key camel-cases to it.
   */
  lemma CamelizedKeys(fields: Dict<Json>)
    ensures var r := Camelized(JObject(fields)).fields;
            DistinctKeys(r) &&
            (forall k :: k in Keys(r) <==> exists i :: 0 <= i < |fields| && CamelCase(fields[i].key) == k) &&
            forall j :: 0 <= j < |fields| && (forall m :: j < m < |fields| ==> CamelCase(fields[m].key) != CamelCase(fields[j].key)) ==>
              Lookup(r, CamelCase(fields[j].key)) == Some(ValueOf(fields[j].value))
  {
    var renamed := Renamed(JObject(fields));
    RenamedKeys(fields);
    FromEntriesKeys(renamed);
  }

  /** A dict that camelizing would rebuild as it is: camel-cased keys and values already stored. */
  predicate CamelFixed(fields: Dict<Json>) {
    forall i :: 0 <= i < |fields| ==> CamelCase(fields[i].key) == fields[i].key && ValueOf(fields[i].value) == fields[i].value
  }

  /** `camelize_keys` is idempotent. */
  lemma {:induction false} CamelizeIdempotent(data: Json)
    ensures Camelized(Camelized(data)) == Camelized(data)
    decreases data, 2
  {
    if data.JObject? {
      var renamed := Renamed(data);
      var fields := FromEntries(renamed);
      FromEntriesKeys(renamed);
      forall i | 0 <= i < |fields|
        ensures CamelCase(fields[i].key) == fields[i].key && ValueOf(fields[i].value) == fields[i].value
      {
        assert fields[i] in fields;
        var j :| 0 <= j < |renamed| && renamed[j] == fields[i];
        var e := data.fields[j];
        assert fields[i] == RenamedAt(data, j) == Entry(CamelCase(e.key), ValueOf(e.value));
        CamelCaseIdempotent(e.key);
        assert e in data.fields;
        ValueOfIdempotent(e.value);
      }
      var again := Renamed(JObject(fields));
      assert again == fields by {
        forall i | 0 <= i < |fields| ensures again[i] == fields[i] {
          assert again[i] == RenamedAt(JObject(fields), i);
        }
      }
      FromEntriesDistinctUnchanged(fields);
    }
  }

  /** Storing a value twice stores what storing it once does. */
  lemma {:induction false} ValueOfIdempotent(value: Json)
    ensures ValueOf(ValueOf(value)) == ValueOf(value)
    decreases value, 3
  {
    match value
    case JObject(_) =>
      CamelizeIdempotent(value);
    case JArray(items) =>
      forall i | 0 <= i < |items| ensures Camelized(Camelized(items[i])) == Camelized(items[i]) {
        CamelizeIdempotent(items[i]);
      }
    case _ =>
  }
}
