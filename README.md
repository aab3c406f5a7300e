# cloudlift deployment core, modelled in Dafny

cloudlift deploys services to Amazon ECS. This project models five parts of it and proves
properties about them.

- **Environment samples and secrets** (`EnvSamples`, `env_samples.dfy`). This is the configuration
  half of `cloudlift/deployment/deployer.py`.
  - `read_config` parses an `env.sample` file. Blank lines are skipped. Every other line must hold
    a `=`. A later line wins over an earlier one with the same key.
  - `get_exec_namespaces` reads the namespaces off the sample file names of a folder.
  - `find_duplicate_keys` rejects two sample files that declare the same key.
  - `get_secret_name` names the secret of a namespace.
  - `build_config` checks that each secret holds every key its sample declares, and stores the
    secret's ARN under `INJECTED_SECRETS_<namespace>`.
- **Rollout** (`Deployer`, `deployer.dfy`). This is the rollout half of `deployer.py`.
  - It finds the essential container.
  - It sets the desired count.
  - It waits for the deployment to settle before a deadline, logging each new service event once,
    in creation order.
  - It builds the table of changed environment variables and secrets.
- **Task definitions** (`TaskDefinitionBuilder`, `task_definition_builder.dfy`). This covers
  `TaskDefinitionBuilder.build_template_resource`:
  - the family name, truncated to 255 characters;
  - roles and placement constraints;
  - `awsvpc` networking;
  - the service's own container: environment, secrets, command, stop timeout, system controls,
    port mappings, health check, links and labels;
  - one container per sidecar, and the log configuration;
  - `camelize_keys`, which `build_dict` applies to the result.
- **Parallel rollout** (`ServiceUpdater`, `service_updater.dfy`). This covers
  `ServiceUpdater.run_job_for_all_services`.
  - It queues one job per service. Each job gets its own copy of the keyword arguments, set to its
    service's name, secret name and colour.
  - It runs the jobs in batches of `DEPLOYMENT_CONCURRENCY` and waits for each whole batch before
    starting the next.
  - It fails when any job exits with a nonzero status.
- **Service configuration** (`ServiceConfig`, `service_configuration.dfy`). This covers the class
  `ServiceConfiguration` of `cloudlift/config/service_configuration.py`, which keeps a service's
  settings in a DynamoDB table.
  - `get_config` falls back to the default configuration and marks the service as new.
  - `set_config` stamps `cloudlift_version` onto the caller's dictionary and stores it.
  - `update_cloudlift_version`, `validate` (only the format of the schema error) and `edit_config`.

Shared modules:
- `Strings` holds the Python string operations the code uses: `split`, `join`, `strip`, `rstrip`,
  `splitlines`, `replace`, slicing, `str(n)`, and the ordering used by `sorted`.
- `Dicts` holds insertion-ordered dictionaries. Assigning an existing key keeps its position.
- `Json` is the JSON tree.
- `Errors` holds the exceptions raised.
- `Wrappers` holds `Option` and `Result`.

Each raised exception is a `Result` error. The loops that build a value step by step are methods
with `for` or `while` loops: `read_config`, `get_exec_namespaces`, `find_duplicate_keys`, the
namespace loop of `build_config`, `wait_for_finish`, the rows of `prepare_diff_table`, the link
and sidecar loops of `build_template_resource`, `camelize_keys`, and the queueing and batch loops
of `run_job_for_all_services`. Each such method is proved equal to a function, and the properties
are lemmas about that function. Code without such a loop is a function: `find_essential_container`
is a recursive function, `fetch_and_print_new_events` is a function that returns the new baseline
and the lines it logs, and the list comprehensions of `build_template_resource` (placement
constraints, system controls, environment, secrets) are functions over sequences. `ServiceConfiguration` is a class. Its `stored` field stands for the row in the
configuration table, and its `newService` field is the `new_service` flag.

`get_env_sample_file_contents` (`deployer.py:83-86`) builds the path into the sample folder but
opens the bare file name. The model follows the code: sample files are looked up by name in the
working directory (`workingFiles`), and only the folder listing comes from the sample folder.

## Model

| member | source | states |
|---|---|---|
| EnvSamples.SplitAssignment | cloudlift/deployment/deployer.py:159 | `line.split('=', 1)` yields two parts exactly when the line holds `=`; the parts joined by `=` give the line back and the key holds no `=` |
| EnvSamples.ClassifyMeaning | cloudlift/deployment/deployer.py:155-159 | a line is skipped exactly when it is all whitespace, fails to unpack exactly when its stripped text is non-empty and has no `=`, and otherwise assigns the stripped text before the first `=` the text after it |
| EnvSamples.ReadConfig | cloudlift/deployment/deployer.py:153-161 | the parsing loop returns what `ParseConfig` specifies for the file's lines |
| EnvSamples.ParseFailsIff | cloudlift/deployment/deployer.py:155-160 | parsing fails exactly when some line is neither blank nor holds a `=`, and then with the unpacking `ValueError` |
| EnvSamples.LastAssignedNone | cloudlift/deployment/deployer.py:160 | no value for a key exactly when no line assigns it |
| EnvSamples.LastAssignedIs | cloudlift/deployment/deployer.py:160 | the last line that assigns a key decides its value |
| EnvSamples.ParsedValue | cloudlift/deployment/deployer.py:153-161 | after a successful parse each key holds the value of its last assignment, an unassigned key keeps its earlier value, and keys stay distinct |
| EnvSamples.SampleFileNameShape | cloudlift/deployment/deployer.py:79-80 | every name `get_env_sample_file_name` gives starts with `env.` and ends with `.sample`, so the namespace scan picks it up; a named namespace sits between the two |
| EnvSamples.EnvSampleFileName | cloudlift/deployment/deployer.py:79-80 | the name `get_env_sample_file_name` gives always starts with `env.` and ends with `.sample` |
| EnvSamples.GetExecNamespaces | cloudlift/deployment/deployer.py:89-95 | the scanning loop returns the namespaces of the sample files of the listing, in listing order |
| EnvSamples.ExecNamespaces | cloudlift/deployment/deployer.py:89-95 | the namespaces read off a listing are no more than its files |
| EnvSamples.ExecNamespacesMembers | cloudlift/deployment/deployer.py:92-94 | there are no more namespaces than files, and a namespace is listed exactly when some sample file of the listing yields it |
| EnvSamples.NamespaceOfRest | cloudlift/deployment/deployer.py:94 | the namespace is the text after the leading `env.`, cut at the next `env.` and at `sample`, with trailing dots stripped |
| EnvSamples.EmptyNamespace | cloudlift/deployment/deployer.py:79-95 | the file `env.sample` yields the empty namespace, and the empty namespace names that file |
| EnvSamples.NamespaceRoundTrip | cloudlift/deployment/deployer.py:79-95 | the namespace read off `get_env_sample_file_name(ns)` is `ns` when `ns` holds no `sample`, does not end in `.`, and `ns + "."` holds no `env.` |
| EnvSamples.NamespaceEndingInEnv | cloudlift/deployment/deployer.py:94 | the round trip needs its condition on `env.`: namespace `xenv` comes back as `x` |
| EnvSamples.NamespaceStartingWithSample | cloudlift/deployment/deployer.py:94 | any namespace starting with `sample` comes back empty |
| EnvSamples.NamespaceHoldingSample | cloudlift/deployment/deployer.py:94 | namespace `samples` comes back empty |
| EnvSamples.GetSampleKeys | cloudlift/deployment/deployer.py:111-112 | the keys of a namespace's sample file, read by its bare name; a missing file or a malformed line fails |
| EnvSamples.FirstErrorAt | cloudlift/deployment/deployer.py:100-103 | the first failing read, in loop order, decides the error |
| EnvSamples.CheckPair | cloudlift/deployment/deployer.py:102-107 | one pass of the inner loop reads both files, fails with the first failing read's error, and otherwise records the pair when their keys overlap |
| EnvSamples.ScanRow | cloudlift/deployment/deployer.py:101-107 | the inner loop over the later namespaces records each overlapping pair of its row, in order |
| EnvSamples.ScanRows | cloudlift/deployment/deployer.py:100-108 | the outer loop records the overlapping pairs of every row, or fails with the first failing read's error |
| EnvSamples.FindDuplicateKeys | cloudlift/deployment/deployer.py:98-108 | `find_duplicate_keys` returns what `DuplicatesIn` specifies for the reads of the sample files |
| EnvSamples.RowEmptyIff | cloudlift/deployment/deployer.py:101-107 | a row records nothing exactly when its namespace shares no key with any later one |
| EnvSamples.RowsEmptyIff | cloudlift/deployment/deployer.py:100-107 | the rows record nothing exactly when no pair among them shares a key |
| EnvSamples.DuplicatesInEmptyIff | cloudlift/deployment/deployer.py:98-108 | given each read's outcome, nothing is found exactly when there are fewer than two namespaces, or every read succeeds and no two key sets meet |
| EnvSamples.NoDuplicatesIff | cloudlift/deployment/deployer.py:98-108 | `find_duplicate_keys` finds nothing exactly when there are fewer than two namespaces, or every sample file reads and no two of them declare a common key |
| EnvSamples.SecretName | cloudlift/deployment/deployer.py:115-116 | the secret name starts with `<repo>-` and ends with `-<env>` |
| EnvSamples.SecretNameInjective | cloudlift/deployment/deployer.py:115-116 | within one repository and environment, different namespaces get different secret names |
| EnvSamples.ValidateConfigAvailability | cloudlift/deployment/deployer.py:147-150 | passes exactly when every sample key has a value; otherwise it raises with exactly the missing keys, which are non-empty |
| EnvSamples.InjectedKeyInjective | cloudlift/deployment/deployer.py:133 | different namespaces are stored under different keys |
| EnvSamples.InjectedArnOk | cloudlift/deployment/deployer.py:128-133 | a namespace is handled exactly when its sample reads, its secret exists and holds every sample key; the value stored is the secret's ARN |
| EnvSamples.InjectFromStep | cloudlift/deployment/deployer.py:127-133 | one pass of the namespace loop either raises that namespace's error or assigns its ARN and goes on with the rest |
| EnvSamples.InjectNamespace | cloudlift/deployment/deployer.py:127-133 | one pass of the namespace loop reads the sample, names and fetches the secret, checks it holds every key, and yields the ARN or the first error, as `InjectedArn` specifies |
| EnvSamples.InjectAll | cloudlift/deployment/deployer.py:126-134 | the namespace loop returns what `InjectFrom` specifies, starting from an empty result |
| EnvSamples.BuildConfig | cloudlift/deployment/deployer.py:119-134 | `build_config` returns what `BuildConfigOutcome` specifies: the duplicate check, then the namespace loop |
| EnvSamples.InjectFromOk | cloudlift/deployment/deployer.py:126-134 | after a successful loop every namespace's ARN is stored under its key, every other key is unchanged, and the keys are the earlier ones plus one per namespace |
| EnvSamples.InjectFromArns | cloudlift/deployment/deployer.py:127-133 | after a successful loop every namespace was handled and its ARN is stored under its key |
| EnvSamples.InjectFromOthers | cloudlift/deployment/deployer.py:127-133 | the loop leaves every key that is not a namespace's key as it was |
| EnvSamples.InjectFromKeys | cloudlift/deployment/deployer.py:127-133 | the loop adds exactly one key per namespace |
| EnvSamples.BuildConfigOk | cloudlift/deployment/deployer.py:119-134 | when `build_config` succeeds, no two sample files share a key, each namespace's secret holds every key of its sample, and the result holds exactly one `INJECTED_SECRETS_<namespace>` entry per namespace, holding that secret's ARN |
| EnvSamples.BuildConfigApart | cloudlift/deployment/deployer.py:122-125 | a successful `build_config` passed the duplicate check: every pair of sample files reads and shares no key |
| EnvSamples.BuildConfigInjected | cloudlift/deployment/deployer.py:126-134 | a successful `build_config` holds exactly one key per namespace, with the ARN of a secret that holds every key of the namespace's sample |
| Deployer.FindEssentialContainer | cloudlift/deployment/deployer.py:14-18 | the name of the first container flagged essential, when every earlier one is flagged non-essential; `KeyError` exactly when an unflagged container comes first; "no essential containers found" exactly when all are non-essential |
| Deployer.DesiredCount | cloudlift/deployment/deployer.py:40-44 | the desired count is never zero: a zero count becomes 1 and any other is kept |
| Deployer.IsDeployed | cloudlift/deployment/deployer.py:200-203 | a service counts as deployed exactly when it has a single deployment and its desired and running counts are equal |
| Deployer.InsertByCreation | cloudlift/deployment/deployer.py:207 | insertion adds one element, adds exactly the event to the members, and keeps a sorted sequence sorted |
| Deployer.InsertByCreationPermutes | cloudlift/deployment/deployer.py:207 | insertion adds exactly one occurrence of the event |
| Deployer.SortByCreationSorted | cloudlift/deployment/deployer.py:206-207 | `fetch_events` orders the events by `createdAt` and is a permutation of them |
| Deployer.InsertByCreationStable | cloudlift/deployment/deployer.py:207 | an inserted event goes in front of the events created at the same time |
| Deployer.SortByCreationStable | cloudlift/deployment/deployer.py:206-207 | the sort is stable: events created at the same time keep their relative order |
| Deployer.SortByCreation | cloudlift/deployment/deployer.py:207 | sorting keeps the number of events |
| Deployer.FetchEvents | cloudlift/deployment/deployer.py:206-207 | `fetch_events` returns the service's events ordered by `createdAt`, as a permutation of them |
| Deployer.NewEvents | cloudlift/deployment/deployer.py:212 | an event is new exactly when it is among the fetched events and not in the baseline; sorted input gives sorted output |
| Deployer.EventLine | cloudlift/deployment/deployer.py:214 | the logged text has no parentheses and only characters of the message; for a message without parentheses it is the message less its first eight characters |
| Deployer.FetchAndPrintNewEvents | cloudlift/deployment/deployer.py:210-215 | returns all fetched events as the new baseline and logs one line per new event, in order |
| Deployer.NewEventsOnce | cloudlift/deployment/deployer.py:210-215 | logged events come in creation order and are not in the baseline; with the baseline the previous call returned, an event already seen is never logged again |
| Deployer.WaitedDone | cloudlift/deployment/deployer.py:165-169 | a reading within the deadline that shows the service deployed ends the wait with success |
| Deployer.WaitedNext | cloudlift/deployment/deployer.py:165-170 | a reading within the deadline that is not deployed logs its new events and goes on with them as the baseline |
| Deployer.WaitForFinish | cloudlift/deployment/deployer.py:164-173 | the waiting loop returns what `Waited` specifies; a first reading past the deadline fails at once and logs nothing |
| Deployer.WaitDeployedIff | cloudlift/deployment/deployer.py:164-173 | the wait succeeds exactly when some reading shows the service deployed and neither it nor any earlier reading is past the deadline |
| Deployer.DeployTaskDefinition | cloudlift/deployment/deployer.py:37-49 | sets the desired count, waits from the service's current events against the deadline `start + timeout`, and raises "<service> <action> failed." exactly when the wait fails |
| Deployer.SortedSet | cloudlift/deployment/deployer.py:243 | `sorted` of a set of keys is strictly increasing and holds exactly the set's members |
| Deployer.SortedUnique | cloudlift/deployment/deployer.py:243 | a set of keys has exactly one strictly sorted listing |
| Deployer.ChangedKeys | cloudlift/deployment/deployer.py:249-252 | the keys kept are exactly those whose shown values (`-` when absent) differ, in the given order |
| Deployer.DiffTableStep | cloudlift/deployment/deployer.py:249-264 | each key of the loop adds its row to the table exactly when its shown value changed |
| Deployer.PrepareDiffTable | cloudlift/deployment/deployer.py:241-265 | the loop returns the header followed by `DiffTable`'s rows |
| Deployer.DiffTableRows | cloudlift/deployment/deployer.py:241-265 | after the header comes one row per key of either side whose shown value differs, in strictly sorted key order |
| Deployer.DiffTableUnchangedIff | cloudlift/deployment/deployer.py:226-238 | the table is only its header, which is reported as no change, exactly when no key's shown value differs |
| TaskDefinitionBuilder.StripContainerNameRoundTrip | cloudlift/deployment/task_definition_builder.py:202-207 | stripping `Container` undoes `container_name` for a service name that does not hold `Container` |
| TaskDefinitionBuilder.ContainerName | cloudlift/deployment/task_definition_builder.py:202-203 | the container name is the service name followed by `Container` |
| TaskDefinitionBuilder.ResourceName | cloudlift/deployment/task_definition_builder.py:148-149 | the resource name is the service name followed by `TaskDefinition` |
| TaskDefinitionBuilder.FamilyName | cloudlift/deployment/task_definition_builder.py:38 | the family is `<env><service>Family` cut to its first 255 characters |
| TaskDefinitionBuilder.LogConfig | cloudlift/deployment/task_definition_builder.py:151-160 | the log configuration uses the `awslogs` driver with three options |
| TaskDefinitionBuilder.LogConfigOptions | cloudlift/deployment/task_definition_builder.py:151-160 | `awslogs` with exactly three options: the service as stream prefix, the region, and the configured log group or else `<env>-logs` |
| TaskDefinitionBuilder.Pairs | cloudlift/deployment/task_definition_builder.py:62-63 | one name/value pair per key of the section, in the dictionary's order |
| TaskDefinitionBuilder.PlacementConstraints | cloudlift/deployment/task_definition_builder.py:41-46 | succeeds exactly when every constraint has a `type` and an `expression`; otherwise raises `KeyError('type')` or `KeyError('expression')`, reading the type first; on success one constraint per entry, in order |
| TaskDefinitionBuilder.SystemControls | cloudlift/deployment/task_definition_builder.py:78-81 | fails with a `KeyError` exactly when a control lacks its namespace or value; otherwise one control per entry, in order |
| TaskDefinitionBuilder.PortMappings | cloudlift/deployment/task_definition_builder.py:83-101 | succeeds exactly when the interface that is mapped (HTTP, else UDP, else TCP) has the ports it reads; otherwise raises `KeyError('container_port')` or `KeyError('health_check_port')`; there are mappings exactly when some interface is configured |
| TaskDefinitionBuilder.UnpackKey | cloudlift/deployment/task_definition_builder.py:170 | `(k, v) = key` succeeds exactly for two-character keys, whose characters it yields; any other raises `ValueError` |
| TaskDefinitionBuilder.SidecarEnvironment | cloudlift/deployment/task_definition_builder.py:170 | the sidecar's environment unpacks each key of its configuration; it succeeds exactly when every key has two characters, with one entry per key |
| TaskDefinitionBuilder.SidecarDefinition | cloudlift/deployment/task_definition_builder.py:162-176 | a sidecar's definition succeeds exactly when it has a name and a memory reservation and every key of its configuration unpacks; otherwise the `TypeError` of `None + "Container"` or of `int(None)`, or the unpacking `ValueError` |
| TaskDefinitionBuilder.SidecarFailurePersists | cloudlift/deployment/task_definition_builder.py:132-140 | once one sidecar's definition fails, building all of them fails with its error |
| TaskDefinitionBuilder.Links | cloudlift/deployment/task_definition_builder.py:118-125 | succeeds exactly when every sidecar has a name, and then gives one link `<name>Container:<name>` per sidecar, in order; a sidecar without a name raises the `TypeError` of `None + "Container"` |
| TaskDefinitionBuilder.BuildLinks | cloudlift/deployment/task_definition_builder.py:119-124 | the link loop returns `Links`, raising at a sidecar without a name |
| TaskDefinitionBuilder.BuildSidecarDefinitions | cloudlift/deployment/task_definition_builder.py:132-140 | the sidecar loop returns `SidecarDefinitions`, stopping at the first that raises |
| TaskDefinitionBuilder.BuildTemplateResource | cloudlift/deployment/task_definition_builder.py:30-146 | `build_template_resource` returns what `TemplateResource` specifies |
| TaskDefinitionBuilder.TemplateResource | cloudlift/deployment/task_definition_builder.py:130-146 | a built task definition has one container more than there are sidecars; the first is essential (`'true'`) and every other is not |
| TaskDefinitionBuilder.MainContainerBase | cloudlift/deployment/task_definition_builder.py:58-116 | the service's container, before its links, is `<service>Container`, with the given image, essential, and without links |
| TaskDefinitionBuilder.MainContainer | cloudlift/deployment/task_definition_builder.py:58-130 | the service's container is `<service>Container`, with the given image, essential, and has links exactly when sidecars are configured |
| TaskDefinitionBuilder.SidecarDefinitionsOkIff | cloudlift/deployment/task_definition_builder.py:132-140 | the sidecars' definitions succeed exactly when every sidecar has a name, a memory reservation and configuration keys that unpack; otherwise the error is the `TypeError` of a missing name (line 138) or memory reservation (line 171), or the unpacking `ValueError` |
| TaskDefinitionBuilder.SidecarDefinitionsEach | cloudlift/deployment/task_definition_builder.py:132-140 | on success there is one definition per sidecar, in order, each the one its own configuration gives |
| TaskDefinitionBuilder.SidecarDefinitionFields | cloudlift/deployment/task_definition_builder.py:162-176 | a built sidecar container comes from a sidecar with a name and a memory reservation; it is named after it, not essential, with its image, memory, command and the shared log configuration, and one environment entry per configuration key |
| TaskDefinitionBuilder.TemplateResourceParts | cloudlift/deployment/task_definition_builder.py:130-146 | a built task definition is the service's container followed by the sidecars', with its resource name, family, roles, network mode and placement constraints |
| TaskDefinitionBuilder.TemplateResourceOkIff | cloudlift/deployment/task_definition_builder.py:30-146 | building succeeds exactly when every placement constraint has a type and an expression, the service's container configuration exists, memory reservation and command are set, every system control is complete, the mapped interface has its ports, a configured health check has a command, and every sidecar has a name, a memory reservation and keys that unpack |
| TaskDefinitionBuilder.TemplateResourceFirstError | cloudlift/deployment/task_definition_builder.py:41-125 | the error raised is the first in reading order: placement constraints, the service's container configuration, memory reservation, command, system controls, port mappings, the health check command, then the links' `TypeError` for a sidecar without a name |
| TaskDefinitionBuilder.TemplateResourceErrors | cloudlift/deployment/task_definition_builder.py:30-176 | every error building raises is a `KeyError`, the unpacking `ValueError`, or the `TypeError` of a sidecar without a name or memory reservation |
| TaskDefinitionBuilder.TemplateResourceLayout | cloudlift/deployment/task_definition_builder.py:38-55 | resource name `<service>TaskDefinition`, the truncated family, the configured roles and placement constraints, and `awsvpc` networking exactly for a UDP or TCP interface |
| TaskDefinitionBuilder.MainContainerFirst | cloudlift/deployment/task_definition_builder.py:61-131 | the first container is the service's own (`<service>Container`, essential, CPU 0, the given image, its memory reservation and the log configuration), followed by one per sidecar |
| TaskDefinitionBuilder.MainContainerSettings | cloudlift/deployment/task_definition_builder.py:58-130 | the service's container has one environment entry and one secret per key of its sections, in order (none when a section is absent), a command only when one is configured, the health check command and timings as configured, links exactly when sidecars are configured and then those of `Links`, the port mappings of `PortMappings`, and the stop timeout, labels and system controls as configured |
| TaskDefinitionBuilder.SidecarDefinitionsNamed | cloudlift/deployment/task_definition_builder.py:162-176 | each built sidecar definition is named after its sidecar, not essential, with its image and the shared log configuration |
| TaskDefinitionBuilder.SidecarsFollow | cloudlift/deployment/task_definition_builder.py:131-140 | after the service's container come the sidecars' containers, in order, none essential, all logging alike |
| TaskDefinitionBuilder.LinksOfSidecars | cloudlift/deployment/task_definition_builder.py:118-125 | a built service container has links exactly when sidecars are configured; then every sidecar has a name and there is one `<name>Container:<name>` per sidecar, in order |
| TaskDefinitionBuilder.PortMappingsPrecedence | cloudlift/deployment/task_definition_builder.py:83-101 | HTTP wins over UDP, which wins over TCP; a UDP interface without its port raises `KeyError('container_port')` before its health check port is read; a UDP interface maps its port for UDP and its health check port for TCP; any host port equals its container port; only a UDP interface yields a UDP mapping |
| TaskDefinitionBuilder.HttpServiceExample | test/deployment/task_definition_builder_test.py:6-62 | the builder's HTTP-service example yields the task definition the test expects |
| TaskDefinitionBuilder.HttpServiceNames | test/deployment/task_definition_builder_test.py:40-47 | the example's family is `testdummyFamily` and its resource name `dummyTaskDefinition` |
| TaskDefinitionBuilder.LowerChar | cloudlift/deployment/task_definition_builder.py:199 | an ASCII capital becomes its lower-case letter and any other character is kept |
| TaskDefinitionBuilder.CamelCaseFirstOnly | cloudlift/deployment/task_definition_builder.py:198-199 | `_camel_case` keeps the length, lower-cases the first character and keeps the rest |
| TaskDefinitionBuilder.CamelCaseIdempotent | cloudlift/deployment/task_definition_builder.py:198-199 | camel-casing twice is camel-casing once |
| TaskDefinitionBuilder.Camelized | cloudlift/deployment/task_definition_builder.py:179-181 | camelizing gives a dict exactly for a dict, and leaves anything else as it is |
| TaskDefinitionBuilder.CamelizeKeys | cloudlift/deployment/task_definition_builder.py:179-195 | the recursive loop returns `Camelized`: a dict rebuilt with camel-cased keys, anything else unchanged |
| TaskDefinitionBuilder.StoreValue | cloudlift/deployment/task_definition_builder.py:186-194 | the value stored for an entry: a dict camelized, each element of a list camelized, anything else as is |
| TaskDefinitionBuilder.RenamedKeys | cloudlift/deployment/task_definition_builder.py:184-194 | the loop assigns, position by position, each key camel-cased with its stored value |
| TaskDefinitionBuilder.CamelizedKeys | cloudlift/deployment/task_definition_builder.py:179-195 | the result's keys are the camel-cased original keys, distinct, each holding the value of the last original entry that camel-cases to it |
| TaskDefinitionBuilder.CamelizeIdempotent | cloudlift/deployment/task_definition_builder.py:179-195 | `camelize_keys` is idempotent |
| TaskDefinitionBuilder.ValueOfIdempotent | cloudlift/deployment/task_definition_builder.py:186-194 | storing a value twice gives what storing it once does |
| ServiceUpdater.ChunksFlatten | cloudlift/deployment/service_updater.py:89 | the batches hold every job exactly once, in order |
| ServiceUpdater.Chunks | cloudlift/deployment/service_updater.py:89 | every batch holds between one and `concurrency` jobs |
| ServiceUpdater.ChunksBounded | cloudlift/deployment/service_updater.py:89 | every batch is non-empty with at most `concurrency` jobs, and all but the last hold exactly that many |
| ServiceUpdater.SixJobsInTwoBatches | cloudlift/deployment/service_updater.py:18 | with the default concurrency of 4, six jobs run as a batch of four and then a batch of two |
| ServiceUpdater.ScheduleRange | cloudlift/deployment/service_updater.py:89-100 | the run only starts and waits for the jobs it was given |
| ServiceUpdater.Schedule | cloudlift/deployment/service_updater.py:89-100 | the run holds one start and one exit per job |
| ServiceUpdater.ScheduleComplete | cloudlift/deployment/service_updater.py:89-100 | every job is started and later exits with its own status |
| ServiceUpdater.ScheduleBarrier | cloudlift/deployment/service_updater.py:89-97 | when a job starts, every job at least `concurrency` places before it has already exited, so no more than `concurrency` jobs run at once |
| ServiceUpdater.ScheduleBatchBarrier | cloudlift/deployment/service_updater.py:89-97 | when a job starts, every job of an earlier batch has already exited |
| ServiceUpdater.ScheduleBatchStarted | cloudlift/deployment/service_updater.py:89-97 | when a job exits, every job of its batch has already started |
| ServiceUpdater.RunBatchesInTurn | cloudlift/deployment/service_updater.py:89-97 | over the batches `0..k-1`, `k..2k-1`, ...: a job starts only after every job of an earlier batch has exited, and a job exits only after every job of its own batch has started |
| ServiceUpdater.RunJobForAllServices | cloudlift/deployment/service_updater.py:72-102 | one job per service in order, the caller's arguments left as the last service set them, batches run as `Schedule` describes (so, by `RunBatchesInTurn`, a batch starts only once the previous one has all exited), every exit status collected, and "<job> failed" raised exactly when some status is nonzero |
| ServiceUpdater.UpdateJobArgsQueued | cloudlift/deployment/service_updater.py:80-82 | the update sets the service name, the secret name (`None` when absent) and the colour, and leaves every other argument as the caller passed it |
| ServiceUpdater.UpdateJobArgsAgain | cloudlift/deployment/service_updater.py:80-82 | updating again for the next service gives the same arguments as updating the caller's original ones, so nothing of one job carries over into the next |
| ServiceUpdater.QueuedJobsEach | cloudlift/deployment/service_updater.py:76-87 | job `i` runs the target with the caller's arguments updated for service `i` alone |
| ServiceUpdater.QueueJobs | cloudlift/deployment/service_updater.py:76-87 | the queueing loop returns `QueuedJobs`, and leaves the caller's dictionary as the last update made it |
| ServiceUpdater.RunInBatches | cloudlift/deployment/service_updater.py:88-100 | the batch loop's starts and exits are `Schedule`, and it collects every exit status in job order |
| ServiceUpdater.RunBatch | cloudlift/deployment/service_updater.py:90-100 | one batch starts its jobs in order, then records each one's exit |
| ServiceUpdater.ColorsRotate | cloudlift/deployment/service_updater.py:17-79 | colours repeat every three jobs, come from the first three entries, and `cyan` is never used |
| ServiceConfig.DefaultShape | cloudlift/config/service_configuration.py:413-438 | the default holds exactly `ecr_repo` (named `spinalcase(<cwd>-repo)`) and `services`, with one service keyed `pascalcase(<name>)`; it reserves 1000 MB, has no command, no system controls and no version, and has an HTTP interface on port 80 behind a new, public load balancer |
| ServiceConfig.DefaultServiceConfiguration | cloudlift/config/service_configuration.py:413-438 | the default holds exactly `ecr_repo`, named `spinalcase(<cwd>-repo)`, and `services`, with one service keyed `pascalcase(<name>)`, and no version |
| ServiceConfig.DefaultHttpInterfaceLookups | cloudlift/config/service_configuration.py:421-431 | the default HTTP interface: port 80, not internal, open to `0.0.0.0/0`, with a new load balancer |
| ServiceConfig.GetAfterSet | cloudlift/config/service_configuration.py:92-109 | reading back a stored configuration gives it without its version stamp; a configuration that came from a read comes back exactly |
| ServiceConfig.VersionRefreshed | cloudlift/config/service_configuration.py:111-116 | refreshing the version records the new version, keeps every other setting, and adds only the version key |
| ServiceConfig.ReadMissing | cloudlift/config/service_configuration.py:96-101 | a service with nothing stored, or an empty item, reads as the default, whether or not the version is stripped |
| ServiceConfig.ReadConfiguration | cloudlift/config/service_configuration.py:96-102 | the read gives the stored configuration, or the default when none counts, with every key but the version unchanged; the version is gone when stripped, and otherwise a stored configuration comes back as it is |
| ServiceConfig.PathTexts | cloudlift/config/service_configuration.py:408 | one text per path item, in order: a key as is, an index in decimal |
| ServiceConfig.ValidationMessageParts | cloudlift/config/service_configuration.py:408-410 | the failure text starts with the schema's message and `" in "`, and the rest splits at the dots back into the path when no key holds a dot |
| ServiceConfig.ValidateChanges | cloudlift/config/service_configuration.py:405-410 | validation passes exactly when the schema check passes; otherwise it raises `UnrecoverableException` with the message and the dotted path |
| ServiceConfig.ContainerLabelsMessage | test/config/service_configuration_test.py:472-492 | a numeric container label is reported as "1 is not of type 'string' in services.TestService.container_labels.key" |
| ServiceConfig.ServiceConfiguration.constructor | cloudlift/config/service_configuration.py:38-49 | a new object is not marked as a new service |
| ServiceConfig.ServiceConfiguration.GetConfig | cloudlift/config/service_configuration.py:92-102 | returns the stored configuration, or the default when none counts (and then marks the service new), with the version stripped unless asked to keep it; the store's error passes through |
| ServiceConfig.ServiceConfiguration.SetConfig | cloudlift/config/service_configuration.py:104-109 | stamps the caller's dictionary with the version, in place, and stores exactly that |
| ServiceConfig.ServiceConfiguration.UpdateCloudliftVersion | cloudlift/config/service_configuration.py:111-116 | stores what was read, stamped with the current version |
| ServiceConfig.ServiceConfiguration.Validate | cloudlift/config/service_configuration.py:118-120 | validates the configuration with its version stamp kept |
| ServiceConfig.ServiceConfiguration.EditConfig | cloudlift/config/service_configuration.py:51-90 | an unreachable store raises "Unable to fetch service configuration from DynamoDB."; closing the editor unsaved stores the stamped configuration only for a new service; saved edits are stored stamped only when they differ and are confirmed |
| ServiceConfig.EditUnsavedStoresDefault | cloudlift/config/service_configuration.py:69-72 | closing the editor unsaved for a service with nothing stored stores the default, stamped with the version |
| Dicts.Assign | cloudlift/deployment/deployer.py:160 | `d[k] = v`: the key then holds `v`, every other key is unchanged, a new key goes at the end and an existing key adds no entry |

## Left out

- Reading the process environment, the filesystem, the clock and `sleep` is left out.
  - The folder listing and the files of the working directory are parameters.
  - The service snapshots `wait_for_finish` reads are a sequence of readings, each with the time it
    was taken. When the readings run out, the wait counts as past its deadline.
- Logging, colours and terminal tables are left out, apart from the text of the event lines and
  the cells of the diff table.
- `record_deployment_failure_metric` (CloudWatch) is left out.
- `ecs.py`, the ECS client, `DeployAction`, `revert_deployment`, `deploy_new_version`,
  `create_new_task_definition`, `_get_parameter_store_config` and ECR are outside the modelled core.
  `deploy_and_wait` (`deployer.py:72-76`) is folded into `DeployTaskDefinition`.
- `print_task_diff` is left out apart from its table check. Its image comparison only logs.
- `get_env_sample_file_contents` is folded into `SampleKeys`, which reads the file by its bare name.
- Deployer.DeployTaskDefinition: the service's current desired count and events are inputs. The
  `set_desired_count` call is not modelled as a change of state, only as the returned count.
- The secrets manager is a function parameter (`SecretsProvider`) that gives a secret's keys and
  ARN, or an error. `cloudlift/config/secrets_manager.py` is not part of this model.
- `MissingConfigValues` and `DuplicateKeysFound` stand for the `UnrecoverableException` texts that
  print Python sets and lists. The printed text itself is not modelled.
- `int(...)` on configuration values is left out. Numbers are already integers in the model, so
  the `ValueError` of a malformed number is not modelled.
- TaskDefinitionBuilder.SidecarDefinition: a sidecar's `image` is taken to be present.
  `sidecar.get('image')` giving `None` goes to troposphere's own type check, which is not modelled.
- TaskDefinitionBuilder.LowerChar: lower-cases ASCII letters only. `str.lower` on other Unicode
  letters is not modelled.
- troposphere's objects and `Template.to_dict` are left out, so `build_dict` is not modelled.
  `build_template_resource` returns a plain `TaskDefinition` record, and `camelize_keys` is
  modelled on JSON trees.
- `container_name` and `strip_container_name` are the same in `deployer.py:268-273` and
  `task_definition_builder.py:202-207`. They are modelled once, in `TaskDefinitionBuilder`.
- `cloudlift/utils` is not part of this model. `chunks` is taken to cut consecutive slices of
  `concurrency` jobs, the last one possibly shorter.
- `multiprocessing` is left out. Each job's exit status is an input. A batch's start and its wait
  are recorded as events, and the polling loop is taken to end once every job of the batch has
  exited.
- The service information fetcher, the ECR client and `ServiceUpdater.__init__`, `run` and
  `revert` are left out. The service information is a parameter.
- ServiceUpdater.RunJobForAllServices: requires a concurrency above zero. The environment variable
  `CLOUDLIFT_DEPLOYMENT_CONCURRENCY` is not parsed, and the source does not check its value.
- Keyword arguments are a `map`. The order of keys in a Python keyword dictionary has no effect
  on the call.
- `DynamodbConfig` is not part of this model. The stored item is the field `stored`, and a store
  that raises `ClientError` is the constant `reachable` being false.
- `cloudlift/version` is not part of this model. `VERSION` is a constructor parameter.
- `getcwd`, `pascalcase` and `spinalcase` are constructor parameters.
- The editor, `json.dumps` and `json.loads` are left out. `EditConfig` takes the saved text
  already parsed, so a `json.loads` error is not modelled.
- `dictdiffer.diff` and `confirm` are boolean inputs to `EditConfig`.
- The JSON schema of `_validate_changes` (`service_configuration.py:123-404`) and `jsonschema` are
  left out. The schema check is a function parameter. Only how its error becomes the tool's
  message is modelled.
- Other members of `ServiceConfiguration` (listener rule priorities and the like) are outside the
  modelled core.
