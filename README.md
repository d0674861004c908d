# denzel CLI bookkeeping, modelled in Dafny

denzel deploys a machine-learning model as four docker-compose services:
`api`, `denzel`, `monitor` and `redis`. Its command-line tool keeps the
deployment's state in the project directory. That state is:

- the environment record `.env`, holding the project name, ports, image and runtime;
- hidden status markers such as `.building` or `.denzel_updating-pip`;
- the names of the containers the runtime lists.

This project models that bookkeeping. The directory is a list of names in
listing order plus the text of each file. Docker, `docker-compose ps`,
`netstat` and the monitor's HTTP endpoint are inputs (`Workspace.Runtime`,
and a function standing for the HTTP call). Every command the CLI issues is
recorded, in a log, together with the set of names present in the directory
when it ran.

Modules, following the program's files:

- `Workspace`: the directory (`Dir`), the runtime inputs, and the `Project` class. Its fields (names, contents, issued commands) change in place. Its `VerifyLocation` method is the `.env` check both CLI versions put in front of their commands; the older one in build/lib/cli/utils.py:12-19 is the same check.
- `Markers`: `set_status`, `file_to_status` and `status_to_color`.
- `EnvFile`: `read_env`, the newer `get_project_name`, and how `key=value` lines read back.
- `Containers`: container-name resolution, status buckets and worker status.
- `Redis`: `redis_backup` and `set_response_manner`.
- `Commands`: `create_project`, `launch`, `shutdown`, `start`, `stop`, `restart`, the three `update*reqs` commands, `logs`, `logworker`, `shell` and `response`.
- `StatusView`: the `status` command's listing.
- `Legacy`: the older helpers in build/lib/cli/utils.py.
- `Pipeline`: the example pipeline tests/assets/pipeline.py (`verify_input`, `process`, `predict`).
- `Strings`, `PyDict`, `Wrappers`: Python's `str` operations, the insertion-ordered `dict`, and `Option`/`Result`.

A command that changes the directory or issues commands is a method on a
`Project`. It is proved against a function of the old state that gives the
outcome, the new directory and the issued commands (`Commands.Applied`).
Lemmas about those functions carry the properties. A Python exception is an
`Err` with a cause (`Workspace.Error`).

The `Status` enum and the `Colors` enum are not defined in
src/denzel_cli/config.py, and neither are `SERVICES_WITH_EXPOSED_PORT` and
`DENZEL_IMAGE_TAG`, which commands.py uses. `Config` fixes concrete values for
them: `SERVICES_WITH_EXPOSED_PORT` is `["api", "monitor"]` (the two services
with a port in `.env`) and `DENZEL_IMAGE_TAG` is `"latest"`. The slugs used in marker
names are `up`, `down`, `building`, `updating-os`, `updating-pip`, `loading`,
`error` and `n/a`. They are distinct and hold no `_`, and the worker's own
`.worker_loading` file follows the same scheme.

## Model

| member | source | states |
|---|---|---|
| `Workspace.Project.VerifyLocation` | src/denzel_cli/utils.py:16-25 | fails with the location error exactly when `.env` is absent, and otherwise lets the command run |
| `Workspace.Project.Touch` | src/denzel_cli/utils.py:96-97 | opening in append mode creates an empty file when it is missing, keeps an existing file's text, and issues nothing |
| `Workspace.Project.Delete` | src/denzel_cli/utils.py:102-103 | the file is gone and every other file keeps its text |
| `Workspace.DeleteAfterTouch` | src/denzel_cli/utils.py:96-103 | creating a file and then removing it leaves the directory as removing alone would |
| `Markers.MarkerNameScheme` | src/denzel_cli/utils.py:91-94 | the marker is `.` + slug without a service, and `.` + service + `_` + slug with one |
| `Markers.SlugsWellFormed` | src/denzel_cli/utils.py:91 | every status slug is non-empty, underscore-free and dot-free at its ends, and different statuses have different slugs |
| `Markers.FindStatusFound` | src/denzel_cli/utils.py:62-66 | the loop over the enum returns a status whose slug is the string, and `None` only when no status has it |
| `Markers.FileToStatusNone` | src/denzel_cli/utils.py:58-66 | `file_to_status` gives `None` exactly when no status's slug equals the text after the name's last `_` with dots stripped |
| `Markers.MarkerRoundTrip` | src/denzel_cli/utils.py:58-94 | decoding the marker `set_status` names for a status and an underscore-free service gives back that status |
| `Markers.StatusToColor` | src/denzel_cli/utils.py:69-81 | success exactly for UP, failure exactly for DOWN, neutral for every other status |
| `Markers.EnterStatus` | src/denzel_cli/utils.py:91-97 | returns the scheme's name and creates that file (append mode: an existing file is kept), nothing else changes |
| `Markers.ExitStatus` | src/denzel_cli/utils.py:101-103 | removes the marker when `remove` is set (a missing file is no error), and otherwise leaves the directory as it is |
| `Markers.WithStatus` | src/denzel_cli/utils.py:84-103 | the marker is created on entry; on exit, whether the body completed or raised, it is deleted with `remove` and kept without it, and every other file is as before; the body's outcome is an input passed through unchanged, since the body itself is not modelled |
| `Markers.MarkerGoneAfterwards` | src/denzel_cli/utils.py:96-103 | after the block the marker is absent, every other file exists as before with the same text, and the result equals deleting alone |
| `Markers.TouchIdempotent` | src/denzel_cli/utils.py:96-97 | creating the marker twice is the same as creating it once |
| `EnvFile.LastValueFrom` | src/denzel_cli/utils.py:167-170 | a key has a value exactly when some line assigns it, and that value is the stripped text after the first `=` of such a line |
| `EnvFile.ParseEnvLastWins` | src/denzel_cli/utils.py:163-172 | parsing succeeds exactly when every line holds `=`, the result is a well-formed dict, and each key maps to the value of its last assigning line |
| `EnvFile.ReadEnvOf` | src/denzel_cli/utils.py:162-172 | fails with the location error when `.env` is absent |
| `EnvFile.ReadEnv` | src/denzel_cli/utils.py:162-172 | the loop over the file's lines computes the parse of all of them; the first line without `=` raises |
| `EnvFile.AssignmentReadsBack` | src/denzel_cli/utils.py:169-170 | a written `key=value` line with an `=`-free key and a whitespace-free value reads back as that key and value, even when the value holds `=` |
| `EnvFile.WriteThenRead` | src/denzel_cli/commands.py:31-40 | assignments of distinct keys parse back to a dict with exactly those keys, in order, each with its value |
| `EnvFile.WrittenTextReadsBack` | src/denzel_cli/commands.py:31-40 | the same holds when the lines are written to a file as one text and read back line by line |
| `EnvFile.MarkedValue` | src/denzel_cli/utils.py:39-47 | `None` exactly when no line mentions the marker; otherwise the first line that does decides: its stripped value after the first `=`, or, exactly when it holds no `=`, the `IndexError` |
| `EnvFile.ProjectNameIn` | src/denzel_cli/utils.py:40-47 | `None` exactly when no line names the project (the loop falls off its end); otherwise what the first line naming it gives |
| `EnvFile.ProjectNameOf` | src/denzel_cli/utils.py:38-47 | the location error exactly when `.env` is absent; otherwise the name the first line of `.env` naming the project gives, `None` when none does |
| `Containers.ProjectLabel` | src/denzel_cli/utils.py:198-208 | the name put into the regex fails exactly when reading the project name fails; a missing name formats as `None`, and a found name is used as it is |
| `Containers.MatchAmong` | src/denzel_cli/utils.py:206-215 | a match exists exactly when some service alternative matches; the alternative taken is one that matches, the match is a prefix of the container name, and it ends in a maximal non-empty run of digits |
| `Containers.MatchAmongFirst` | src/denzel_cli/utils.py:198-215 | the alternative a match takes is the first in the alternation's order that can match: no earlier one can |
| `Containers.MatchContainer` | src/denzel_cli/utils.py:212 | every match is for one of the four services |
| `Containers.DescriptorIsService` | src/denzel_cli/utils.py:215-216 | `name.split('_')[-2]` of a matched name is the matched service, whatever underscores the project name holds |
| `Containers.ResolvedKeysAreServices` | src/denzel_cli/utils.py:205-219 | the resolved dict is well-formed and keyed by services only |
| `Containers.ResolvedPresence` | src/denzel_cli/utils.py:210-217 | a service is resolved exactly when some listed container matches it |
| `Containers.ResolvedLastWins` | src/denzel_cli/utils.py:210-217 | a service's value is the matched prefix of the last container in the listing that matches it |
| `Containers.GetContainersNames` | src/denzel_cli/utils.py:195-219 | the loop computes the resolution of the whole listing; outside a project it fails |
| `Containers.Classify` | src/denzel_cli/utils.py:236-243 | a container that is not running is DOWN, whatever markers exist; a running one with no `.<service>` file is UP; a running one is otherwise filed under what its first such file decodes to |
| `Containers.FirstPrefixedUnique` | src/denzel_cli/utils.py:238-240 | any index holding the first name with the prefix holds what `[f for f in files if re.match(...)][0]` returns |
| `Containers.Matching` | src/denzel_cli/utils.py:234-243 | the services classified as a given key are exactly the listed services that classify as it |
| `Containers.ReconcileBuckets` | src/denzel_cli/utils.py:226-245 | each bucket holds exactly the services classifying into it, and no bucket exists empty |
| `Containers.ExactlyOneBucket` | src/denzel_cli/utils.py:234-243 | every resolved service lies in exactly one bucket, its classification, and occurs there once |
| `Containers.FirstWithPrefix` | src/denzel_cli/utils.py:237-238 | `None` exactly when no file starts with the prefix; otherwise the first file in listing order that does |
| `Containers.MarkerDecidesLiveStatus` | src/denzel_cli/utils.py:236-239 | a running service with no other file starting with its prefix lands in the bucket of the marker `set_status` creates for it |
| `Containers.NotCreatedIff` | src/denzel_cli/commands.py:126-129 | both the UP and DOWN buckets are empty exactly when no service classifies as UP or DOWN, as when every running service carries a marker |
| `Containers.ContainersStatusOf` | src/denzel_cli/utils.py:222-245 | fails exactly when name resolution fails |
| `Containers.BucketsHoldResolved` | src/denzel_cli/utils.py:234 | every bucketed service has a resolved container |
| `Containers.GetContainersStatus` | src/denzel_cli/utils.py:222-245 | the loop appending each service to its bucket computes the reconciled buckets |
| `Containers.BucketServices` | src/denzel_cli/utils.py:234-243 | the loop over the resolved services, appending each to the bucket it classifies into, computes the reconciled buckets |
| `Containers.BucketsShape` | src/denzel_cli/utils.py:226-245 | the statuses read are a well-formed dict, and every bucket in it holds at least one service |
| `Containers.WorkerLoadingIsMarker` | src/denzel/app/tasks.py:16 | the worker's loading file is the marker of LOADING for service `worker` |
| `Containers.Translate` | src/denzel_cli/utils.py:188-189 | the same workers in the same order, each UP exactly when reported live and DOWN otherwise |
| `Containers.WorkerStatus` | src/denzel_cli/utils.py:175-192 | `all: LOADING` while the loading file exists, without asking; `api: N/A` exactly when the monitor refuses the connection; `all: ERROR` exactly on a reply other than 200; on a 200 reply the workers in order, each UP when reported live and DOWN otherwise |
| `Redis.TargetOf` | src/denzel_cli/utils.py:109-116 | nothing to do exactly when redis is not in the UP bucket; otherwise the container resolved for redis |
| `Redis.FetchTarget` | src/denzel_cli/utils.py:109-116 | computes that target |
| `Redis.BackupCommands` | src/denzel_cli/utils.py:118-124 | one command exactly when redis is UP: `bgsave` when in the background, `save` otherwise, in the redis container |
| `Redis.RedisBackup` | src/denzel_cli/utils.py:106-124 | leaves the directory alone, issues exactly those commands, and passes on a failure to read the statuses |
| `Redis.StoredTimeout` | src/denzel_cli/utils.py:142-145 | the stored timeout is 0 when asynchronous and the given timeout when synchronous |
| `Redis.ResponseManner` | src/denzel_cli/utils.py:127-153 | nothing when redis is not UP; else stores the timeout; a failing exec raises and skips the backup; a successful one is followed by a background save |
| `Redis.SetResponseManner` | src/denzel_cli/utils.py:127-153 | issues exactly those commands and returns that outcome |
| `Commands.EnvValues` | src/denzel_cli/commands.py:33-40 | eight values, the first being the project name |
| `Commands.GpuChoice` | src/denzel_cli/commands.py:36-39 | GPU picks the `denzel-gpu` image, `Dockerfile.gpu` and the `nvidia` runtime; CPU picks `denzel`, `Dockerfile` and `runc` |
| `Commands.GpuShared` | src/denzel_cli/commands.py:33-40 | the project name, both ports and both image tags do not depend on the GPU choice |
| `Commands.CreateProject` | src/denzel_cli/commands.py:15-40 | fails, with the directory-exists error, exactly when the destination exists; otherwise writes the eight `key=value` lines in order and ignores the Dockerfile of the other mode, never the one `.env` names |
| `Commands.DockerfileKept` | src/denzel_cli/commands.py:22-38 | the Dockerfile that `.env` names for the chosen mode is never among the ignored patterns |
| `Commands.CreatedEnvReadsBack` | src/denzel_cli/commands.py:31-40 | reading the created `.env` back gives exactly the eight keys in order, with their values |
| `Commands.CreatedProjectName` | src/denzel_cli/commands.py:33 | `get_project_name` on the created `.env` gives the project name |
| `Commands.IsPortTaken` | src/denzel_cli/utils.py:50-55 | a port is taken exactly when some listening address contains `0.0.0.0:` followed by the port |
| `Commands.BoundPortTaken` | src/denzel_cli/utils.py:53 | a port bound on `0.0.0.0` is reported taken |
| `Commands.LongerPortShadows` | src/denzel_cli/utils.py:53 | the substring test reports port 80 taken when only port 8000 is bound |
| `Commands.Rewritten` | src/denzel_cli/commands.py:64-70 | the rewrite keeps the line count and rewrites each line on its own |
| `Commands.RewriteEnv` | src/denzel_cli/commands.py:60-70 | the writing loop produces the rewritten lines, concatenated |
| `Commands.RewrittenReadsBack` | src/denzel_cli/commands.py:60-70 | reading the rewritten text back gives exactly the rewritten lines |
| `Commands.RewriteLineApi` | src/denzel_cli/commands.py:65-66 | a line assigns `api_port` after the rewrite exactly when it mentioned `api_port`, and then holds the new api port |
| `Commands.RewriteLineMonitor` | src/denzel_cli/commands.py:67-68 | a line assigns `monitor_port` after the rewrite exactly when it mentioned `monitor_port` and not `api_port`, and then holds the new monitor port |
| `Commands.RewrittenApiPort` | src/denzel_cli/commands.py:64-70 | when the rewritten file parses, `api_port` is the new port exactly when some line mentioned it, and is absent otherwise |
| `Commands.RewrittenMonitorPort` | src/denzel_cli/commands.py:64-70 | when the rewritten file parses, `monitor_port` is the new port exactly when some line mentioned it without `api_port`, and is absent otherwise |
| `Commands.RewrittenEnvPorts` | src/denzel_cli/commands.py:59-73 | the same two facts for the `.env` that `launch` writes and reads back |
| `Commands.LaunchGate` | src/denzel_cli/commands.py:47-57 | `launch` proceeds only inside a project |
| `Commands.LaunchChecks` | src/denzel_cli/commands.py:47-57 | the checks, run on the project before it changes, report the first failing one (location, existing containers, api port, monitor port) exactly as `LaunchGate` does |
| `Commands.Launch` | src/denzel_cli/commands.py:47-86 | changes the directory and issues commands exactly as `LaunchOf` says |
| `Commands.LaunchRefusalKeepsState` | src/denzel_cli/commands.py:49-57 | a refused launch changes no file and issues nothing |
| `Commands.LaunchedOnce` | src/denzel_cli/commands.py:50-51 | any known container refuses the launch, before the ports are looked at |
| `Commands.LaunchCheckOrder` | src/denzel_cli/commands.py:53-57 | with no container known, a taken api port refuses first, then a taken monitor port, and the launch proceeds exactly when both are free |
| `Commands.LaunchSucceeded` | src/denzel_cli/commands.py:59-86 | a successful launch passed every check, and its effect is the rewritten `.env`, the building marker, and one `up` command |
| `Commands.LaunchRecordsPorts` | src/denzel_cli/commands.py:59-86 | after a successful launch `.env` holds the new ports, the building marker is still there, and `docker-compose up -d --no-recreate` ran with it present |
| `Commands.RunAfterBackup` | src/denzel_cli/commands.py:105-109 | a foreground backup, then the given compose command, with nothing else changed |
| `Commands.Shutdown` | src/denzel_cli/commands.py:89-96 | a foreground backup, then `docker-compose down`, with `--rmi all` exactly when purging |
| `Commands.Start` | src/denzel_cli/commands.py:99-102 | issues `docker-compose start` |
| `Commands.Stop` | src/denzel_cli/commands.py:105-109 | a foreground backup, then `docker-compose stop` |
| `Commands.Restart` | src/denzel_cli/commands.py:112-115 | `stop`, then `start` |
| `Commands.LifecycleKeepsFiles` | src/denzel_cli/commands.py:89-115 | none of shutdown, stop, start or restart changes a file |
| `Commands.StopSavesFirst` | src/denzel_cli/commands.py:105-109 | when redis is UP, a `save` in its container comes before `stop`; when it is not, only `stop` is issued |
| `Commands.RestartStopsThenStarts` | src/denzel_cli/commands.py:112-115 | a successful restart ends with `stop` followed by `start`, and its stop succeeded |
| `Commands.RestartStopsOnError` | src/denzel_cli/commands.py:112-115 | a failing stop ends the restart: `start` is never issued |
| `Commands.UpdateOsReqs` | src/denzel_cli/commands.py:163-167 | a restart under the UPDATE_OS_REQS marker, which is removed afterwards |
| `Commands.UpdatePipReqs` | src/denzel_cli/commands.py:170-174 | a restart under the UPDATE_PIP_REQS marker, which is removed afterwards |
| `Commands.UpdateReqs` | src/denzel_cli/commands.py:177-181 | a restart under both markers, the pip marker created first |
| `Commands.RestartPresent` | src/denzel_cli/commands.py:112-115 | every command a restart issues sees the directory it started in |
| `Commands.UpdateMarkersPresent` | src/denzel_cli/commands.py:177-181 | every command issued under the markers sees all of them present |
| `Commands.UpdateMarkersRemoved` | src/denzel_cli/commands.py:177-181 | afterwards every marker is gone and every other file is as before |
| `Commands.Logs` | src/denzel_cli/commands.py:184-194 | issues the logs command |
| `Commands.LogsCommandShape` | src/denzel_cli/commands.py:186-192 | `docker-compose logs`, then `-f` exactly when live, then the service exactly when it is not `all` |
| `Commands.Logworker` | src/denzel_cli/commands.py:197-207 | fails when the worker log is missing; otherwise `tail -f` when live and `cat` when not |
| `Commands.Shell` | src/denzel_cli/commands.py:210-214 | issues `docker exec -it <container> bash` |
| `Commands.ShellFindsContainer` | src/denzel_cli/commands.py:210-214 | fails with an unknown-service error exactly when no listed container matches the service; otherwise execs into the resolved container |
| `Commands.Response` | src/denzel_cli/commands.py:217-219 | sets the response manner |
| `Commands.OutsideProject` | src/denzel_cli/utils.py:16-25 | outside a project every command is refused with the location error, changing nothing and issuing nothing |
| `StatusView.RowFor` | src/denzel_cli/commands.py:141-146 | a service in a bucket without a status raises; a shown row has the bucket's status; a port is shown exactly for an exposed service that is UP, read from `<service>_port`, whose absence raises |
| `StatusView.ShowStatus` | src/denzel_cli/commands.py:118-160 | the loops over buckets and services compute the listing of `StatusOf` |
| `StatusView.ShowStatusFails` | src/denzel_cli/commands.py:139-146 | a service that cannot be shown makes the whole listing raise its error |
| `StatusView.BucketRowsShape` | src/denzel_cli/commands.py:140-146 | one row per service of a bucket, in order |
| `StatusView.BucketLines` | src/denzel_cli/commands.py:140-146 | the loop over one bucket's services computes that bucket's rows, or the first error a row raises |
| `StatusView.ListRows` | src/denzel_cli/commands.py:139-146 | the loop over the buckets computes the whole listing, or the first error |
| `StatusView.AllRowsShown` | src/denzel_cli/commands.py:139-146 | every listed row obeys the port rule and names a service of the bucket of its status |
| `StatusView.AllRowsCover` | src/denzel_cli/commands.py:139-146 | every service of every listed bucket has a row under that bucket's status, so a bucket without a status cannot be listed unless empty |
| `StatusView.AllRowsListing` | src/denzel_cli/commands.py:139-146 | a listing holds a row for every service of every bucket under that bucket's status, and every row obeys the port rule and names a service of its bucket |
| `StatusView.NotCreatedReported` | src/denzel_cli/commands.py:126-129 | "not created" is reported exactly when no resolved service classifies as UP or DOWN |
| `StatusView.RowsListing` | src/denzel_cli/commands.py:137-146 | for well-formed buckets with no empty bucket, a successful listing had no statusless bucket, and lists exactly the bucketed services, each under its status |
| `StatusView.ShownListing` | src/denzel_cli/commands.py:137-154 | a shown listing had no statusless bucket, lists every bucketed service under its status with the port rule, and shows workers exactly when `monitor` is UP; the workers shown are what the monitor query returned |
| `StatusView.WorkersFailStatus` | src/denzel_cli/commands.py:148-150 | with `monitor` UP and the rows printable, a monitor query that fails makes `status` fail with that same error |
| `Legacy.LegacyProjectNameIn` | build/lib/cli/utils.py:22-31 | the value of the first line naming the project, with every `_` removed; raises when no line names the project, and raises the `IndexError` exactly when the first line naming it holds no `=` |
| `Legacy.LegacyNameIsNewerWithoutUnderscores` | build/lib/cli/utils.py:22-31 | the older name is the newer one without underscores; where the newer version gives `None`, the older one raises |
| `Legacy.PsTokens` | build/lib/cli/utils.py:52-58 | empty lines are skipped; a non-empty line with no field raises exactly when one exists |
| `Legacy.NonEmptyLines` | build/lib/cli/utils.py:52-55 | the lines the loop does not skip: exactly the non-empty ones |
| `Legacy.PsTokensFields` | build/lib/cli/utils.py:52-58 | when nothing raises, the tokens are one for one and in order `split()[0]` of the non-empty lines |
| `Legacy.DescriptorAfterProject` | build/lib/cli/utils.py:59-61 | with an underscore-free project name, `split('_')[1]` of a matched name is the matched service |
| `Legacy.LegacyGetContainersNames` | build/lib/cli/utils.py:40-64 | the loop over the `ps` lines computes the newer resolver over their first fields |
| `Legacy.LegacyNamesLoop` | build/lib/cli/utils.py:52-62 | the loop over the `ps` lines, skipping empty ones and keying each match by its descriptor, computes the resolution of their first fields |
| `Legacy.LegacyKeysAreServices` | build/lib/cli/utils.py:48-62 | the older resolver's keys are services |
| `Legacy.UpDownPartition` | build/lib/cli/utils.py:74-80 | up and down hold exactly the descriptors whose container is live and not live, and together have as many entries as there are descriptors |
| `Legacy.NoMarkersAgree` | build/lib/cli/utils.py:74-80 | without markers the newer UP and DOWN buckets equal the older up and down lists |
| `Legacy.LegacyGetContainersStatus` | build/lib/cli/utils.py:67-82 | the loop computes the (up, down) lists of the resolved descriptors |
| `Legacy.SplitUpDown` | build/lib/cli/utils.py:74-80 | the loop over the resolved descriptors computes the (up, down) lists by liveness, in order |
| `Legacy.LegacyStatusPartition` | build/lib/cli/utils.py:67-82 | the older status is a disjoint cover of the resolved descriptors, decided by liveness |
| `Legacy.StripVersion` | build/lib/cli/utils.py:97 | the longest `=`-free prefix of a requirement |
| `Legacy.VersionStripped` | build/lib/cli/utils.py:97 | `name==version` and `name` both strip to `name` |
| `Legacy.IsInstalled` | build/lib/cli/utils.py:85-99 | one answer per package, in order, each true exactly when `pip show` of the bare name exits 0 |
| `Legacy.InstalledIgnoresPin` | build/lib/cli/utils.py:97-99 | two pins of the same package get the same answer |
| `Legacy.AppendToRequirements` | build/lib/cli/utils.py:102-104 | the requirements file, created if absent, gains the packages joined by newlines and a final newline; nothing else changes |
| `Legacy.RequirementsAppendedLines` | build/lib/cli/utils.py:102-104 | on a file ending with a newline, the old lines are kept and one line per package is added (a lone newline for none) |
| `Legacy.AppendKeepsPrefix` | build/lib/cli/utils.py:102-104 | the old text is a prefix of the new one, and every other file is unchanged |
| `Pipeline.ExampleError` | tests/assets/pipeline.py:29-39 | an example passes exactly when it is a mapping holding every feature with only float values |
| `Pipeline.ExamplesError` | tests/assets/pipeline.py:29-39 | no error exactly when every example passes; otherwise the error of the first failing example, in key order |
| `Pipeline.DataError` | tests/assets/pipeline.py:29-39 | no error exactly when every example of the mapping passes the feature checks |
| `Pipeline.VerifyInput` | tests/assets/pipeline.py:7-41 | missing `callback_uri`, then missing `data`, then non-mapping `data`, each with its own error; success exactly when every example passes, returning the request unchanged |
| `Pipeline.Row` | tests/assets/pipeline.py:71 | four values, in FEATURES order, taken from the example's float features |
| `Pipeline.Process` | tests/assets/pipeline.py:56-79 | the ids in key order, and one row per id in the same order, holding that example's features in FEATURES order |
| `Pipeline.Zip` | tests/assets/pipeline.py:99 | pairs by position, as many as the shorter input |
| `Pipeline.DictOfDistinct` | tests/assets/pipeline.py:99 | `dict` of pairs with distinct keys keeps their order and values |
| `Pipeline.DictOfKeys` | tests/assets/pipeline.py:99 | the keys of `dict(pairs)` are exactly the pairs' keys |
| `Pipeline.PredictionsKeyedByIds` | tests/assets/pipeline.py:82-101 | with one prediction per verified example, the answer maps each request id, in order, to its own prediction |
| `Pipeline.PredictTruncates` | tests/assets/pipeline.py:99 | only ids with a prediction at their position appear in the answer |

## Left out

- Docker, docker-compose, `subprocess`, `netstat` and the monitor's HTTP endpoint are not executed. The container listings, the `ps` text, the listening addresses, the exec exit code and the HTTP outcome are inputs. Issued commands are recorded, not run.
- Floating point: the response timeout is a `real`, and its rendering with `str(timeout)` is not modelled. Pipeline feature values are `real`s.
- The regular expression is modelled for project names holding no regex metacharacters.
- `str.split()` and `strip()` remove the characters `str.isspace()` accepts; `lower()` is modelled on ASCII letters only.
- `os.listdir` order is taken to be creation order. A file created later comes last.
- `status`: the `--live` polling loop (`sleep(1)` and re-reading) is left out, and `StatusView.ShowStatus` models one pass. The display (echo, colours, `click.clear`) is left out, and the listing is returned as rows.
- `create_project`: the `copytree` copy of the template is left out, and only the ignore patterns are kept. Only the destination check and the text of `.env` are modelled. `is_gpu` and `image_exists` only choose what `launch` prints, so they are left out; `launch` still reads `image_name` and `image_tag` back.
- `Markers.SlugsWellFormed`, `Markers.MarkerRoundTrip`: proved for the status texts `Config.Value` fixes; the real `config.Status` values are not part of this model, so the round trip is not established for them.
- The eight consecutive `write` calls of `create_project` are modelled as one loop over the keys and the values `Commands.EnvValues` lists for them, in the same order; the text written is the same.
- `Strings.Lines`: splits file text at `\n` only. Python reads `.env` in text mode, with universal newlines, where `\r` and `\r\n` also end a line and read back as `\n`. A `.env` with `\r` line ends therefore reads differently here, and on the lines `launch` does not rewrite the model keeps a `\r` that Python writes back as `\n`. The `ps` output is split with an explicit `split('\n')`, which the model matches.
- The directory is flat: `logs/worker.log` and `requirements.txt` are plain names.
- `verify_input`: a non-mapping example is modelled as an error (Python's `AttributeError` on `.keys()`). `Pipeline.Process` takes a request that passed `verify_input`, as its docstring demands. The numpy conversion, the pickled model, `load_model` and `model.predict` are left out, and predictions are an input sequence.
- `Commands.IsPortTaken`: `grep` matches anywhere in a line, so a longer port that starts with the same digits also counts as taken. The model keeps this, as `Commands.LongerPortShadows` shows.
- `Commands.IsPortTaken`: the pattern `0.0.0.0:<port>` is a regular expression whose `.` matches any character; the model tests it as literal text, so a line with other characters where the dots are (such as `0-0-0-0:<port>`) is not reported taken although `grep` would report it.
- `Commands.UpdateReqs`: the restart runs while both markers exist, so the `status` computed during it would see them.
- The Falcon handlers, the Celery tasks, the template logic stubs, the CLI wiring in scripts/cli.py and setup.py are not part of this model.
