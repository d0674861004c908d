/**
 * The commands the CLI offers (src/denzel_cli/commands.py): creating a
 * project skeleton, launching it, the container lifecycle, the requirement
 * updates, and the log, shell and response commands. Every command but the
 * first runs in the project directory, modelled by a `Project`, and is
 * specified by the `Effect` it has there.
 */
module Commands {
  import opened Wrappers
  import opened Strings
  import opened PyDict
  import opened Config
  import opened Workspace
  import opened Markers
  import opened EnvFile
  import opened Containers
  import opened Redis

  // ---------------- create_project ----------------

  /** The keys `create_project` writes into `.env`, in order. */
  const ENV_KEYS: seq<string> :=
    ["COMPOSE_PROJECT_NAME", "api_port", "monitor_port", "image_name", "image_tag", "dockerfile", "runtime", "redis_image_tag"]

  /** The values written for those keys: the GPU variant changes the image name, the Dockerfile and the runtime. */
  function EnvValues(projectName: string, useGpu: bool): (vs: seq<string>)
    ensures |vs| == |ENV_KEYS| && vs[0] == projectName
  {
    [projectName, IntToString(API_PORT), IntToString(MONITOR_PORT),
     DENZEL_IMAGE_NAME + (if useGpu then "-gpu" else ""), DENZEL_IMAGE_TAG,
     "Dockerfile" + (if useGpu then ".gpu" else ""), if useGpu then "nvidia" else "runc", REDIS_IMAGE_TAG]
  }

  /**
   * The GPU variant runs the `denzel-gpu` image built from `Dockerfile.gpu`
   * under the `nvidia` runtime; the CPU variant runs `denzel` from
   * `Dockerfile` under `runc`. The other values do not depend on the choice.
   */
  lemma GpuChoice(projectName: string, useGpu: bool)
    ensures var vs := EnvValues(projectName, useGpu);
      && (useGpu ==> vs[3] == "denzel-gpu" && vs[5] == "Dockerfile.gpu" && vs[6] == "nvidia")
      && (!useGpu ==> vs[3] == "denzel" && vs[5] == "Dockerfile" && vs[6] == "runc")
  {
    GpuSuffix(DENZEL_IMAGE_NAME, "denzel", useGpu, "-gpu");
    GpuSuffix("Dockerfile", "Dockerfile", useGpu, ".gpu");
  }

  /** The project name, the ports and the image tags are the same in both variants. */
  lemma GpuShared(projectName: string)
    ensures var gpu, cpu := EnvValues(projectName, true), EnvValues(projectName, false);
      gpu[0] == cpu[0] && gpu[1] == cpu[1] && gpu[2] == cpu[2] && gpu[4] == cpu[4] && gpu[7] == cpu[7]
  {
  }

  lemma GpuSuffix(base: string, text: string, useGpu: bool, suffix: string)
    requires base == text
    ensures useGpu ==> base + (if useGpu then suffix else "") == text + suffix
    ensures !useGpu ==> base + (if useGpu then suffix else "") == text
  {
    assert text + "" == text;
  }

  /** The Dockerfile variant the template copy leaves out: the one the deployment does not use. */
  function IgnoredDockerfile(useGpu: bool): string {
    if useGpu then "Dockerfile" else "Dockerfile.gpu"
  }

  /** A new project: the template entries the copy skips, and the text of its `.env`. */
  datatype Skeleton = Skeleton(ignored: seq<string>, env: string)

  /**
   * `create_project`: refuses an existing destination, otherwise copies the
   * template without the unused Dockerfile and writes the eight `.env` lines.
   * The eight consecutive writes are taken as one pass over ENV_KEYS and the
   * values EnvValues lists for them, in the same order.
   */
  method CreateProject(cwd: Dir, projectName: string, useGpu: bool) returns (r: Result<Skeleton, Error>)
    ensures r.Err? <==> cwd.Exists(projectName)
    ensures r.Err? ==> r.error == DirectoryExists(projectName)
    ensures r.Ok? ==> r.value.env == Concat(Assignments(ENV_KEYS, EnvValues(projectName, useGpu)))
    ensures r.Ok? ==> r.value.ignored == [IgnoredDockerfile(useGpu), "__pycache__"]
    ensures r.Ok? ==> EnvValues(projectName, useGpu)[5] !in r.value.ignored
  {
    if cwd.Exists(projectName) {
      return Err(DirectoryExists(projectName));
    }
    var values := EnvValues(projectName, useGpu);
    var env := "";
    for k := 0 to |ENV_KEYS|
      invariant env == Concat(Assignments(ENV_KEYS[..k], values[..k]))
    {
      WriteAssignment(ENV_KEYS, values, k);
      env := env + Assignment(ENV_KEYS[k], values[k]);
    }
    WholePrefix(ENV_KEYS);
    WholePrefix(values);
    DockerfileKept(projectName, useGpu);
    r := Ok(Skeleton([IgnoredDockerfile(useGpu), "__pycache__"], env));
  }

  /** Writing the assignment of key `k` after those of the keys before it. */
  lemma WriteAssignment(keys: seq<string>, values: seq<string>, k: nat)
    requires |keys| == |values| && k < |keys|
    ensures Concat(Assignments(keys[..k + 1], values[..k + 1]))
      == Concat(Assignments(keys[..k], values[..k])) + Assignment(keys[k], values[k])
  {
    assert keys[..k + 1][..k] == keys[..k] && values[..k + 1][..k] == values[..k];
    ConcatSnoc(Assignments(keys[..k], values[..k]), Assignment(keys[k], values[k]));
  }

  /** The Dockerfile `.env` names is never the one the copy ignores. */
  lemma DockerfileKept(projectName: string, useGpu: bool)
    ensures EnvValues(projectName, useGpu)[5] !in [IgnoredDockerfile(useGpu), "__pycache__"]
  {
    var f := EnvValues(projectName, useGpu)[5];
    assert |f| == if useGpu then 14 else 10;
    assert |IgnoredDockerfile(useGpu)| == if useGpu then 10 else 14;
  }

  /** A value without whitespace reads back as itself. */
  lemma NoWhitespaceClean(v: string)
    requires forall i :: 0 <= i < |v| ==> v[i] !in Whitespace
    ensures CleanValue(v)
  {
    StripNoop(v, Whitespace);
  }

  lemma IntClean(n: int)
    ensures CleanValue(IntToString(n))
  {
    var s := IntToString(n);
    forall i | 0 <= i < |s| ensures s[i] !in Whitespace {
      assert IsDigit(s[i]) || s[i] == '-';
    }
    NoWhitespaceClean(s);
  }

  /**
   * The `.env` of a new project reads back as written: the eight keys in
   * order with their values (when the project name has no surrounding
   * whitespace and no newline).
   */
  lemma CreatedEnvReadsBack(projectName: string, useGpu: bool)
    requires CleanValue(projectName)
    ensures var lines := Lines(Concat(Assignments(ENV_KEYS, EnvValues(projectName, useGpu))));
      && ParseEnv(lines).Ok? && ParseEnv(lines).value.Valid() && ParseEnv(lines).value.keys == ENV_KEYS
      && (forall i :: 0 <= i < |ENV_KEYS| ==> ParseEnv(lines).value.vals[ENV_KEYS[i]] == EnvValues(projectName, useGpu)[i])
  {
    var vs := EnvValues(projectName, useGpu);
    EnvValuesClean(projectName, useGpu);
    EnvKeysWellFormed();
    assert forall i :: 0 <= i < |ENV_KEYS| ==> '=' !in ENV_KEYS[i] && '\n' !in ENV_KEYS[i] && CleanValue(vs[i]);
    WrittenTextReadsBack(ENV_KEYS, vs);
  }

  /** The project name `get_project_name` finds in a new project's `.env` is the one given. */
  lemma CreatedProjectName(projectName: string, useGpu: bool)
    requires CleanValue(projectName)
    ensures ProjectNameIn(Lines(Concat(Assignments(ENV_KEYS, EnvValues(projectName, useGpu))))) == Ok(Some(projectName))
  {
    var vs := EnvValues(projectName, useGpu);
    var lines := Assignments(ENV_KEYS, vs);
    EnvValuesClean(projectName, useGpu);
    EnvKeysWellFormed();
    WrittenEnvReadsBack(ENV_KEYS, vs);
    assert lines[0] == Assignment(PROJECT_NAME_MARKER, projectName);
    AssignmentReadsBack(PROJECT_NAME_MARKER, projectName);
    HasKeyContains(lines[0], PROJECT_NAME_MARKER);
  }

  lemma EnvValuesClean(projectName: string, useGpu: bool)
    requires CleanValue(projectName)
    ensures forall v :: v in EnvValues(projectName, useGpu) ==> CleanValue(v) && '\n' !in v
  {
    IntClean(API_PORT);
    IntClean(MONITOR_PORT);
    ImageValuesClean(useGpu);
    BuildValuesClean(useGpu);
    CleanEight(EnvValues(projectName, useGpu), projectName, IntToString(API_PORT), IntToString(MONITOR_PORT),
      DENZEL_IMAGE_NAME + (if useGpu then "-gpu" else ""), DENZEL_IMAGE_TAG,
      "Dockerfile" + (if useGpu then ".gpu" else ""), if useGpu then "nvidia" else "runc", REDIS_IMAGE_TAG);
  }

  lemma CleanEight(vs: seq<string>, a: string, b: string, c: string, d: string, e: string, f: string, g: string, h: string)
    requires vs == [a, b, c, d, e, f, g, h]
    requires CleanValue(a) && CleanValue(b) && CleanValue(c) && CleanValue(d)
    requires CleanValue(e) && CleanValue(f) && CleanValue(g) && CleanValue(h)
    ensures forall v :: v in vs ==> CleanValue(v) && '\n' !in v
  {
  }

  /** The image name, image tag and redis tag hold no whitespace. */
  lemma ImageValuesClean(useGpu: bool)
    ensures CleanValue(DENZEL_IMAGE_NAME + (if useGpu then "-gpu" else "")) && CleanValue(DENZEL_IMAGE_TAG)
    ensures CleanValue(REDIS_IMAGE_TAG)
  {
    NoWhitespaceClean(DENZEL_IMAGE_NAME + (if useGpu then "-gpu" else ""));
    NoWhitespaceClean(DENZEL_IMAGE_TAG);
    NoWhitespaceClean(REDIS_IMAGE_TAG);
  }

  /** The Dockerfile and runtime values hold no whitespace. */
  lemma BuildValuesClean(useGpu: bool)
    ensures CleanValue("Dockerfile" + (if useGpu then ".gpu" else ""))
    ensures CleanValue(if useGpu then "nvidia" else "runc")
  {
    NoWhitespaceClean("Dockerfile" + (if useGpu then ".gpu" else ""));
    NoWhitespaceClean(if useGpu then "nvidia" else "runc");
  }

  lemma EnvKeysWellFormed()
    ensures DistinctKeys(ENV_KEYS)
    ensures forall i :: 0 <= i < |ENV_KEYS| ==> '=' !in ENV_KEYS[i] && '\n' !in ENV_KEYS[i]
  {
    EnvKeysDistinct();
    EnvKeysClean();
  }

  lemma EnvKeysDistinct()
    ensures DistinctKeys(ENV_KEYS)
  {
  }

  lemma EnvKeysClean()
    ensures forall i :: 0 <= i < |ENV_KEYS| ==> '=' !in ENV_KEYS[i] && '\n' !in ENV_KEYS[i]
  {
  }

  // ---------------- launch ----------------

  /**
   * `is_port_taken`: some local address `netstat` lists contains
   * `0.0.0.0:<port>` (grep matches substrings).
   */
  function IsPortTaken(port: int, listening: seq<string>): (b: bool)
    ensures b <==> exists i :: 0 <= i < |listening| && Contains(listening[i], "0.0.0.0:" + IntToString(port))
  {
    if listening == [] then false
    else
      var rest := IsPortTaken(port, listening[1..]);
      assert rest <==> exists i :: 1 <= i < |listening| && Contains(listening[i], "0.0.0.0:" + IntToString(port)) by {
        if rest {
          var i :| 0 <= i < |listening[1..]| && Contains(listening[1..][i], "0.0.0.0:" + IntToString(port));
          assert listening[i + 1] == listening[1..][i];
        }
        if exists i :: 1 <= i < |listening| && Contains(listening[i], "0.0.0.0:" + IntToString(port)) {
          var i :| 1 <= i < |listening| && Contains(listening[i], "0.0.0.0:" + IntToString(port));
          assert listening[1..][i - 1] == listening[i];
        }
      }
      Contains(listening[0], "0.0.0.0:" + IntToString(port)) || rest
  }

  /** A port bound on all interfaces is reported taken. */
  lemma BoundPortTaken(port: int, listening: seq<string>, i: nat)
    requires i < |listening| && listening[i] == "0.0.0.0:" + IntToString(port)
    ensures IsPortTaken(port, listening)
  {
    assert Contains(listening[i], "0.0.0.0:" + IntToString(port));
  }

  /** Because the match is by substring, port 80 counts as taken while only port 8000 is bound. */
  lemma LongerPortShadows()
    ensures IsPortTaken(80, ["0.0.0.0:8000"])
  {
    PortEighty(80);
    PrefixOfLonger("0.0.0.0:80", "0.0.0.0:8000");
    BoundPortTakenPrefix("0.0.0.0:80", "0.0.0.0:8000");
    TakenByOnly(80, "0.0.0.0:8000");
  }

  lemma PortEighty(port: int)
    requires port == 80
    ensures "0.0.0.0:" + IntToString(port) == "0.0.0.0:80"
  {
    assert NatToString(8) == "8";
  }

  lemma PrefixOfLonger(p: string, s: string)
    requires p == "0.0.0.0:80" && s == "0.0.0.0:8000"
    ensures IsPrefix(p, s)
  {
    assert s[..|p|] == p;
  }

  /** A single listed address that contains the port's pattern makes the port taken. */
  lemma TakenByOnly(port: int, address: string)
    requires Contains(address, "0.0.0.0:" + IntToString(port))
    ensures IsPortTaken(port, [address])
  {
    assert [address][0] == address;
  }

  lemma BoundPortTakenPrefix(p: string, s: string)
    requires IsPrefix(p, s)
    ensures Contains(s, p)
  {
  }

  /** One line of the `.env` rewrite: a line mentioning a port key is replaced by the new assignment. */
  function RewriteLine(line: string, api: int, monitor: int): string {
    if Contains(line, "api_port") then Assignment("api_port", IntToString(api))
    else if Contains(line, "monitor_port") then Assignment("monitor_port", IntToString(monitor))
    else line
  }

  function Rewritten(lines: seq<string>, api: int, monitor: int): (r: seq<string>)
    ensures |r| == |lines|
    ensures forall i :: 0 <= i < |lines| ==> r[i] == RewriteLine(lines[i], api, monitor)
  {
    seq(|lines|, i requires 0 <= i < |lines| => RewriteLine(lines[i], api, monitor))
  }

  /** The loop of `launch` writing `.env` back, line by line. */
  method RewriteEnv(lines: seq<string>, api: int, monitor: int) returns (text: string)
    ensures text == Concat(Rewritten(lines, api, monitor))
  {
    text := "";
    var i := 0;
    while i < |lines|
      invariant 0 <= i <= |lines|
      invariant text == Concat(Rewritten(lines[..i], api, monitor))
    {
      var line := lines[i];
      var out := line;
      if Contains(line, "api_port") {
        out := Assignment("api_port", IntToString(api));
      } else if Contains(line, "monitor_port") {
        out := Assignment("monitor_port", IntToString(monitor));
      }
      assert out == RewriteLine(line, api, monitor);
      RewriteStep(lines, i, api, monitor);
      text := text + out;
      assert text == Concat(Rewritten(lines[..i + 1], api, monitor));
      i := i + 1;
    }
    assert lines[..i] == lines;
  }

  /** The text written for the first `i + 1` lines extends the text for the first `i` by line `i`, rewritten. */
  lemma RewriteStep(lines: seq<string>, i: nat, api: int, monitor: int)
    requires i < |lines|
    ensures Concat(Rewritten(lines[..i + 1], api, monitor))
      == Concat(Rewritten(lines[..i], api, monitor)) + RewriteLine(lines[i], api, monitor)
  {
    RewrittenSnoc(lines, i, api, monitor);
    ConcatSnoc(Rewritten(lines[..i], api, monitor), RewriteLine(lines[i], api, monitor));
  }

  /** Rewriting keeps the shape of file lines, so the rewritten text splits back into the same lines. */
  lemma RewrittenReadsBack(lines: seq<string>, api: int, monitor: int)
    requires WellFormedLines(lines)
    ensures Lines(Concat(Rewritten(lines, api, monitor))) == Rewritten(lines, api, monitor)
  {
    var r := Rewritten(lines, api, monitor);
    forall i | 0 <= i < |r|
      ensures IsLine(r[i]) && (i < |r| - 1 ==> r[i][|r[i]| - 1] == '\n')
    {
      RewriteLineShape(lines[i], api, monitor);
    }
    LinesLemmaBridge(r);
  }

  /** A line is either kept or replaced by a whole assignment line ending in its newline. */
  lemma RewriteLineShape(line: string, api: int, monitor: int)
    ensures RewriteLine(line, api, monitor) == line
      || (IsLine(RewriteLine(line, api, monitor)) && RewriteLine(line, api, monitor)[|RewriteLine(line, api, monitor)| - 1] == '\n')
  {
    if Contains(line, "api_port") {
      IntNoNewline(api);
      AssignmentLine("api_port", IntToString(api));
    } else if Contains(line, "monitor_port") {
      IntNoNewline(monitor);
      AssignmentLine("monitor_port", IntToString(monitor));
    }
  }

  lemma IntNoNewline(n: int)
    ensures '\n' !in IntToString(n)
  {
    var s := IntToString(n);
    forall i | 0 <= i < |s| ensures s[i] != '\n' {
      assert IsDigit(s[i]) || s[i] == '-';
    }
  }

  /** The rewrite of one more line appends that line's rewrite. */
  lemma RewrittenSnoc(lines: seq<string>, i: nat, api: int, monitor: int)
    requires i < |lines|
    ensures Rewritten(lines[..i + 1], api, monitor) == Rewritten(lines[..i], api, monitor) + [RewriteLine(lines[i], api, monitor)]
  {
  }

  /** An assignment of a newline-free key and value is one line. */
  lemma AssignmentLine(key: string, v: string)
    requires '\n' !in key && '\n' !in v
    ensures IsLine(Assignment(key, v)) && Assignment(key, v)[|Assignment(key, v)| - 1] == '\n'
  {
    var a := Assignment(key, v);
    assert a[..|a| - 1] == key + "=" + v;
  }

  lemma LinesLemmaBridge(r: seq<string>)
    requires forall i :: 0 <= i < |r| ==> IsLine(r[i]) && (i < |r| - 1 ==> r[i][|r[i]| - 1] == '\n')
    ensures Lines(Concat(r)) == r
  {
    LinesConcat(r);
  }

  /** After the rewrite a line assigns `api_port` exactly when the original mentioned it, and then to the new port. */
  lemma RewriteLineApi(line: string, api: int, monitor: int)
    ensures HasKey(RewriteLine(line, api, monitor), "api_port") <==> Contains(line, "api_port")
    ensures HasKey(RewriteLine(line, api, monitor), "api_port") ==> ValueOf(RewriteLine(line, api, monitor)) == IntToString(api)
  {
    IntClean(api);
    IntClean(monitor);
    AssignmentReadsBack("api_port", IntToString(api));
    AssignmentReadsBack("monitor_port", IntToString(monitor));
    if !Contains(line, "api_port") && !Contains(line, "monitor_port") && HasKey(line, "api_port") {
      HasKeyContains(line, "api_port");
    }
  }

  /**
   * After the rewrite a line assigns `monitor_port` exactly when the original
   * mentioned it and not `api_port` (that test comes first), and then to the
   * new port.
   */
  lemma RewriteLineMonitor(line: string, api: int, monitor: int)
    ensures HasKey(RewriteLine(line, api, monitor), "monitor_port")
      <==> Contains(line, "monitor_port") && !Contains(line, "api_port")
    ensures HasKey(RewriteLine(line, api, monitor), "monitor_port") ==> ValueOf(RewriteLine(line, api, monitor)) == IntToString(monitor)
  {
    IntClean(api);
    IntClean(monitor);
    AssignmentReadsBack("api_port", IntToString(api));
    AssignmentReadsBack("monitor_port", IntToString(monitor));
    if !Contains(line, "api_port") && !Contains(line, "monitor_port") && HasKey(line, "monitor_port") {
      HasKeyContains(line, "monitor_port");
    }
  }

  /** `read_env` after the rewrite gives the new API port, if any line mentioned `api_port`. */
  lemma RewrittenApiPort(lines: seq<string>, api: int, monitor: int)
    requires WellFormedLines(lines)
    ensures var env := ParseEnv(Lines(Concat(Rewritten(lines, api, monitor))));
      env.Ok? ==> (env.value.Get("api_port") ==
        if exists i :: 0 <= i < |lines| && Contains(lines[i], "api_port") then Some(IntToString(api)) else None)
  {
    var r := Rewritten(lines, api, monitor);
    RewrittenReadsBack(lines, api, monitor);
    forall i | 0 <= i < |r|
      ensures (HasKey(r[i], "api_port") <==> Contains(lines[i], "api_port"))
      ensures HasKey(r[i], "api_port") ==> ValueOf(r[i]) == IntToString(api)
    {
      RewriteLineApi(lines[i], api, monitor);
    }
    ParseEnvLastWins(r);
    LastValueUniform(r, "api_port", IntToString(api));
  }

  /** `read_env` after the rewrite gives the new monitor port, if a line mentioned `monitor_port` but not `api_port`. */
  lemma RewrittenMonitorPort(lines: seq<string>, api: int, monitor: int)
    requires WellFormedLines(lines)
    ensures var env := ParseEnv(Lines(Concat(Rewritten(lines, api, monitor))));
      env.Ok? ==> (env.value.Get("monitor_port") ==
        if exists i :: 0 <= i < |lines| && Contains(lines[i], "monitor_port") && !Contains(lines[i], "api_port")
        then Some(IntToString(monitor)) else None)
  {
    var r := Rewritten(lines, api, monitor);
    RewrittenReadsBack(lines, api, monitor);
    forall i | 0 <= i < |r|
      ensures (HasKey(r[i], "monitor_port") <==> Contains(lines[i], "monitor_port") && !Contains(lines[i], "api_port"))
      ensures HasKey(r[i], "monitor_port") ==> ValueOf(r[i]) == IntToString(monitor)
    {
      RewriteLineMonitor(lines[i], api, monitor);
    }
    ParseEnvLastWins(r);
    LastValueUniform(r, "monitor_port", IntToString(monitor));
  }

  // ---------------- effects of the commands run in a project ----------------

  /** What a command does: its outcome, the directory afterwards, and the commands it issued. */
  datatype Effect = Effect(result: Result<(), Error>, files: Dir, issued: seq<Entry>)

  /** A command that raised before issuing anything, leaving the directory `d`. */
  function Refused(d: Dir, e: Error): Effect {
    Effect(Err(e), d, [])
  }

  /** `subprocess.run(argv)` while the directory is `d`. */
  function Issue(d: Dir, argv: seq<string>): Entry {
    Entry(Subprocess(argv), d.content.Keys)
  }

  /** `p` ended in the state `e` describes, `log0` being its log before the command. */
  ghost predicate Applied(p: Project, e: Effect, log0: seq<Entry>, r: Result<(), Error>)
    reads p
  {
    p.Valid() && r == e.result && p.Files() == e.files && p.log == log0 + e.issued
  }

  const UP_COMMAND: seq<string> := ["docker-compose", "up", "-d", "--no-recreate"]

  /** The checks `launch` makes before changing anything, in order; `None` when all pass. */
  function LaunchGate(d: Dir, rt: Runtime, api: int, monitor: int): (g: Option<Error>)
    ensures g.None? ==> d.Exists(ENV_FILE)
  {
    if !d.Exists(ENV_FILE) then Some(NotInProject)
    else
      match ContainersNamesOf(d, rt)
      case Err(e) => Some(e)
      case Ok(names) =>
        if names.vals != map[] then Some(AlreadyLaunched)
        else if IsPortTaken(api, rt.listening) then Some(PortTaken(api))
        else if IsPortTaken(monitor, rt.listening) then Some(PortTaken(monitor))
        else None
  }

  /** The directory after `launch` has written the new ports into `.env`. */
  function RewrittenEnv(d: Dir, api: int, monitor: int): Dir
    requires d.Exists(ENV_FILE)
  {
    d.Write(ENV_FILE, Concat(Rewritten(Lines(d.content[ENV_FILE]), api, monitor)))
  }

  /** The marker `launch` leaves for the startup scripts to delete. */
  function BuildingMarker(): string {
    MarkerName(BUILDING, "")
  }

  /** What `launch` does in directory `d`. */
  function LaunchOf(d: Dir, rt: Runtime, api: int, monitor: int): Effect {
    match LaunchGate(d, rt, api, monitor)
    case Some(e) => Refused(d, e)
    case None =>
      var d1 := RewrittenEnv(d, api, monitor);
      match ReadEnvOf(d1)
      case Err(e) => Refused(d1, e)
      case Ok(env) =>
        if "image_name" !in env.vals then Refused(d1, MissingEnvKey("image_name"))
        else if "image_tag" !in env.vals then Refused(d1, MissingEnvKey("image_tag"))
        else
          var d2 := d1.Touch(BuildingMarker());
          Effect(Ok(()), d2, [Issue(d2, UP_COMMAND)])
  }

  /** The checks of `launch`, made before it changes anything: the first that fails, if any. */
  method LaunchChecks(p: Project, rt: Runtime, api: int, monitor: int) returns (g: Option<Error>)
    requires p.Valid()
    ensures g == LaunchGate(p.Files(), rt, api, monitor)
  {
    var located := p.VerifyLocation();
    if located.Err? {
      return Some(located.error);
    }
    var names := GetContainersNames(p, rt);
    if names.Err? {
      return Some(names.error);
    }
    if names.value.vals != map[] {
      return Some(AlreadyLaunched);
    }
    if IsPortTaken(api, rt.listening) {
      return Some(PortTaken(api));
    }
    if IsPortTaken(monitor, rt.listening) {
      return Some(PortTaken(monitor));
    }
    g := None;
  }

  /**
   * `launch`: refuses outside a project, when containers already exist or a
   * port is taken; otherwise writes the ports into `.env`, reads it back, and
   * brings the services up with the building marker in place, which it does
   * not remove.
   */
  method Launch(p: Project, rt: Runtime, api: int, monitor: int) returns (r: Result<(), Error>)
    requires p.Valid()
    modifies p
    ensures Applied(p, LaunchOf(old(p.Files()), rt, api, monitor), old(p.log), r)
  {
    ghost var d0 := p.Files();
    var gate := LaunchChecks(p, rt, api, monitor);
    if gate.Some? {
      return Err(gate.value);
    }
    var text := RewriteEnv(Lines(p.content[ENV_FILE]), api, monitor);
    p.Write(ENV_FILE, text);
    assert p.Files() == RewrittenEnv(d0, api, monitor);
    var env := ReadEnv(p);
    if env.Err? {
      return Err(env.error);
    }
    if "image_name" !in env.value.vals {
      return Err(MissingEnvKey("image_name"));
    }
    if "image_tag" !in env.value.vals {
      return Err(MissingEnvKey("image_tag"));
    }
    var marker := EnterStatus(p, BUILDING, "");
    p.Run(Subprocess(UP_COMMAND));
    ExitStatus(p, marker, false);
    r := Ok(());
  }

  /** A refused launch changes nothing and issues nothing. */
  lemma LaunchRefusalKeepsState(d: Dir, rt: Runtime, api: int, monitor: int)
    requires LaunchGate(d, rt, api, monitor).Some?
    ensures LaunchOf(d, rt, api, monitor).result == Err(LaunchGate(d, rt, api, monitor).value)
    ensures LaunchOf(d, rt, api, monitor).files == d && LaunchOf(d, rt, api, monitor).issued == []
  {
  }

  /** A project whose containers exist is not launched again. */
  lemma LaunchedOnce(d: Dir, rt: Runtime, api: int, monitor: int)
    requires d.Exists(ENV_FILE) && ContainersNamesOf(d, rt).Ok? && ContainersNamesOf(d, rt).value.vals != map[]
    ensures LaunchOf(d, rt, api, monitor) == Refused(d, AlreadyLaunched)
  {
  }

  /**
   * Once no container is known, the api port is checked before the monitor
   * port, and `launch` goes ahead only when both are free.
   */
  lemma LaunchCheckOrder(d: Dir, rt: Runtime, api: int, monitor: int)
    requires d.Exists(ENV_FILE) && ContainersNamesOf(d, rt).Ok? && ContainersNamesOf(d, rt).value.vals == map[]
    ensures IsPortTaken(api, rt.listening) ==> LaunchOf(d, rt, api, monitor) == Refused(d, PortTaken(api))
    ensures !IsPortTaken(api, rt.listening) && IsPortTaken(monitor, rt.listening) ==>
      LaunchOf(d, rt, api, monitor) == Refused(d, PortTaken(monitor))
    ensures LaunchGate(d, rt, api, monitor).None? <==> !IsPortTaken(api, rt.listening) && !IsPortTaken(monitor, rt.listening)
  {
  }

  /** A successful launch passed every check, rewrote `.env` and then added the building marker. */
  lemma LaunchSucceeded(d: Dir, rt: Runtime, api: int, monitor: int)
    requires LaunchOf(d, rt, api, monitor).result.Ok?
    ensures LaunchGate(d, rt, api, monitor).None? && d.Exists(ENV_FILE)
    ensures ReadEnvOf(RewrittenEnv(d, api, monitor)).Ok?
    ensures var d2 := RewrittenEnv(d, api, monitor).Touch(BuildingMarker());
      LaunchOf(d, rt, api, monitor) == Effect(Ok(()), d2, [Issue(d2, UP_COMMAND)])
  {
  }

  /** The ports `read_env` finds once `launch` has rewritten `.env`. */
  lemma RewrittenEnvPorts(d: Dir, api: int, monitor: int)
    requires d.Exists(ENV_FILE)
    ensures var env := ReadEnvOf(RewrittenEnv(d, api, monitor));
      var lines := Lines(d.content[ENV_FILE]);
      env.Ok? ==>
        && env.value.Get("api_port") ==
          (if exists i :: 0 <= i < |lines| && Contains(lines[i], "api_port") then Some(IntToString(api)) else None)
        && env.value.Get("monitor_port") ==
          (if exists i :: 0 <= i < |lines| && Contains(lines[i], "monitor_port") && !Contains(lines[i], "api_port")
           then Some(IntToString(monitor)) else None)
  {
    LinesWellFormed(d.content[ENV_FILE]);
    RewrittenEnvText(d, api, monitor);
    RewrittenApiPort(Lines(d.content[ENV_FILE]), api, monitor);
    RewrittenMonitorPort(Lines(d.content[ENV_FILE]), api, monitor);
  }

  lemma RewrittenEnvText(d: Dir, api: int, monitor: int)
    requires d.Exists(ENV_FILE)
    ensures ReadEnvOf(RewrittenEnv(d, api, monitor)) == ParseEnv(Lines(Concat(Rewritten(Lines(d.content[ENV_FILE]), api, monitor))))
  {
  }

  /**
   * After a successful launch `.env` records the ports asked for (wherever a
   * line mentioned them), the building marker exists, and the services were
   * brought up while it did.
   */
  lemma LaunchRecordsPorts(d: Dir, rt: Runtime, api: int, monitor: int)
    requires LaunchOf(d, rt, api, monitor).result.Ok?
    ensures d.Exists(ENV_FILE)
    ensures var e := LaunchOf(d, rt, api, monitor);
      var lines := Lines(d.content[ENV_FILE]);
      && ReadEnvOf(e.files).Ok?
      && ReadEnvOf(e.files).value.Get("api_port") ==
        (if exists i :: 0 <= i < |lines| && Contains(lines[i], "api_port") then Some(IntToString(api)) else None)
      && ReadEnvOf(e.files).value.Get("monitor_port") ==
        (if exists i :: 0 <= i < |lines| && Contains(lines[i], "monitor_port") && !Contains(lines[i], "api_port")
         then Some(IntToString(monitor)) else None)
      && e.files.Exists(BuildingMarker())
      && e.issued == [Entry(Subprocess(UP_COMMAND), e.files.content.Keys)]
  {
    LaunchSucceeded(d, rt, api, monitor);
    RewrittenEnvPorts(d, api, monitor);
    var d1 := RewrittenEnv(d, api, monitor);
    var d2 := d1.Touch(BuildingMarker());
    assert BuildingMarker() != ENV_FILE by {
      SlugsAre(BUILDING);
      MarkerNameScheme(BUILDING, "");
    }
    assert d2.content[ENV_FILE] == d1.content[ENV_FILE];
    assert ReadEnvOf(d2) == ReadEnvOf(d1);
  }

  // ---------------- the container lifecycle ----------------

  const START_COMMAND: seq<string> := ["docker-compose", "start"]
  const STOP_COMMAND: seq<string> := ["docker-compose", "stop"]

  /** `docker-compose down`, discarding the images as well when purging. */
  function DownCommand(purge: bool): seq<string> {
    ["docker-compose", "down"] + (if purge then ["--rmi", "all"] else [])
  }

  /** A foreground `redis_backup` followed by `subprocess.run(argv)`, in project directory `d`. */
  function BackupThen(d: Dir, rt: Runtime, argv: seq<string>): Effect {
    var t := TargetOf(d, rt);
    if t.Err? then Refused(d, t.error)
    else Effect(Ok(()), d, Entries(BackupCommands(t, false), d.content.Keys) + [Issue(d, argv)])
  }

  /** What `shutdown` does in directory `d`. */
  function ShutdownOf(d: Dir, rt: Runtime, purge: bool): Effect {
    if !d.Exists(ENV_FILE) then Refused(d, NotInProject) else BackupThen(d, rt, DownCommand(purge))
  }

  /** What `stop` does in directory `d`. */
  function StopOf(d: Dir, rt: Runtime): Effect {
    if !d.Exists(ENV_FILE) then Refused(d, NotInProject) else BackupThen(d, rt, STOP_COMMAND)
  }

  /** What `start` does in directory `d`. */
  function StartOf(d: Dir): Effect {
    if !d.Exists(ENV_FILE) then Refused(d, NotInProject) else Effect(Ok(()), d, [Issue(d, START_COMMAND)])
  }

  /** What `restart` does in directory `d`: `stop`, then `start` unless `stop` raised. */
  function RestartOf(d: Dir, rt: Runtime): Effect {
    if !d.Exists(ENV_FILE) then Refused(d, NotInProject)
    else
      var stop := StopOf(d, rt);
      if stop.result.Err? then stop else Effect(Ok(()), d, stop.issued + StartOf(d).issued)
  }

  /** `redis_backup(background=False)`, then the given command. */
  method RunAfterBackup(p: Project, rt: Runtime, argv: seq<string>) returns (r: Result<(), Error>)
    requires p.Valid()
    modifies p
    ensures Applied(p, BackupThen(old(p.Files()), rt, argv), old(p.log), r)
  {
    ghost var d0 := p.Files();
    r := RedisBackup(p, rt, false);
    if r.Err? {
      return;
    }
    p.Run(Subprocess(argv));
  }

  /** `shutdown`: backs the cache up in the foreground, then takes the services down. */
  method Shutdown(p: Project, rt: Runtime, purge: bool) returns (r: Result<(), Error>)
    requires p.Valid()
    modifies p
    ensures Applied(p, ShutdownOf(old(p.Files()), rt, purge), old(p.log), r)
  {
    r := p.VerifyLocation();
    if r.Err? {
      return;
    }
    var command := ["docker-compose", "down"];
    if purge {
      command := command + ["--rmi", "all"];
    }
    assert command == DownCommand(purge);
    r := RunAfterBackup(p, rt, command);
  }

  /** `start` */
  method Start(p: Project) returns (r: Result<(), Error>)
    requires p.Valid()
    modifies p
    ensures Applied(p, StartOf(old(p.Files())), old(p.log), r)
  {
    r := p.VerifyLocation();
    if r.Err? {
      return;
    }
    p.Run(Subprocess(START_COMMAND));
  }

  /** `stop`: backs the cache up in the foreground, then stops the services. */
  method Stop(p: Project, rt: Runtime) returns (r: Result<(), Error>)
    requires p.Valid()
    modifies p
    ensures Applied(p, StopOf(old(p.Files()), rt), old(p.log), r)
  {
    r := p.VerifyLocation();
    if r.Err? {
      return;
    }
    r := RunAfterBackup(p, rt, STOP_COMMAND);
  }

  /** `restart`: `stop` then `start`. */
  method Restart(p: Project, rt: Runtime) returns (r: Result<(), Error>)
    requires p.Valid()
    modifies p
    ensures Applied(p, RestartOf(old(p.Files()), rt), old(p.log), r)
  {
    ghost var d0, log0 := p.Files(), p.log;
    r := p.VerifyLocation();
    if r.Err? {
      return;
    }
    r := Stop(p, rt);
    if r.Err? {
      return;
    }
    ghost var log1 := p.log;
    r := Start(p);
    assert p.log == log0 + (StopOf(d0, rt).issued + StartOf(d0).issued);
  }

  /** The lifecycle commands leave the project's files as they are. */
  lemma LifecycleKeepsFiles(d: Dir, rt: Runtime, purge: bool)
    ensures ShutdownOf(d, rt, purge).files == d && StopOf(d, rt).files == d
    ensures StartOf(d).files == d && RestartOf(d, rt).files == d
  {
  }

  /**
   * `stop` persists the cache before stopping: when redis is UP it issues a
   * foreground `save` in the cache container and then `docker-compose stop`;
   * otherwise only the latter.
   */
  lemma StopSavesFirst(d: Dir, rt: Runtime)
    requires d.Exists(ENV_FILE) && ContainersStatusOf(d, rt).Ok?
    ensures StopOf(d, rt).result == Ok(())
    ensures RedisUp(ContainersStatusOf(d, rt)) ==>
      ContainersNamesOf(d, rt).Ok? && "redis" in ContainersNamesOf(d, rt).value.vals
      && StopOf(d, rt).issued == [Entry(RedisExec(ContainersNamesOf(d, rt).value.vals["redis"], Save), d.content.Keys), Issue(d, STOP_COMMAND)]
    ensures !RedisUp(ContainersStatusOf(d, rt)) ==> StopOf(d, rt).issued == [Issue(d, STOP_COMMAND)]
  {
    StopIssues(d, rt, TargetOf(d, rt));
  }

  /** `stop` for a given backup target: the foreground save when there is one, then `stop`. */
  lemma StopIssues(d: Dir, rt: Runtime, t: Result<Option<string>, Error>)
    requires d.Exists(ENV_FILE) && t == TargetOf(d, rt) && t.Ok?
    ensures StopOf(d, rt).result == Ok(())
    ensures StopOf(d, rt).issued ==
      (if t.value.Some? then [Entry(RedisExec(t.value.value, Save), d.content.Keys)] else []) + [Issue(d, STOP_COMMAND)]
  {
    if t.value.Some? {
      var save := RedisExec(t.value.value, Save);
      assert BackupCommands(t, false) == [save];
      EntriesSingle(save, d.content.Keys);
    } else {
      assert BackupCommands(t, false) == [];
    }
  }

  /** A successful restart ends by stopping and then starting the services, one right after the other. */
  lemma RestartStopsThenStarts(d: Dir, rt: Runtime)
    requires RestartOf(d, rt).result.Ok?
    ensures var issued := RestartOf(d, rt).issued;
      |issued| >= 2 && issued[|issued| - 2..] == [Issue(d, STOP_COMMAND), Issue(d, START_COMMAND)]
    ensures StopOf(d, rt).result.Ok?
  {
    assert d.Exists(ENV_FILE);
    var backup := Entries(BackupCommands(TargetOf(d, rt), false), d.content.Keys);
    assert StopOf(d, rt).issued == backup + [Issue(d, STOP_COMMAND)];
    assert RestartOf(d, rt).issued == backup + [Issue(d, STOP_COMMAND)] + [Issue(d, START_COMMAND)];
    LastTwo(backup, Issue(d, STOP_COMMAND), Issue(d, START_COMMAND));
  }

  lemma LastTwo<T>(s: seq<T>, a: T, b: T)
    ensures var t := s + [a] + [b]; |t| >= 2 && t[|t| - 2..] == [a, b]
  {
    var t := s + [a] + [b];
    assert t[|t| - 2] == a && t[|t| - 1] == b;
  }

  /** A failed stop makes restart fail the same way, without starting anything. */
  lemma RestartStopsOnError(d: Dir, rt: Runtime)
    requires d.Exists(ENV_FILE) && StopOf(d, rt).result.Err?
    ensures RestartOf(d, rt) == StopOf(d, rt)
    ensures forall i :: 0 <= i < |RestartOf(d, rt).issued| ==> RestartOf(d, rt).issued[i] != Issue(d, START_COMMAND)
  {
  }

  // ---------------- requirement updates ----------------

  /**
   * `with set_status(..), set_status(..), ...: restart()` in directory `d`,
   * for the marker files `markers` the blocks create: each is created on
   * entry and removed on exit, whether or not `restart` raised.
   */
  function UnderMarkers(d: Dir, rt: Runtime, markers: seq<string>): Effect
    decreases |markers|
  {
    if markers == [] then RestartOf(d, rt)
    else
      var inner := UnderMarkers(d.Touch(markers[0]), rt, markers[1..]);
      Effect(inner.result, inner.files.Delete(markers[0]), inner.issued)
  }

  /** The marker file of an update status, which names no service. */
  function UpdateMarker(st: Status): string {
    MarkerName(st, "")
  }

  /** What `updateosreqs` does in directory `d`. */
  function UpdateOsReqsOf(d: Dir, rt: Runtime): Effect {
    if !d.Exists(ENV_FILE) then Refused(d, NotInProject) else UnderMarkers(d, rt, [UpdateMarker(UPDATE_OS_REQS)])
  }

  /** What `updatepipreqs` does in directory `d`. */
  function UpdatePipReqsOf(d: Dir, rt: Runtime): Effect {
    if !d.Exists(ENV_FILE) then Refused(d, NotInProject) else UnderMarkers(d, rt, [UpdateMarker(UPDATE_PIP_REQS)])
  }

  /** What `updatereqs` does in directory `d`: the pip marker, then the OS marker. */
  function UpdateReqsOf(d: Dir, rt: Runtime): Effect {
    if !d.Exists(ENV_FILE) then Refused(d, NotInProject) else UnderMarkers(d, rt, [UpdateMarker(UPDATE_PIP_REQS), UpdateMarker(UPDATE_OS_REQS)])
  }

  /** `updateosreqs`: restarts while the OS-update marker exists. */
  method UpdateOsReqs(p: Project, rt: Runtime) returns (r: Result<(), Error>)
    requires p.Valid()
    modifies p
    ensures Applied(p, UpdateOsReqsOf(old(p.Files()), rt), old(p.log), r)
  {
    r := p.VerifyLocation();
    if r.Err? {
      return;
    }
    var marker := EnterStatus(p, UPDATE_OS_REQS, "");
    r := Restart(p, rt);
    ExitStatus(p, marker, true);
    assert [marker][1..] == [];
  }

  /** `updatepipreqs`: restarts while the pip-update marker exists. */
  method UpdatePipReqs(p: Project, rt: Runtime) returns (r: Result<(), Error>)
    requires p.Valid()
    modifies p
    ensures Applied(p, UpdatePipReqsOf(old(p.Files()), rt), old(p.log), r)
  {
    r := p.VerifyLocation();
    if r.Err? {
      return;
    }
    var marker := EnterStatus(p, UPDATE_PIP_REQS, "");
    r := Restart(p, rt);
    ExitStatus(p, marker, true);
    assert [marker][1..] == [];
  }

  /** `updatereqs`: restarts while both update markers exist; they are removed in reverse order. */
  method UpdateReqs(p: Project, rt: Runtime) returns (r: Result<(), Error>)
    requires p.Valid()
    modifies p
    ensures Applied(p, UpdateReqsOf(old(p.Files()), rt), old(p.log), r)
  {
    r := p.VerifyLocation();
    if r.Err? {
      return;
    }
    ghost var d0 := p.Files();
    var pip := EnterStatus(p, UPDATE_PIP_REQS, "");
    var os := EnterStatus(p, UPDATE_OS_REQS, "");
    r := Restart(p, rt);
    ExitStatus(p, os, true);
    ExitStatus(p, pip, true);
    UnderTwo(d0, rt, pip, os);
  }

  /** Two nested markers: both exist during the restart; the inner one is removed first. */
  lemma UnderTwo(d: Dir, rt: Runtime, outer: string, inner: string)
    ensures var e := RestartOf(d.Touch(outer).Touch(inner), rt);
      UnderMarkers(d, rt, [outer, inner]) == Effect(e.result, e.files.Delete(inner).Delete(outer), e.issued)
  {
    var e := RestartOf(d.Touch(outer).Touch(inner), rt);
    assert [inner][1..] == [];
    assert UnderMarkers(d.Touch(outer), rt, [inner]) == Effect(e.result, e.files.Delete(inner), e.issued);
    assert [outer, inner][1..] == [inner];
  }

  /** Every command a restart issues runs with the directory as it was. */
  lemma RestartPresent(d: Dir, rt: Runtime)
    ensures forall i :: 0 <= i < |RestartOf(d, rt).issued| ==> RestartOf(d, rt).issued[i].present == d.content.Keys
  {
    if d.Exists(ENV_FILE) {
      BackupThenPresent(d, rt, STOP_COMMAND);
    }
  }

  /** A backup and the command after it both run with the directory as it was. */
  lemma BackupThenPresent(d: Dir, rt: Runtime, argv: seq<string>)
    ensures forall i :: 0 <= i < |BackupThen(d, rt, argv).issued| ==> BackupThen(d, rt, argv).issued[i].present == d.content.Keys
  {
    var t := TargetOf(d, rt);
    if t.Ok? {
      var backup := Entries(BackupCommands(t, false), d.content.Keys);
      assert BackupThen(d, rt, argv).issued == backup + [Issue(d, argv)];
    }
  }

  /**
   * Everything issued under the markers runs while every one of them exists
   * (so the services show as updating), alongside every file there was before.
   */
  lemma {:induction false} UpdateMarkersPresent(d: Dir, rt: Runtime, markers: seq<string>)
    ensures forall i :: 0 <= i < |UnderMarkers(d, rt, markers).issued| ==>
      d.content.Keys + (set m | m in markers) <= UnderMarkers(d, rt, markers).issued[i].present
    decreases |markers|
  {
    if markers == [] {
      RestartPresent(d, rt);
    } else {
      UpdateMarkersPresent(d.Touch(markers[0]), rt, markers[1..]);
      assert (set m | m in markers) == {markers[0]} + (set m | m in markers[1..]) by {
        assert markers == [markers[0]] + markers[1..];
      }
    }
  }

  /** Afterwards no marker remains and every other file is as it was. */
  lemma {:induction false} UpdateMarkersRemoved(d: Dir, rt: Runtime, markers: seq<string>)
    requires d.Valid()
    ensures UnderMarkers(d, rt, markers).files.Valid()
    ensures forall m :: m in markers ==> !UnderMarkers(d, rt, markers).files.Exists(m)
    ensures forall n :: n !in markers ==>
      (UnderMarkers(d, rt, markers).files.Exists(n) <==> d.Exists(n))
      && (d.Exists(n) ==> UnderMarkers(d, rt, markers).files.content[n] == d.content[n])
    decreases |markers|
  {
    if markers == [] {
      LifecycleKeepsFiles(d, rt, false);
    } else {
      var m := markers[0];
      var rest := markers[1..];
      UpdateMarkersRemoved(d.Touch(m), rt, rest);
      assert forall x :: x in markers <==> x == m || x in rest by {
        assert markers == [m] + rest;
      }
    }
  }

  // ---------------- logs, logworker, shell, response ----------------

  /** `docker-compose logs`, following when live, for one service unless `all`. */
  function LogsCommand(service: string, live: bool): seq<string> {
    ["docker-compose", "logs"] + (if live then ["-f"] else []) + (if service != "all" then [service] else [])
  }

  /** What `logs` does in directory `d`. */
  function LogsOf(d: Dir, service: string, live: bool): Effect {
    if !d.Exists(ENV_FILE) then Refused(d, NotInProject) else Effect(Ok(()), d, [Issue(d, LogsCommand(service, live))])
  }

  /** `logs` */
  method Logs(p: Project, service: string, live: bool) returns (r: Result<(), Error>)
    requires p.Valid()
    modifies p
    ensures Applied(p, LogsOf(old(p.Files()), service, live), old(p.log), r)
  {
    r := p.VerifyLocation();
    if r.Err? {
      return;
    }
    var command := ["docker-compose", "logs"];
    if live {
      command := command + ["-f"];
    }
    if service != "all" {
      command := command + [service];
    }
    assert command == LogsCommand(service, live);
    p.Run(Subprocess(command));
  }

  /** The `logs` command line: following exactly when live, naming the service exactly when it is not `all`. */
  lemma LogsCommandShape(service: string, live: bool)
    ensures var argv := LogsCommand(service, live);
      && argv[..2] == ["docker-compose", "logs"]
      && |argv| == 2 + (if live then 1 else 0) + (if service != "all" then 1 else 0)
      && (live ==> argv[2] == "-f")
      && (service != "all" ==> argv[|argv| - 1] == service)
  {
  }

  /** What `logworker` does in directory `d`. */
  function LogworkerOf(d: Dir, live: bool): Effect {
    if !d.Exists(ENV_FILE) then Refused(d, NotInProject)
    else if !d.Exists(WORKER_LOG_PATH) then Refused(d, WorkerLogMissing)
    else Effect(Ok(()), d, [Issue(d, if live then ["tail", "-f", WORKER_LOG_PATH] else ["cat", WORKER_LOG_PATH])])
  }

  /** `logworker`: follows or prints the worker log, which must exist. */
  method Logworker(p: Project, live: bool) returns (r: Result<(), Error>)
    requires p.Valid()
    modifies p
    ensures Applied(p, LogworkerOf(old(p.Files()), live), old(p.log), r)
  {
    r := p.VerifyLocation();
    if r.Err? {
      return;
    }
    if WORKER_LOG_PATH !in p.content {
      return Err(WorkerLogMissing);
    }
    var command;
    if live {
      command := ["tail", "-f", WORKER_LOG_PATH];
    } else {
      command := ["cat", WORKER_LOG_PATH];
    }
    p.Run(Subprocess(command));
  }

  /** What `shell` does in directory `d`. */
  function ShellOf(d: Dir, rt: Runtime, service: string): Effect {
    if !d.Exists(ENV_FILE) then Refused(d, NotInProject)
    else
      match ContainersNamesOf(d, rt)
      case Err(e) => Refused(d, e)
      case Ok(names) =>
        if service !in names.vals then Refused(d, UnknownService(service))
        else Effect(Ok(()), d, [Issue(d, ["docker", "exec", "-it", names.vals[service], "bash"])])
  }

  /** `shell`: an interactive bash in the service's container. */
  method Shell(p: Project, rt: Runtime, service: string) returns (r: Result<(), Error>)
    requires p.Valid()
    modifies p
    ensures Applied(p, ShellOf(old(p.Files()), rt, service), old(p.log), r)
  {
    r := p.VerifyLocation();
    if r.Err? {
      return;
    }
    var names := GetContainersNames(p, rt);
    if names.Err? {
      return Err(names.error);
    }
    if service !in names.value.vals {
      return Err(UnknownService(service));
    }
    p.Run(Subprocess(["docker", "exec", "-it", names.value.vals[service], "bash"]));
  }

  /**
   * `shell` fails for a service exactly when no listed container matches it;
   * otherwise it enters a container name that the name pattern matched for
   * that service.
   */
  lemma ShellFindsContainer(d: Dir, rt: Runtime, service: string)
    requires d.Exists(ENV_FILE) && ProjectLabel(d).Ok?
    ensures var project := ProjectLabel(d).value;
      ShellOf(d, rt, service).result == Err(UnknownService(service))
      <==> forall i :: 0 <= i < |rt.containers| ==> !MatchesService(project, SERVICES, rt.containers[i], service)
    ensures ShellOf(d, rt, service).result.Ok? ==>
      ContainersNamesOf(d, rt).Ok? && service in ContainersNamesOf(d, rt).value.vals
      && ShellOf(d, rt, service).issued == [Issue(d, ["docker", "exec", "-it", ContainersNamesOf(d, rt).value.vals[service], "bash"])]
  {
    ResolvedPresence(ProjectLabel(d).value, SERVICES, rt.containers, service);
  }

  /** What `response` does in directory `d`. */
  function ResponseOf(d: Dir, rt: Runtime, synchronous: bool, timeout: real): Effect {
    if !d.Exists(ENV_FILE) then Refused(d, NotInProject)
    else
      var out := ResponseManner(TargetOf(d, rt), rt.execExit, synchronous, timeout);
      Effect(out.0, d, Entries(out.1, d.content.Keys))
  }

  /** `response`: stores the response manner in the cache. */
  method Response(p: Project, rt: Runtime, synchronous: bool, timeout: real) returns (r: Result<(), Error>)
    requires p.Valid()
    modifies p
    ensures Applied(p, ResponseOf(old(p.Files()), rt, synchronous, timeout), old(p.log), r)
  {
    r := p.VerifyLocation();
    if r.Err? {
      return;
    }
    r := SetResponseManner(p, rt, synchronous, timeout);
  }

  /**
   * Every command run outside a project raises the location error and does
   * nothing else.
   */
  lemma OutsideProject(d: Dir, rt: Runtime, api: int, monitor: int, purge: bool, service: string, live: bool, synchronous: bool, timeout: real)
    requires !d.Exists(ENV_FILE)
    ensures LaunchOf(d, rt, api, monitor) == Refused(d, NotInProject)
    ensures ShutdownOf(d, rt, purge) == Refused(d, NotInProject)
    ensures StartOf(d) == Refused(d, NotInProject) && StopOf(d, rt) == Refused(d, NotInProject)
    ensures RestartOf(d, rt) == Refused(d, NotInProject)
    ensures UpdateOsReqsOf(d, rt) == Refused(d, NotInProject) && UpdatePipReqsOf(d, rt) == Refused(d, NotInProject)
    ensures UpdateReqsOf(d, rt) == Refused(d, NotInProject)
    ensures LogsOf(d, service, live) == Refused(d, NotInProject) && LogworkerOf(d, live) == Refused(d, NotInProject)
    ensures ShellOf(d, rt, service) == Refused(d, NotInProject)
    ensures ResponseOf(d, rt, synchronous, timeout) == Refused(d, NotInProject)
  {
  }
}
