/**
 * The older CLI helpers (build/lib/cli/utils.py): the project name with its
 * underscores removed, container names read from `docker-compose ps`, the
 * up/down partition, the pip-package check and the requirements append.
 */
module Legacy {
  import opened Wrappers
  import opened Strings
  import opened PyDict
  import opened Config
  import opened Workspace
  import opened EnvFile
  import opened Containers

  // ---------------- get_project_name ----------------

  /**
   * The older `get_project_name` over the lines of `.env`: the stripped value
   * of the first line mentioning COMPOSE_PROJECT_NAME, with every `_`
   * removed; it raises when no line mentions it.
   */
  function LegacyProjectNameIn(lines: seq<string>): (r: Result<string, Error>)
    ensures r == Err(NoProjectName) <==> forall i :: 0 <= i < |lines| ==> !Contains(lines[i], PROJECT_NAME_MARKER)
    ensures r.Ok? ==> '_' !in r.value
    ensures r.Ok? ==>
      exists i :: (0 <= i < |lines| && Contains(lines[i], PROJECT_NAME_MARKER)
        && '=' in lines[i] && r.value == RemoveAll(ValueOf(lines[i]), '_') && forall j :: 0 <= j < i ==> !Contains(lines[j], PROJECT_NAME_MARKER))
    ensures forall i :: FirstMention(lines, PROJECT_NAME_MARKER, i) ==>
      r == if '=' in lines[i] then Ok(RemoveAll(ValueOf(lines[i]), '_')) else Err(NameLineWithoutEquals(lines[i]))
    ensures r.Err? && r != Err(NoProjectName) <==> exists i :: FirstMention(lines, PROJECT_NAME_MARKER, i) && '=' !in lines[i]
  {
    match MarkedValue(lines, PROJECT_NAME_MARKER)
    case Err(e) => Err(e)
    case Ok(None) => Err(NoProjectName)
    case Ok(Some(v)) => Ok(RemoveAll(v, '_'))
  }

  /** The older name is the newer one without its underscores, and both fail on the same files. */
  lemma LegacyNameIsNewerWithoutUnderscores(lines: seq<string>)
    ensures ProjectNameIn(lines).Err? <==> LegacyProjectNameIn(lines).Err? && LegacyProjectNameIn(lines) != Err(NoProjectName)
    ensures ProjectNameIn(lines) == Ok(None) <==> LegacyProjectNameIn(lines) == Err(NoProjectName)
    ensures ProjectNameIn(lines).Ok? && ProjectNameIn(lines).value.Some? ==>
      LegacyProjectNameIn(lines) == Ok(RemoveAll(ProjectNameIn(lines).value.value, '_'))
  {
  }

  // ---------------- get_containers_names over `docker-compose ps` ----------------

  /**
   * The first field of every non-empty line of the `ps` output, in order
   * (`line.split()[0]`); a non-empty line of whitespace only raises.
   */
  function PsTokens(lines: seq<string>): (r: Result<seq<string>, Error>)
    ensures r.Err? <==> exists i :: 0 <= i < |lines| && lines[i] != [] && FirstField(lines[i]).None?
    ensures r.Ok? ==> |r.value| <= |lines|
    decreases |lines|
  {
    if lines == [] then Ok([])
    else
      var n := |lines| - 1;
      var line := lines[n];
      var init := PsTokens(lines[..n]);
      assert forall i :: 0 <= i < n ==> lines[..n][i] == lines[i];
      match init
      case Err(e) => Err(e)
      case Ok(toks) =>
        if line == [] then Ok(toks)
        else
          match FirstField(line)
          case None => Err(BlankPsLine(line))
          case Some(t) => Ok(toks + [t])
  }

  /** The non-empty lines, in order (the lines `split()` sees a field in, or raises on). */
  function NonEmptyLines(lines: seq<string>): (r: seq<string>)
    ensures forall l :: l in r <==> l in lines && l != []
    ensures |r| <= |lines|
    decreases |lines|
  {
    if lines == [] then []
    else
      var n := |lines| - 1;
      assert lines == lines[..n] + [lines[n]];
      if lines[n] == [] then NonEmptyLines(lines[..n]) else NonEmptyLines(lines[..n]) + [lines[n]]
  }

  /** The tokens are, one for one and in order, the first fields of the non-empty lines. */
  lemma {:induction false} PsTokensFields(lines: seq<string>)
    requires PsTokens(lines).Ok?
    ensures var toks := PsTokens(lines).value;
      && |toks| == |NonEmptyLines(lines)|
      && forall k :: 0 <= k < |toks| ==> FirstField(NonEmptyLines(lines)[k]) == Some(toks[k])
    decreases |lines|
  {
    if lines != [] {
      var n := |lines| - 1;
      assert PsTokens(lines[..n]).Ok?;
      PsTokensFields(lines[..n]);
    }
  }

  lemma {:induction false} PsTokensErrSticks(lines: seq<string>, n: nat)
    requires n <= |lines| && PsTokens(lines[..n]).Err?
    ensures PsTokens(lines) == PsTokens(lines[..n])
    decreases |lines| - n
  {
    if n < |lines| {
      assert lines[..n + 1][..n] == lines[..n];
      PsTokensErrSticks(lines, n + 1);
    } else {
      assert lines[..n] == lines;
    }
  }

  /**
   * With an underscore-free project name, `name.split('_')[1]` of a matched
   * name is the service the match took.
   */
  lemma DescriptorAfterProject(project: string, h: Hit)
    requires '_' !in project && '_' !in h.service
    ensures |Split(Matched(project, h), '_')| >= 2 && Split(Matched(project, h), '_')[1] == h.service
  {
    var rest := h.service + ['_'] + h.digits;
    assert Matched(project, h) == project + ['_'] + rest;
    SplitJoined(project, '_', rest);
    SplitJoined(h.service, '_', h.digits);
  }

  /**
   * What the older `get_containers_names` returns: the newer resolver run
   * over the first fields of the `ps` lines, for the underscore-free name.
   */
  function LegacyContainersNamesOf(d: Dir, rt: Runtime): Result<Dict<string, string>, Error> {
    if !d.Exists(ENV_FILE) then Err(NotInProject)
    else
      match LegacyProjectNameIn(Lines(d.content[ENV_FILE]))
      case Err(e) => Err(e)
      case Ok(project) =>
        NamesFromPs(project, Split(rt.psOutput, '\n'))
  }

  /** The older resolver over the lines of the `ps` output: a blank line raises, otherwise each first field is resolved. */
  function NamesFromPs(project: string, lines: seq<string>): Result<Dict<string, string>, Error> {
    match PsTokens(lines)
    case Err(e) => Err(e)
    case Ok(toks) => Ok(ResolveNames(project, SERVICES, toks))
  }

  /** The older `get_containers_names`: the loop over the `ps` lines keying each match by `split('_')[1]`. */
  method LegacyGetContainersNames(p: Project, rt: Runtime) returns (r: Result<Dict<string, string>, Error>)
    ensures r == LegacyContainersNamesOf(p.Files(), rt)
  {
    if ENV_FILE !in p.content {
      return Err(NotInProject);
    }
    var named := LegacyProjectNameIn(Lines(p.content[ENV_FILE]));
    if named.Err? {
      return Err(named.error);
    }
    r := LegacyNamesLoop(named.value, Split(rt.psOutput, '\n'));
  }

  /** The loop of the older `get_containers_names`, keying each match by `split('_')[1]`. */
  method LegacyNamesLoop(project: string, result: seq<string>) returns (r: Result<Dict<string, string>, Error>)
    requires '_' !in project
    ensures r == NamesFromPs(project, result)
  {
    var names: Dict<string, string> := Empty();
    ghost var toks: seq<string> := [];
    var i := 0;
    while i < |result|
      invariant 0 <= i <= |result|
      invariant PsTokens(result[..i]) == Ok(toks)
      invariant names == ResolveNames(project, SERVICES, toks)
    {
      var line := result[i];
      PsTokensStep(result, i);
      if line != [] {
        var fields := FirstField(line);
        if fields.None? {
          PsTokensErrSticks(result, i + 1);
          return Err(BlankPsLine(line));
        }
        ResolveStep(project, toks, fields.value);
        var m := MatchAmong(project, SERVICES, fields.value);
        if m.Some? {
          var name := Matched(project, m.value);
          ServicesHaveNoUnderscore();
          DescriptorAfterProject(project, m.value);
          var descriptor := Split(name, '_')[1];
          names := names.Put(descriptor, name);
        }
        toks := toks + [fields.value];
      }
      i := i + 1;
    }
    assert result[..i] == result;
    r := Ok(names);
  }

  lemma PsTokensStep(lines: seq<string>, i: nat)
    requires i < |lines| && PsTokens(lines[..i]).Ok?
    ensures PsTokens(lines[..i + 1]) ==
      if lines[i] == [] then PsTokens(lines[..i])
      else match FirstField(lines[i])
        case None => Err(BlankPsLine(lines[i]))
        case Some(t) => Ok(PsTokens(lines[..i]).value + [t])
  {
    assert lines[..i + 1][..i] == lines[..i];
  }

  lemma ResolveStep(project: string, toks: seq<string>, t: string)
    ensures ResolveNames(project, SERVICES, toks + [t]) ==
      match MatchAmong(project, SERVICES, t)
      case None => ResolveNames(project, SERVICES, toks)
      case Some(h) => ResolveNames(project, SERVICES, toks).Put(h.service, Matched(project, h))
  {
    assert (toks + [t])[..|toks|] == toks;
  }

  /** Every key the older resolver produces is a service, whatever the `ps` output. */
  lemma LegacyKeysAreServices(d: Dir, rt: Runtime)
    requires LegacyContainersNamesOf(d, rt).Ok?
    ensures LegacyContainersNamesOf(d, rt).value.Valid()
    ensures forall k :: k in LegacyContainersNamesOf(d, rt).value.vals ==> k in SERVICES
  {
    var project := LegacyProjectNameIn(Lines(d.content[ENV_FILE])).value;
    var toks := PsTokens(Split(rt.psOutput, '\n')).value;
    ResolvedKeysAreServices(project, SERVICES, toks);
  }

  // ---------------- get_containers_status: the (up, down) partition ----------------

  /** The `up` and `down` lists after the loop has visited the descriptors `keys`. */
  function UpDown(names: Dict<string, string>, keys: seq<string>, live: seq<string>): (seq<string>, seq<string>)
    requires Resolved(names, keys)
    decreases |keys|
  {
    if keys == [] then ([], [])
    else
      var n := |keys| - 1;
      var (up, down) := UpDown(names, keys[..n], live);
      if names.vals[keys[n]] in live then (up + [keys[n]], down) else (up, down + [keys[n]])
  }

  /**
   * The two lists split the descriptors: a descriptor is up exactly when its
   * container is live and down exactly when it is not, and the lists
   * together are as long as the descriptors.
   */
  lemma {:induction false} UpDownPartition(names: Dict<string, string>, keys: seq<string>, live: seq<string>)
    requires Resolved(names, keys)
    ensures forall x :: x in UpDown(names, keys, live).0 <==> x in keys && x in names.vals && names.vals[x] in live
    ensures forall x :: x in UpDown(names, keys, live).1 <==> x in keys && x in names.vals && names.vals[x] !in live
    ensures |UpDown(names, keys, live).0| + |UpDown(names, keys, live).1| == |keys|
    decreases |keys|
  {
    if keys != [] {
      var n := |keys| - 1;
      UpDownPartition(names, keys[..n], live);
      assert keys == keys[..n] + [keys[n]];
    }
  }

  /**
   * Without status markers the newer buckets agree with the older lists:
   * UP holds the older `up` list and DOWN the older `down` list, in order.
   */
  lemma {:induction false} NoMarkersAgree(names: Dict<string, string>, keys: seq<string>, live: seq<string>)
    requires Resolved(names, keys)
    ensures Matching(names, keys, live, [], Some(UP)) == UpDown(names, keys, live).0
    ensures Matching(names, keys, live, [], Some(DOWN)) == UpDown(names, keys, live).1
    decreases |keys|
  {
    if keys != [] {
      var n := |keys| - 1;
      NoMarkersAgree(names, keys[..n], live);
    }
  }

  /** What the older `get_containers_status` returns: the (up, down) lists. */
  function LegacyContainersStatusOf(d: Dir, rt: Runtime): Result<(seq<string>, seq<string>), Error> {
    if !d.Exists(ENV_FILE) then Err(NotInProject)
    else
      match LegacyContainersNamesOf(d, rt)
      case Err(e) => Err(e)
      case Ok(names) =>
        LegacyKeysAreServices(d, rt);
        ResolvedKeys(names);
        Ok(UpDown(names, names.keys, rt.live))
  }

  /** The older `get_containers_status`: the loop appending each descriptor to `up` or `down`. */
  method LegacyGetContainersStatus(p: Project, rt: Runtime) returns (r: Result<(seq<string>, seq<string>), Error>)
    ensures r == LegacyContainersStatusOf(p.Files(), rt)
  {
    if ENV_FILE !in p.content {
      return Err(NotInProject);
    }
    var res := LegacyGetContainersNames(p, rt);
    if res.Err? {
      return Err(res.error);
    }
    LegacyKeysAreServices(p.Files(), rt);
    ResolvedKeys(res.value);
    var lists := SplitUpDown(res.value, rt.live);
    r := Ok(lists);
  }

  /** The loop of the older `get_containers_status`, appending each descriptor to `up` or `down`. */
  method SplitUpDown(containers: Dict<string, string>, live: seq<string>) returns (lists: (seq<string>, seq<string>))
    requires Resolved(containers, containers.keys)
    ensures lists == UpDown(containers, containers.keys, live)
  {
    var keys := containers.keys;
    var upServices: seq<string> := [];
    var downServices: seq<string> := [];
    var i := 0;
    while i < |keys|
      invariant 0 <= i <= |keys|
      invariant Resolved(containers, keys[..i])
      invariant (upServices, downServices) == UpDown(containers, keys[..i], live)
    {
      var serviceName := keys[i];
      assert keys[..i + 1][..i] == keys[..i] && keys[..i + 1][i] == serviceName;
      if containers.vals[serviceName] in live {
        upServices := upServices + [serviceName];
      } else {
        downServices := downServices + [serviceName];
      }
      i := i + 1;
    }
    assert keys[..i] == keys;
    lists := (upServices, downServices);
  }

  /**
   * The older status is a partition of the resolved descriptors: disjoint
   * lists covering all of them, liveness deciding the side.
   */
  lemma LegacyStatusPartition(d: Dir, rt: Runtime)
    requires LegacyContainersStatusOf(d, rt).Ok?
    ensures LegacyContainersNamesOf(d, rt).Ok?
    ensures var names := LegacyContainersNamesOf(d, rt).value;
      var (up, down) := LegacyContainersStatusOf(d, rt).value;
      && (forall x :: x in up <==> x in names.vals && names.vals[x] in rt.live)
      && (forall x :: x in down <==> x in names.vals && names.vals[x] !in rt.live)
      && |up| + |down| == |names.keys|
  {
    var names := LegacyContainersNamesOf(d, rt).value;
    LegacyKeysAreServices(d, rt);
    ResolvedKeys(names);
    UpDownPartition(names, names.keys, rt.live);
  }

  // ---------------- is_installed ----------------

  /** `p.split('=')[0]`: the package name without its version pin. */
  function StripVersion(p: string): (r: string)
    ensures '=' !in r && IsPrefix(r, p)
    ensures |r| < |p| ==> p[|r|] == '='
  {
    match IndexOf(p, '=')
    case None => p
    case Some(i) => p[..i]
  }

  /** A pinned requirement `name==version` is checked under its bare name. */
  lemma VersionStripped(name: string, version: string)
    requires '=' !in name
    ensures StripVersion(name + "==" + version) == name
    ensures StripVersion(name) == name
  {
    var s := name + "==" + version;
    assert s[..|name|] == name && s[|name|] == '=';
    IndexOfAt(s, '=', |name|);
  }

  /**
   * `is_installed`: for each package, in order, whether `pip show` of its
   * bare name exits with 0 in the container (`exitCode` gives the exit code
   * of a command run there).
   */
  function IsInstalled(exitCode: string -> int, packages: seq<string>): (r: seq<bool>)
    ensures |r| == |packages|
    ensures forall i :: 0 <= i < |r| ==> (r[i] <==> exitCode("pip show " + StripVersion(packages[i])) == 0)
  {
    var names := seq(|packages|, i requires 0 <= i < |packages| => StripVersion(packages[i]));
    seq(|names|, i requires 0 <= i < |names| => exitCode("pip show " + names[i]) == 0)
  }

  /** Two requirements naming the same package with different pins get the same answer. */
  lemma InstalledIgnoresPin(exitCode: string -> int, name: string, v: string, w: string)
    requires '=' !in name
    ensures IsInstalled(exitCode, [name + "==" + v]) == IsInstalled(exitCode, [name + "==" + w])
  {
    VersionStripped(name, v);
    VersionStripped(name, w);
  }

  // ---------------- append_to_requirements ----------------

  /** The text `append_to_requirements` adds: the packages joined by newlines, and a final newline. */
  function RequirementsText(packages: seq<string>): string {
    Join(packages, "\n") + "\n"
  }

  /** The directory after appending `packages` to the requirements file (created empty when absent). */
  function AppendedRequirements(d: Dir, packages: seq<string>): Dir {
    var before := if d.Exists(PIP_REQUIREMENTS_FILE) then d.content[PIP_REQUIREMENTS_FILE] else "";
    d.Write(PIP_REQUIREMENTS_FILE, before + RequirementsText(packages))
  }

  /** `append_to_requirements`: opens the requirements file for appending and writes the packages. */
  method AppendToRequirements(p: Project, packages: seq<string>)
    requires p.Valid()
    modifies p
    ensures p.Valid() && p.Files() == AppendedRequirements(old(p.Files()), packages) && p.log == old(p.log)
  {
    var before := if PIP_REQUIREMENTS_FILE in p.content then p.content[PIP_REQUIREMENTS_FILE] else "";
    p.Write(PIP_REQUIREMENTS_FILE, before + RequirementsText(packages));
  }

  /** The lines the appended text adds: one per package, or a lone newline for no package. */
  function PackageLines(packages: seq<string>): (r: seq<string>) {
    if packages == [] then ["\n"] else seq(|packages|, i requires 0 <= i < |packages| => packages[i] + "\n")
  }

  lemma {:induction false} JoinAsLines(packages: seq<string>)
    ensures RequirementsText(packages) == Concat(PackageLines(packages))
    decreases |packages|
  {
    if |packages| == 1 {
      assert PackageLines(packages) == [packages[0] + "\n"];
      assert PackageLines(packages)[1..] == [];
    } else if |packages| > 1 {
      JoinAsLines(packages[1..]);
      assert PackageLines(packages)[1..] == PackageLines(packages[1..]);
    }
  }

  lemma {:induction false} ConcatAppend(a: seq<string>, b: seq<string>)
    ensures Concat(a + b) == Concat(a) + Concat(b)
    decreases |a|
  {
    if a != [] {
      assert (a + b)[0] == a[0] && (a + b)[1..] == a[1..] + b;
      ConcatAppend(a[1..], b);
      assert Concat(a + b) == a[0] + Concat(a[1..] + b);
    } else {
      assert a + b == b;
    }
  }

  /** A text that is empty or ends with a newline splits into lines that all end with one. */
  lemma ClosedLines(s: string)
    requires s == [] || s[|s| - 1] == '\n'
    ensures WellFormedLines(Lines(s))
    ensures forall i :: 0 <= i < |Lines(s)| ==> Lines(s)[i][|Lines(s)[i]| - 1] == '\n'
  {
    var ls := Lines(s);
    LinesWellFormed(s);
    if ls != [] {
      var n := |ls| - 1;
      assert s[|s| - 1] == ls[n][|ls[n]| - 1] by {
        ConcatLines(s);
        InitLast(ls);
        ConcatSnoc(ls[..n], ls[n]);
      }
    }
  }

  /**
   * Appending to a requirements file that is empty or ends with a newline
   * keeps its lines and adds one line per package (a lone newline for no
   * package), provided no package holds a newline.
   */
  lemma RequirementsAppendedLines(before: string, packages: seq<string>)
    requires before == [] || before[|before| - 1] == '\n'
    requires forall i :: 0 <= i < |packages| ==> '\n' !in packages[i]
    ensures Lines(before + RequirementsText(packages)) == Lines(before) + PackageLines(packages)
  {
    var old_ := Lines(before);
    var added := PackageLines(packages);
    ClosedLines(before);
    PackageLinesClosed(packages);
    ClosedWellFormed(old_, added);
    assert before + RequirementsText(packages) == Concat(old_ + added) by {
      ConcatAppend(old_, added);
      ConcatLines(before);
      JoinAsLines(packages);
    }
    LinesConcat(old_ + added);
  }

  /** Each package line ends in its newline and holds no other. */
  lemma PackageLinesClosed(packages: seq<string>)
    requires forall i :: 0 <= i < |packages| ==> '\n' !in packages[i]
    ensures forall i :: 0 <= i < |PackageLines(packages)| ==>
      IsLine(PackageLines(packages)[i]) && PackageLines(packages)[i][|PackageLines(packages)[i]| - 1] == '\n'
  {
    var added := PackageLines(packages);
    forall i | 0 <= i < |added| ensures IsLine(added[i]) && added[i][|added[i]| - 1] == '\n' {
      if packages != [] {
        assert added[i][..|added[i]| - 1] == packages[i];
      }
    }
  }

  /** Lines that each end in a newline stay well formed when two runs of them are put together. */
  lemma ClosedWellFormed(a: seq<string>, b: seq<string>)
    requires forall i :: 0 <= i < |a| ==> IsLine(a[i]) && a[i][|a[i]| - 1] == '\n'
    requires forall i :: 0 <= i < |b| ==> IsLine(b[i]) && b[i][|b[i]| - 1] == '\n'
    ensures WellFormedLines(a + b)
  {
    var all := a + b;
    forall i | 0 <= i < |all| ensures IsLine(all[i]) && (i < |all| - 1 ==> all[i][|all[i]| - 1] == '\n') {
      if i >= |a| {
        assert all[i] == b[i - |a|];
      }
    }
  }

  /** The file's earlier text is kept as a prefix of the appended file. */
  lemma AppendKeepsPrefix(d: Dir, packages: seq<string>)
    requires d.Exists(PIP_REQUIREMENTS_FILE)
    ensures IsPrefix(d.content[PIP_REQUIREMENTS_FILE], AppendedRequirements(d, packages).content[PIP_REQUIREMENTS_FILE])
    ensures forall n :: n in d.content && n != PIP_REQUIREMENTS_FILE ==> AppendedRequirements(d, packages).content[n] == d.content[n]
  {
  }
}
