/**
 * The environment record `.env` (src/denzel_cli/utils.py): `key=value` lines
 * read into a dict, and the project name looked up in it.
 */
module EnvFile {
  import opened Wrappers
  import opened Strings
  import opened PyDict
  import opened Workspace
  import opened Config

  /** A line's key: the text before its first `=`. */
  function KeyOf(line: string): string
    requires '=' in line
  {
    SplitOnce(line, '=').value.0
  }

  /** A line's value: the text after its first `=`, whitespace stripped. */
  function ValueOf(line: string): string
    requires '=' in line
  {
    Strip(SplitOnce(line, '=').value.1, Whitespace)
  }

  /** One iteration of `read_env`'s loop. */
  function ReadLine(acc: Dict<string, string>, line: string): Result<Dict<string, string>, Error> {
    if line == "" then Ok(acc)
    else if '=' !in line then Err(EnvLineWithoutEquals(line))
    else Ok(acc.Put(KeyOf(line), ValueOf(line)))
  }

  /** `read_env` over the lines of the file, first to last; the first line without `=` raises. */
  function ParseEnv(lines: seq<string>): Result<Dict<string, string>, Error>
    decreases |lines|
  {
    if lines == [] then Ok(Empty())
    else
      match ParseEnv(lines[..|lines| - 1])
      case Err(e) => Err(e)
      case Ok(d) => ReadLine(d, lines[|lines| - 1])
  }

  /** `line` assigns key `k`. */
  predicate HasKey(line: string, k: string) {
    line != "" && '=' in line && KeyOf(line) == k
  }

  /** The value the last line with key `k` carries, if any line has that key. */
  function LastValue(lines: seq<string>, k: string): Option<string>
    decreases |lines|
  {
    if lines == [] then None
    else
      var line := lines[|lines| - 1];
      if HasKey(line, k) then Some(ValueOf(line))
      else LastValue(lines[..|lines| - 1], k)
  }

  /** Some line of `lines` assigns key `k`. */
  ghost predicate Assigns(lines: seq<string>, k: string) {
    exists i :: 0 <= i < |lines| && HasKey(lines[i], k)
  }

  /** A value is read for `k` exactly when some line assigns `k`, and it is one such line's value. */
  lemma {:induction false} LastValueFrom(lines: seq<string>, k: string)
    ensures LastValue(lines, k).Some? <==> Assigns(lines, k)
    ensures LastValue(lines, k).Some? ==>
      exists i :: 0 <= i < |lines| && HasKey(lines[i], k) && LastValue(lines, k).value == ValueOf(lines[i])
    decreases |lines|
  {
    if lines != [] {
      var n := |lines| - 1;
      AssignsSnoc(lines, k);
      if HasKey(lines[n], k) {
        assert 0 <= n < |lines| && HasKey(lines[n], k);
      } else {
        var init := lines[..n];
        LastValueFrom(init, k);
        if LastValue(init, k).Some? {
          var i :| 0 <= i < |init| && HasKey(init[i], k) && LastValue(init, k).value == ValueOf(init[i]);
          assert init[i] == lines[i];
        }
      }
    }
  }

  /** Some line of a non-empty list assigns `k` exactly when its last line or an earlier one does. */
  lemma AssignsSnoc(lines: seq<string>, k: string)
    requires lines != []
    ensures Assigns(lines, k) <==> Assigns(lines[..|lines| - 1], k) || HasKey(lines[|lines| - 1], k)
  {
    var p := (line: string) => HasKey(line, k);
    AnyHoldsSnoc(lines, p);
    assert Assigns(lines, k) <==> AnyHolds(lines, p);
    assert Assigns(lines[..|lines| - 1], k) <==> AnyHolds(lines[..|lines| - 1], p);
  }

  /** When every line assigning `k` carries the same value, that is the value read. */
  lemma LastValueUniform(lines: seq<string>, k: string, v: string)
    requires forall i :: 0 <= i < |lines| && HasKey(lines[i], k) ==> ValueOf(lines[i]) == v
    ensures LastValue(lines, k) == if Assigns(lines, k) then Some(v) else None
  {
    LastValueFrom(lines, k);
  }

  /** A line assigning `k` mentions `k`. */
  lemma HasKeyContains(line: string, k: string)
    requires HasKey(line, k)
    ensures Contains(line, k)
  {
    var parts := SplitOnce(line, '=').value;
    assert line == k + ([('=')] + parts.1);
    assert line[..|k|] == k;
  }

  /** Every non-empty line has an `=`. */
  predicate AllAssignments(lines: seq<string>) {
    forall i :: 0 <= i < |lines| && lines[i] != "" ==> '=' in lines[i]
  }

  /**
   * `read_env` succeeds exactly when every non-empty line has an `=`; then the
   * dict maps each key to the stripped value of its LAST line (a later
   * duplicate overwrites an earlier one), and holds no other key.
   */
  lemma {:induction false} ParseEnvLastWins(lines: seq<string>)
    ensures ParseEnv(lines).Ok? <==> AllAssignments(lines)
    ensures ParseEnv(lines).Ok? ==> ParseEnv(lines).value.Valid()
    ensures ParseEnv(lines).Ok? ==> forall k :: ParseEnv(lines).value.Get(k) == LastValue(lines, k)
    decreases |lines|
  {
    if lines != [] {
      var init := lines[..|lines| - 1];
      var line := lines[|lines| - 1];
      ParseEnvLastWins(init);
      assert AllAssignments(lines) <==> AllAssignments(init) && (line != "" ==> '=' in line) by {
        if AllAssignments(init) && (line != "" ==> '=' in line) {
          forall i | 0 <= i < |lines| && lines[i] != "" ensures '=' in lines[i] {
            if i < |lines| - 1 { assert lines[i] == init[i]; }
          }
        }
        if AllAssignments(lines) {
          forall i | 0 <= i < |init| && init[i] != "" ensures '=' in init[i] {
            assert init[i] == lines[i];
          }
        }
      }
    }
  }

  /** `read_env` on a directory: the location check, then the file's lines. */
  function ReadEnvOf(d: Dir): (r: Result<Dict<string, string>, Error>)
    ensures !d.Exists(ENV_FILE) ==> r == Err(NotInProject)
  {
    if !d.Exists(ENV_FILE) then Err(NotInProject) else ParseEnv(Lines(d.content[ENV_FILE]))
  }

  /** `read_env`: the location check, then the loop filling the dict line by line. */
  method ReadEnv(p: Project) returns (r: Result<Dict<string, string>, Error>)
    ensures r == ReadEnvOf(p.Files())
  {
    if ENV_FILE !in p.content {
      return Err(NotInProject);
    }
    var lines := Lines(p.content[ENV_FILE]);
    var env := Empty();
    var i := 0;
    while i < |lines|
      invariant 0 <= i <= |lines|
      invariant ParseEnv(lines[..i]) == Ok(env)
    {
      var line := lines[i];
      assert ParseEnv(lines[..i + 1]) == ReadLine(env, line) by {
        assert lines[..i + 1][..i] == lines[..i];
      }
      if line != "" {
        if '=' !in line {
          assert ParseEnv(lines[..i + 1]) == Err(EnvLineWithoutEquals(line));
          ParseEnvErrSticks(lines, i + 1);
          return Err(EnvLineWithoutEquals(line));
        }
        env := env.Put(KeyOf(line), ValueOf(line));
      }
      i := i + 1;
    }
    assert lines[..i] == lines;
    r := Ok(env);
  }

  /** Once a line fails, reading further lines does not recover. */
  lemma {:induction false} ParseEnvErrSticks(lines: seq<string>, n: nat)
    requires n <= |lines| && ParseEnv(lines[..n]).Err?
    ensures ParseEnv(lines) == ParseEnv(lines[..n])
    decreases |lines| - n
  {
    if n < |lines| {
      assert lines[..n + 1][..n] == lines[..n];
      ParseEnvErrSticks(lines, n + 1);
    } else {
      assert lines[..n] == lines;
    }
  }

  /** The line `key=value\n`, as the CLI writes environment lines. */
  function Assignment(key: string, value: string): string {
    key + "=" + value + "\n"
  }

  /** A value that survives being written and read back: one line, no surrounding whitespace. */
  predicate CleanValue(v: string) {
    '\n' !in v && Strip(v, Whitespace) == v
  }

  lemma AssignmentParts(key: string, value: string)
    requires '=' !in key
    ensures '=' in Assignment(key, value)
    ensures KeyOf(Assignment(key, value)) == key
    ensures SplitOnce(Assignment(key, value), '=').value.1 == value + "\n"
  {
    var line := Assignment(key, value);
    assert line[|key|] == '=';
    assert line[..|key|] == key;
    IndexOfAt(line, '=', |key|);
    assert line[|key| + 1..] == value + "\n";
  }

  /** Writing `key=value\n` and reading it back gives `value` when the value is clean. */
  lemma AssignmentReadsBack(key: string, value: string)
    requires '=' !in key && CleanValue(value)
    ensures '=' in Assignment(key, value)
    ensures KeyOf(Assignment(key, value)) == key && ValueOf(Assignment(key, value)) == value
  {
    AssignmentParts(key, value);
    StripTrailingNewline(value);
  }

  lemma StripTrailingNewline(v: string)
    requires Strip(v, Whitespace) == v
    ensures Strip(v + "\n", Whitespace) == v
  {
    if v == [] {
      assert StripLeft("\n", Whitespace) == "";
    } else {
      assert v[0] !in Whitespace by {
        assert StripLeft(v, Whitespace) != [] ==> StripLeft(v, Whitespace)[0] !in Whitespace;
        StripLeftPrefix(v);
      }
      assert StripLeft(v + "\n", Whitespace) == v + "\n";
      assert (v + "\n")[..|v|] == v;
      assert StripRight(v, Whitespace) == v by { StripLeftPrefix(v); }
    }
  }

  /** Stripping leaves a suffix; when it leaves everything, the first character was kept. */
  lemma StripLeftPrefix(v: string)
    ensures |StripLeft(v, Whitespace)| <= |v|
    ensures StripLeft(v, Whitespace) == v ==> StripRight(v, Whitespace) == Strip(v, Whitespace)
    ensures v != [] && Strip(v, Whitespace) == v ==> v[0] !in Whitespace && StripLeft(v, Whitespace) == v
    decreases |v|
  {
    if v != [] && v[0] in Whitespace {
      StripLeftPrefix(v[1..]);
      StripRightShorter(StripLeft(v, Whitespace));
    }
  }

  lemma StripRightShorter(v: string)
    ensures |StripRight(v, Whitespace)| <= |v|
    decreases |v|
  {
  }

  /** The lines `k=v\n` for parallel lists of keys and values. */
  function Assignments(keys: seq<string>, values: seq<string>): (ls: seq<string>)
    requires |keys| == |values|
    ensures |ls| == |keys|
    ensures forall i :: 0 <= i < |keys| ==> ls[i] == Assignment(keys[i], values[i])
    decreases |keys|
  {
    if keys == [] then [] else Assignments(keys[..|keys| - 1], values[..|values| - 1]) + [Assignment(keys[|keys| - 1], values[|values| - 1])]
  }

  predicate DistinctKeys(keys: seq<string>) {
    forall i, j :: 0 <= i < j < |keys| ==> keys[i] != keys[j]
  }

  /**
   * Writing distinct `=`-free keys with clean values one per line and reading
   * the lines back gives exactly those keys, in that order, with those values.
   */
  lemma {:induction false} WriteThenRead(keys: seq<string>, values: seq<string>)
    requires |keys| == |values| && DistinctKeys(keys)
    requires forall i :: 0 <= i < |keys| ==> '=' !in keys[i] && CleanValue(values[i])
    ensures ParseEnv(Assignments(keys, values)).Ok?
    ensures ParseEnv(Assignments(keys, values)).value.Valid()
    ensures ParseEnv(Assignments(keys, values)).value.keys == keys
    ensures forall i :: 0 <= i < |keys| ==> ParseEnv(Assignments(keys, values)).value.vals[keys[i]] == values[i]
    decreases |keys|
  {
    if keys != [] {
      var n := |keys| - 1;
      var init := Assignments(keys[..n], values[..n]);
      assert DistinctKeys(keys[..n]);
      WriteThenRead(keys[..n], values[..n]);
      assert keys[n] !in keys[..n];
      ReadOneMore(init, keys[..n], values[..n], keys[n], values[n]);
      InitLast(keys);
      InitLast(values);
      assert Assignments(keys, values) == init + [Assignment(keys[n], values[n])];
    }
  }

  /** The step of `WriteThenRead`: one more fresh assignment extends the keys and values read. */
  lemma ReadOneMore(lines: seq<string>, keys: seq<string>, values: seq<string>, key: string, value: string)
    requires |keys| == |values| && key !in keys && '=' !in key && CleanValue(value)
    requires ParseEnv(lines).Ok? && ParseEnv(lines).value.Valid() && ParseEnv(lines).value.keys == keys
    requires forall i :: 0 <= i < |keys| ==> ParseEnv(lines).value.vals[keys[i]] == values[i]
    ensures var r := ParseEnv(lines + [Assignment(key, value)]);
      && r.Ok? && r.value.Valid() && r.value.keys == keys + [key]
      && forall i :: 0 <= i < |keys| + 1 ==> r.value.vals[(keys + [key])[i]] == (values + [value])[i]
  {
    var d := ParseEnv(lines).value;
    assert key !in d.vals;
    ParseAssignment(lines, key, value);
    var d' := d.Put(key, value);
    forall i | 0 <= i < |keys| + 1
      ensures d'.vals[(keys + [key])[i]] == (values + [value])[i]
    {
      if i < |keys| {
        assert (keys + [key])[i] == keys[i] && (values + [value])[i] == values[i];
      }
    }
  }

  /** Reading one more assignment of a fresh key appends that key with its value. */
  lemma ParseAssignment(lines: seq<string>, key: string, value: string)
    requires ParseEnv(lines).Ok? && key !in ParseEnv(lines).value.vals
    requires '=' !in key && CleanValue(value)
    ensures ParseEnv(lines + [Assignment(key, value)]) == Ok(ParseEnv(lines).value.Put(key, value))
  {
    var ls := lines + [Assignment(key, value)];
    assert ls[..|ls| - 1] == lines;
    AssignmentReadsBack(key, value);
  }

  /** The lines the CLI writes are read back one for one. */
  lemma WrittenEnvReadsBack(keys: seq<string>, values: seq<string>)
    requires |keys| == |values|
    requires forall i :: 0 <= i < |keys| ==> '\n' !in keys[i] && '\n' !in values[i]
    ensures Lines(Concat(Assignments(keys, values))) == Assignments(keys, values)
  {
    var ls := Assignments(keys, values);
    forall i | 0 <= i < |ls|
      ensures IsLine(ls[i]) && ls[i][|ls[i]| - 1] == '\n'
    {
      var l := ls[i];
      assert l == keys[i] + "=" + values[i] + "\n";
      assert l[..|l| - 1] == keys[i] + "=" + values[i];
    }
    LinesConcat(ls);
  }

  /**
   * The text of the assignment lines, written one after another, reads back
   * as exactly those keys, in order, with those values.
   */
  lemma WrittenTextReadsBack(keys: seq<string>, values: seq<string>)
    requires |keys| == |values| && DistinctKeys(keys)
    requires forall i :: 0 <= i < |keys| ==> '=' !in keys[i] && '\n' !in keys[i] && CleanValue(values[i])
    ensures var env := ParseEnv(Lines(Concat(Assignments(keys, values))));
      && env.Ok? && env.value.Valid() && env.value.keys == keys
      && forall i :: 0 <= i < |keys| ==> env.value.vals[keys[i]] == values[i]
  {
    WriteThenRead(keys, values);
    WrittenEnvReadsBack(keys, values);
  }

  /** Line `i` is the first of `lines` that mentions `marker`. */
  predicate FirstMention(lines: seq<string>, marker: string, i: int) {
    0 <= i < |lines| && Contains(lines[i], marker) && forall j :: 0 <= j < i ==> !Contains(lines[j], marker)
  }

  /** What the line naming the marker gives: its stripped value, or the `IndexError` of a line without `=`. */
  function MentionOutcome(line: string): Result<Option<string>, Error> {
    if '=' in line then Ok(Some(ValueOf(line))) else Err(NameLineWithoutEquals(line))
  }

  /**
   * The stripped text after the first `=` of the first line mentioning
   * `marker`; `None` when no line mentions it.
   */
  function MarkedValue(lines: seq<string>, marker: string): (r: Result<Option<string>, Error>)
    ensures r == Ok(None) <==> forall i :: 0 <= i < |lines| ==> !Contains(lines[i], marker)
    ensures forall i :: FirstMention(lines, marker, i) ==> r == MentionOutcome(lines[i])
    ensures r.Err? <==> exists i :: FirstMention(lines, marker, i) && '=' !in lines[i]
    ensures r.Ok? && r.value.Some? ==>
      exists i :: (0 <= i < |lines| && Contains(lines[i], marker) && '=' in lines[i]
        && r.value.value == ValueOf(lines[i]) && forall j :: 0 <= j < i ==> !Contains(lines[j], marker))
    ensures r.Err? ==> r.error.NameLineWithoutEquals?
    decreases |lines|
  {
    if lines == [] then Ok(None)
    else if Contains(lines[0], marker) then
      assert FirstMention(lines, marker, 0);
      MentionOutcome(lines[0])
    else
      var r := MarkedValue(lines[1..], marker);
      MarkedValueStep(lines, marker, r);
      FirstMentionStep(lines, marker, r);
      r
  }

  lemma MarkedValueStep(lines: seq<string>, marker: string, r: Result<Option<string>, Error>)
    requires lines != [] && !Contains(lines[0], marker)
    requires r == Ok(None) <==> forall i :: 0 <= i < |lines[1..]| ==> !Contains(lines[1..][i], marker)
    requires r.Ok? && r.value.Some? ==>
      exists i :: (0 <= i < |lines[1..]| && Contains(lines[1..][i], marker) && '=' in lines[1..][i]
        && r.value.value == ValueOf(lines[1..][i]) && forall j :: 0 <= j < i ==> !Contains(lines[1..][j], marker))
    ensures r == Ok(None) <==> forall i :: 0 <= i < |lines| ==> !Contains(lines[i], marker)
    ensures r.Ok? && r.value.Some? ==>
      exists i :: (0 <= i < |lines| && Contains(lines[i], marker) && '=' in lines[i]
        && r.value.value == ValueOf(lines[i]) && forall j :: 0 <= j < i ==> !Contains(lines[j], marker))
  {
    if r.Ok? && r.value.Some? {
      var i :| 0 <= i < |lines[1..]| && Contains(lines[1..][i], marker) && '=' in lines[1..][i]
        && r.value.value == ValueOf(lines[1..][i]) && forall j :: 0 <= j < i ==> !Contains(lines[1..][j], marker);
      assert lines[i + 1] == lines[1..][i];
      forall j | 0 <= j < i + 1 ensures !Contains(lines[j], marker) {
        if j > 0 { assert lines[j] == lines[1..][j - 1]; }
      }
    }
    if forall i :: 0 <= i < |lines| ==> !Contains(lines[i], marker) {
      forall i | 0 <= i < |lines[1..]| ensures !Contains(lines[1..][i], marker) {
        assert lines[1..][i] == lines[i + 1];
      }
    }
    if r == Ok(None) {
      forall i | 0 <= i < |lines| ensures !Contains(lines[i], marker) {
        if i > 0 { assert lines[i] == lines[1..][i - 1]; }
      }
    }
  }

  /** Skipping a first line that does not mention the marker keeps the first mention's outcome. */
  lemma FirstMentionStep(lines: seq<string>, marker: string, r: Result<Option<string>, Error>)
    requires lines != [] && !Contains(lines[0], marker)
    requires forall i :: FirstMention(lines[1..], marker, i) ==> r == MentionOutcome(lines[1..][i])
    requires r.Err? <==> exists i :: FirstMention(lines[1..], marker, i) && '=' !in lines[1..][i]
    ensures forall i :: FirstMention(lines, marker, i) ==> r == MentionOutcome(lines[i])
    ensures r.Err? <==> exists i :: FirstMention(lines, marker, i) && '=' !in lines[i]
  {
    forall i | FirstMention(lines, marker, i) ensures r == MentionOutcome(lines[i]) {
      FirstMentionShift(lines, marker, i);
    }
    if r.Err? {
      var i :| FirstMention(lines[1..], marker, i) && '=' !in lines[1..][i];
      FirstMentionBack(lines, marker, i);
    }
    if exists i :: FirstMention(lines, marker, i) && '=' !in lines[i] {
      var i :| FirstMention(lines, marker, i) && '=' !in lines[i];
      FirstMentionShift(lines, marker, i);
    }
  }

  /** The first mention in `lines` is the one after it in `lines[1..]`, when `lines[0]` does not mention the marker. */
  lemma FirstMentionShift(lines: seq<string>, marker: string, i: int)
    requires lines != [] && !Contains(lines[0], marker) && FirstMention(lines, marker, i)
    ensures i >= 1 && FirstMention(lines[1..], marker, i - 1) && lines[1..][i - 1] == lines[i]
  {
    forall j | 0 <= j < i - 1 ensures !Contains(lines[1..][j], marker) {
      assert lines[1..][j] == lines[j + 1];
    }
  }

  lemma FirstMentionBack(lines: seq<string>, marker: string, i: int)
    requires lines != [] && !Contains(lines[0], marker) && FirstMention(lines[1..], marker, i)
    ensures FirstMention(lines, marker, i + 1) && lines[i + 1] == lines[1..][i]
  {
    forall j | 0 <= j < i + 1 ensures !Contains(lines[j], marker) {
      if j > 0 { assert lines[j] == lines[1..][j - 1]; }
    }
  }

  const PROJECT_NAME_MARKER := "COMPOSE_PROJECT_NAME"

  /** `get_project_name` (newer version) over the lines of `.env`; it falls off its end, giving `None`, when no line names the project. */
  function ProjectNameIn(lines: seq<string>): (r: Result<Option<string>, Error>)
    ensures r == Ok(None) <==> forall i :: 0 <= i < |lines| ==> !Contains(lines[i], PROJECT_NAME_MARKER)
    ensures forall i :: FirstMention(lines, PROJECT_NAME_MARKER, i) ==> r == MentionOutcome(lines[i])
    ensures r.Err? ==> r.error.NameLineWithoutEquals?
  {
    MarkedValue(lines, PROJECT_NAME_MARKER)
  }

  /**
   * `r` is what `get_project_name` reports for `lines`: `None` exactly when
   * no line names the project, otherwise what the first such line gives.
   */
  ghost predicate NameReported(lines: seq<string>, r: Result<Option<string>, Error>) {
    && (r == Ok(None) <==> forall i :: 0 <= i < |lines| ==> !Contains(lines[i], PROJECT_NAME_MARKER))
    && forall i :: FirstMention(lines, PROJECT_NAME_MARKER, i) ==> r == MentionOutcome(lines[i])
  }

  /** `get_project_name` on a directory, after the location check. */
  function ProjectNameOf(d: Dir): (r: Result<Option<string>, Error>)
    ensures r == Err(NotInProject) <==> !d.Exists(ENV_FILE)
    ensures d.Exists(ENV_FILE) ==> NameReported(Lines(d.content[ENV_FILE]), r)
  {
    if !d.Exists(ENV_FILE) then Err(NotInProject)
    else
      var lines := Lines(d.content[ENV_FILE]);
      var r := ProjectNameIn(lines);
      assert r != Err(NotInProject);
      assert NameReported(lines, r);
      r
  }
}
