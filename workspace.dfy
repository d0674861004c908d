/**
 * The state the CLI works on: the project directory it is run from (file
 * names in listing order, and their text), the container runtime and host it
 * observes, and the external commands it issues.
 */
module Workspace {
  import opened Wrappers
  import opened Strings
  import opened Config

  /** The exceptions the CLI raises, by cause. */
  datatype Error =
    | NotInProject                        // no `.env`: the location check's ClickException
    | EnvLineWithoutEquals(line: string)  // ValueError unpacking `line.split('=', maxsplit=1)`
    | NameLineWithoutEquals(line: string) // IndexError on `line.split('=', maxsplit=1)[1]`
    | MissingEnvKey(key: string)          // KeyError on a key of the environment record
    | NoProjectName                       // the older get_project_name's FileNotFoundError
    | AlreadyLaunched
    | PortTaken(port: int)
    | ResponseMannerFailed
    | WorkerLogMissing
    | DirectoryExists(name: string)
    | NoStatusValue(service: string)      // AttributeError: `None.value` while showing a status
    | UnknownService(service: string)     // KeyError on the container-name mapping
    | BlankPsLine(line: string)           // IndexError on `line.split()[0]`

  /** `[f for f in names if f != x]` */
  function Without(names: seq<string>, x: string): (r: seq<string>)
    ensures forall y :: y in r <==> y in names && y != x
  {
    if names == [] then [] else (if names[0] == x then [] else [names[0]]) + Without(names[1..], x)
  }

  lemma {:induction false} WithoutSnoc(names: seq<string>, x: string)
    ensures Without(names + [x], x) == Without(names, x)
  {
    if names == [] {
      assert [x][1..] == [];
    } else {
      assert (names + [x])[1..] == names[1..] + [x];
      WithoutSnoc(names[1..], x);
    }
  }

  lemma {:induction false} WithoutAbsent(names: seq<string>, x: string)
    requires x !in names
    ensures Without(names, x) == names
  {
    if names != [] {
      WithoutAbsent(names[1..], x);
      assert names == [names[0]] + names[1..];
    }
  }

  /** `[f for f in names if f.startswith('.')]` */
  function DotNames(names: seq<string>): (r: seq<string>)
    ensures forall f :: f in r <==> f in names && IsPrefix(".", f)
  {
    if names == [] then []
    else (if IsPrefix(".", names[0]) then [names[0]] else []) + DotNames(names[1..])
  }

  /** A directory: its entries in the order listing reports them, and the text of each. */
  datatype Dir = Dir(names: seq<string>, content: map<string, string>) {

    ghost predicate Valid() {
      content.Keys == set n | n in names
    }

    /** `os.path.exists(n)` */
    predicate Exists(n: string) {
      n in content
    }

    /** `open(n, 'a')`, closed at once: creates an empty file, keeps an existing one as it is. */
    function Touch(n: string): (d: Dir)
      ensures Valid() ==> d.Valid()
      ensures d.content == if n in content then content else content[n := ""]
    {
      if n in content then this else Dir(names + [n], content[n := ""])
    }

    /** `os.remove(n)` */
    function Delete(n: string): (d: Dir)
      ensures Valid() ==> d.Valid()
      ensures d.content == content - {n}
    {
      Dir(Without(names, n), content - {n})
    }

    /** `open(n, 'w').write(s)` */
    function Write(n: string, s: string): (d: Dir)
      ensures Valid() ==> d.Valid()
      ensures d.content == content[n := s]
    {
      if n in content then Dir(names, content[n := s]) else Dir(names + [n], content[n := s])
    }

    /** `[f for f in os.listdir('.') if f.startswith('.')]` */
    function DotFiles(): seq<string> {
      DotNames(names)
    }
  }

  /** Creating a file and then deleting it leaves the directory as deleting alone would. */
  lemma DeleteAfterTouch(d: Dir, n: string)
    requires d.Valid()
    ensures d.Touch(n).Delete(n) == d.Delete(n)
  {
    if n !in d.content {
      WithoutSnoc(d.names, n);
    }
  }

  /** Deleting a file that is not there changes nothing. */
  lemma DeleteAbsent(d: Dir, n: string)
    requires d.Valid() && n !in d.content
    ensures d.Delete(n) == d
  {
    WithoutAbsent(d.names, n);
  }

  /**
   * What the CLI observes of the host: the containers the runtime knows (all,
   * and the running ones), the local-address column `netstat -lant` prints,
   * the exit code an exec inside the cache container returns, and the text
   * `docker-compose ps` prints.
   */
  datatype Runtime = Runtime(
    containers: seq<string>,
    live: seq<string>,
    listening: seq<string>,
    execExit: int,
    psOutput: string)

  datatype RedisCommand = Save | BgSave | SetTimeout(timeout: real)

  /** An external command: a subprocess, or an exec inside a named container. */
  datatype Command =
    | Subprocess(argv: seq<string>)
    | RedisExec(container: string, redis: RedisCommand)

  /** A command as issued, with the names present in the directory while it ran. */
  datatype Entry = Entry(command: Command, present: set<string>)

  /** The directory the CLI runs in, and the commands it has issued so far. */
  class Project {
    var names: seq<string>
    var content: map<string, string>
    var log: seq<Entry>

    function Files(): Dir
      reads this
    {
      Dir(names, content)
    }

    ghost predicate Valid()
      reads this
    {
      Files().Valid()
    }

    constructor (d: Dir)
      requires d.Valid()
      ensures Valid() && Files() == d && log == []
    {
      names, content := d.names, d.content;
      log := [];
    }

    method Touch(n: string)
      requires Valid()
      modifies this
      ensures Valid() && Files() == old(Files()).Touch(n) && log == old(log)
    {
      if n !in content {
        names, content := names + [n], content[n := ""];
      }
    }

    method Delete(n: string)
      requires Valid()
      modifies this
      ensures Valid() && Files() == old(Files()).Delete(n) && log == old(log)
    {
      names, content := Without(names, n), content - {n};
    }

    method Write(n: string, s: string)
      requires Valid()
      modifies this
      ensures Valid() && Files() == old(Files()).Write(n, s) && log == old(log)
    {
      if n !in content {
        names := names + [n];
      }
      content := content[n := s];
    }

    /**
     * `verify_location`: the check every command runs first, failing unless
     * the environment record `.env` is in the current directory.
     */
    method VerifyLocation() returns (r: Result<(), Error>)
      ensures r == if ENV_FILE in content then Ok(()) else Err(NotInProject)
    {
      if ENV_FILE !in content {
        return Err(NotInProject);
      }
      r := Ok(());
    }

    /** Issues a command; the directory is left as it is. */
    method Run(c: Command)
      requires Valid()
      modifies this
      ensures Valid() && Files() == old(Files())
      ensures log == old(log) + [Entry(c, old(content).Keys)]
    {
      log := log + [Entry(c, content.Keys)];
    }
  }
}
