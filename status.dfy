/**
 * The `status` command (src/denzel_cli/commands.py): the services listed by
 * status bucket, the port of each exposed service that is UP, and the
 * workers' statuses while the monitor is UP.
 */
module StatusView {
  import opened Wrappers
  import opened PyDict
  import opened Config
  import opened Workspace
  import opened EnvFile
  import opened Containers

  /** One line of the service listing: the service, its status, and its port when one is shown. */
  datatype Row = Row(service: string, status: Status, port: Option<string>)

  /** What `status` shows: the not-created notice, or the service rows and, while the monitor is UP, the workers. */
  datatype Report = NotCreated | Shown(rows: seq<Row>, workers: Option<Dict<string, Status>>)

  /** The port rule: shown exactly for an exposed service that is UP, and then read from `<service>_port`. */
  predicate PortShown(row: Row, env: Dict<string, string>) {
    && (row.port.Some? <==> row.service in SERVICES_WITH_EXPOSED_PORT && row.status == UP)
    && (row.port.Some? ==> env.Get(row.service + "_port") == row.port)
  }

  /**
   * The line for `service` in bucket `st`: a bucket without a status raises
   * on `status.value`, and a missing port entry raises on the lookup.
   */
  function RowFor(st: Option<Status>, service: string, env: Dict<string, string>): (r: Result<Row, Error>)
    ensures st.None? ==> r == Err(NoStatusValue(service))
    ensures r.Ok? ==> r.value.service == service && Some(r.value.status) == st && PortShown(r.value, env)
    ensures st == Some(UP) && service in SERVICES_WITH_EXPOSED_PORT && env.Get(service + "_port").None? ==>
      r == Err(MissingEnvKey(service + "_port"))
    ensures r.Err? ==> st.None? || (st == Some(UP) && service in SERVICES_WITH_EXPOSED_PORT && env.Get(service + "_port").None?)
  {
    if st.None? then Err(NoStatusValue(service))
    else if service in SERVICES_WITH_EXPOSED_PORT && st.value == UP then
      match env.Get(service + "_port")
      case None => Err(MissingEnvKey(service + "_port"))
      case Some(port) => Ok(Row(service, st.value, Some(port)))
    else Ok(Row(service, st.value, None))
  }

  /** The lines of one bucket, in order; the first service that cannot be shown raises. */
  function BucketRows(st: Option<Status>, services: seq<string>, env: Dict<string, string>): Result<seq<Row>, Error>
    decreases |services|
  {
    if services == [] then Ok([])
    else
      match BucketRows(st, services[..|services| - 1], env)
      case Err(e) => Err(e)
      case Ok(rows) =>
        match RowFor(st, services[|services| - 1], env)
        case Err(e) => Err(e)
        case Ok(row) => Ok(rows + [row])
  }

  /** The lines of the buckets `keys`, bucket after bucket. */
  function AllRows(b: Buckets, keys: seq<Option<Status>>, env: Dict<string, string>): Result<seq<Row>, Error>
    decreases |keys|
  {
    if keys == [] then Ok([])
    else
      match AllRows(b, keys[..|keys| - 1], env)
      case Err(e) => Err(e)
      case Ok(rows) =>
        match BucketRows(keys[|keys| - 1], Bucket(b, keys[|keys| - 1]), env)
        case Err(e) => Err(e)
        case Ok(more) => Ok(rows + more)
  }

  /** What `status` reports in directory `d`, the monitor's answers given by `monitor`. */
  function StatusOf(d: Dir, rt: Runtime, monitor: string -> HttpOutcome): Result<Report, Error> {
    if !d.Exists(ENV_FILE) then Err(NotInProject)
    else
      match ContainersStatusOf(d, rt)
      case Err(e) => Err(e)
      case Ok(b) =>
        match ReadEnvOf(d)
        case Err(e) => Err(e)
        case Ok(env) =>
          if Bucket(b, Some(DOWN)) == [] && Bucket(b, Some(UP)) == [] then Ok(NotCreated)
          else ListingOf(d, b, env, monitor)
  }

  /** The listing of the buckets `b`, followed by the workers when the monitor is UP. */
  function ListingOf(d: Dir, b: Buckets, env: Dict<string, string>, monitor: string -> HttpOutcome): Result<Report, Error> {
    match AllRows(b, b.keys, env)
    case Err(e) => Err(e)
    case Ok(rows) =>
      if "monitor" !in Bucket(b, Some(UP)) then Ok(Shown(rows, None))
      else
        match WorkerStatus(d, monitor)
        case Err(e) => Err(e)
        case Ok(ws) => Ok(Shown(rows, Some(ws)))
  }

  lemma {:induction false} BucketRowsErrSticks(st: Option<Status>, services: seq<string>, n: nat, env: Dict<string, string>)
    requires n <= |services| && BucketRows(st, services[..n], env).Err?
    ensures BucketRows(st, services, env) == BucketRows(st, services[..n], env)
    decreases |services| - n
  {
    if n < |services| {
      assert services[..n + 1][..n] == services[..n];
      BucketRowsErrSticks(st, services, n + 1, env);
    } else {
      assert services[..n] == services;
    }
  }

  lemma {:induction false} AllRowsErrSticks(b: Buckets, keys: seq<Option<Status>>, n: nat, env: Dict<string, string>)
    requires n <= |keys| && AllRows(b, keys[..n], env).Err?
    ensures AllRows(b, keys, env) == AllRows(b, keys[..n], env)
    decreases |keys| - n
  {
    if n < |keys| {
      assert keys[..n + 1][..n] == keys[..n];
      AllRowsErrSticks(b, keys, n + 1, env);
    } else {
      assert keys[..n] == keys;
    }
  }

  /** The inner loop of `status`: the lines of one bucket, service after service. */
  method BucketLines(st: Option<Status>, services: seq<string>, env: Dict<string, string>) returns (r: Result<seq<Row>, Error>)
    ensures r == BucketRows(st, services, env)
  {
    var more: seq<Row> := [];
    var j := 0;
    while j < |services|
      invariant 0 <= j <= |services|
      invariant BucketRows(st, services[..j], env) == Ok(more)
    {
      var service := services[j];
      assert BucketRows(st, services[..j + 1], env)
        == (match RowFor(st, service, env) case Err(e) => Err(e) case Ok(row) => Ok(more + [row])) by {
        assert services[..j + 1][..j] == services[..j];
      }
      if st.None? {
        BucketRowsErrSticks(st, services, j + 1, env);
        return Err(NoStatusValue(service));
      }
      var port: Option<string> := None;
      if service in SERVICES_WITH_EXPOSED_PORT && st.value == UP {
        var key := service + "_port";
        if key !in env.vals {
          BucketRowsErrSticks(st, services, j + 1, env);
          return Err(MissingEnvKey(key));
        }
        port := Some(env.vals[key]);
      }
      more := more + [Row(service, st.value, port)];
      j := j + 1;
    }
    assert services[..j] == services;
    r := Ok(more);
  }

  /** The outer loop of `status`: the lines of every bucket, in the order of the buckets. */
  method ListRows(b: Buckets, env: Dict<string, string>) returns (r: Result<seq<Row>, Error>)
    ensures r == AllRows(b, b.keys, env)
  {
    var rows: seq<Row> := [];
    var i := 0;
    while i < |b.keys|
      invariant 0 <= i <= |b.keys|
      invariant AllRows(b, b.keys[..i], env) == Ok(rows)
    {
      var more := BucketLines(b.keys[i], Bucket(b, b.keys[i]), env);
      assert AllRows(b, b.keys[..i + 1], env)
        == (match more case Err(e) => Err(e) case Ok(m) => Ok(rows + m)) by {
        assert b.keys[..i + 1][..i] == b.keys[..i];
      }
      if more.Err? {
        AllRowsErrSticks(b, b.keys, i + 1, env);
        return Err(more.error);
      }
      rows := rows + more.value;
      i := i + 1;
    }
    assert b.keys[..i] == b.keys;
    r := Ok(rows);
  }

  /** `status`: the listing, computed by the loops over the buckets and their services (one pass of the display loop). */
  method ShowStatus(p: Project, rt: Runtime, monitor: string -> HttpOutcome) returns (r: Result<Report, Error>)
    ensures r == StatusOf(p.Files(), rt, monitor)
  {
    if ENV_FILE !in p.content {
      return Err(NotInProject);
    }
    var status := GetContainersStatus(p, rt);
    if status.Err? {
      return Err(status.error);
    }
    var env := ReadEnv(p);
    if env.Err? {
      return Err(env.error);
    }
    var b := status.value;
    if Bucket(b, Some(DOWN)) == [] && Bucket(b, Some(UP)) == [] {
      return Ok(NotCreated);
    }
    var rows := ListRows(b, env.value);
    if rows.Err? {
      return Err(rows.error);
    }
    if "monitor" !in Bucket(b, Some(UP)) {
      return Ok(Shown(rows.value, None));
    }
    var workers := WorkerStatus(p.Files(), monitor);
    if workers.Err? {
      return Err(workers.error);
    }
    r := Ok(Shown(rows.value, Some(workers.value)));
  }

  /** A service that cannot be shown in bucket `i` makes the whole listing raise that error. */
  lemma ShowStatusFails(b: Buckets, i: nat, services: seq<string>, n: nat, env: Dict<string, string>)
    requires i < |b.keys| && services == Bucket(b, b.keys[i]) && n <= |services|
    requires AllRows(b, b.keys[..i], env).Ok? && BucketRows(b.keys[i], services[..n], env).Err?
    ensures AllRows(b, b.keys, env) == BucketRows(b.keys[i], services[..n], env)
  {
    BucketRowsErrSticks(b.keys[i], services, n, env);
    assert b.keys[..i + 1][..i] == b.keys[..i];
    AllRowsErrSticks(b, b.keys, i + 1, env);
  }

  /** Row `k` of a bucket is the line for the bucket's `k`-th service. */
  lemma {:induction false} BucketRowsShape(st: Option<Status>, services: seq<string>, env: Dict<string, string>)
    requires BucketRows(st, services, env).Ok?
    ensures var rows := BucketRows(st, services, env).value;
      && |rows| == |services|
      && forall k :: 0 <= k < |rows| ==> RowFor(st, services[k], env) == Ok(rows[k])
    decreases |services|
  {
    if services != [] {
      var n := |services| - 1;
      BucketRowsShape(st, services[..n], env);
    }
  }

  /** A listed service: some row shows `s` with status `st`. */
  predicate Listed(rows: seq<Row>, s: string, st: Status) {
    exists k :: 0 <= k < |rows| && rows[k].service == s && rows[k].status == st
  }

  /** Every row of a successful listing is in the bucket of its status and obeys the port rule. */
  lemma {:induction false} AllRowsShown(b: Buckets, keys: seq<Option<Status>>, env: Dict<string, string>)
    requires AllRows(b, keys, env).Ok?
    ensures var rows := AllRows(b, keys, env).value;
      forall k :: 0 <= k < |rows| ==> PortShown(rows[k], env) && rows[k].service in Bucket(b, Some(rows[k].status))
    decreases |keys|
  {
    if keys != [] {
      var n := |keys| - 1;
      AllRowsShown(b, keys[..n], env);
      var rows := AllRows(b, keys[..n], env).value;
      var st := keys[n];
      var services := Bucket(b, st);
      BucketRowsShape(st, services, env);
      var more := BucketRows(st, services, env).value;
      var all := rows + more;
      assert AllRows(b, keys, env) == Ok(all);
      forall k | |rows| <= k < |all|
        ensures PortShown(all[k], env) && all[k].service in Bucket(b, Some(all[k].status))
      {
        assert all[k] == more[k - |rows|];
      }
    }
  }

  /**
   * Every service of every listed bucket has a row under that bucket's
   * status; a bucket without a status cannot be listed unless it is empty.
   */
  lemma {:induction false} AllRowsCover(b: Buckets, keys: seq<Option<Status>>, env: Dict<string, string>)
    requires AllRows(b, keys, env).Ok?
    ensures forall i, s :: 0 <= i < |keys| && s in Bucket(b, keys[i]) ==>
      keys[i].Some? && Listed(AllRows(b, keys, env).value, s, keys[i].value)
    decreases |keys|
  {
    if keys != [] {
      var n := |keys| - 1;
      var init := keys[..n];
      AllRowsCover(b, init, env);
      var rows := AllRows(b, init, env).value;
      var st := keys[n];
      var services := Bucket(b, st);
      BucketRowsShape(st, services, env);
      var more := BucketRows(st, services, env).value;
      var all := rows + more;
      assert AllRows(b, keys, env) == Ok(all);
      forall i, s | 0 <= i < |keys| && s in Bucket(b, keys[i])
        ensures keys[i].Some? && Listed(all, s, keys[i].value)
      {
        if i == n {
          var k :| 0 <= k < |services| && services[k] == s;
          assert RowFor(st, services[k], env) == Ok(more[k]);
          assert all[|rows| + k] == more[k];
        } else {
          assert keys[i] == init[i];
          var k :| 0 <= k < |rows| && rows[k].service == s && rows[k].status == keys[i].value;
          assert all[k] == rows[k];
        }
      }
    }
  }

  /**
   * A successful listing holds a row for every service of every bucket,
   * under that bucket's status, and nothing else: each row's service is in
   * the bucket of its status and obeys the port rule. A bucket without a
   * status (an unrecognised marker) cannot be listed.
   */
  lemma AllRowsListing(b: Buckets, keys: seq<Option<Status>>, env: Dict<string, string>)
    requires AllRows(b, keys, env).Ok?
    ensures var rows := AllRows(b, keys, env).value;
      forall k :: 0 <= k < |rows| ==> PortShown(rows[k], env) && rows[k].service in Bucket(b, Some(rows[k].status))
    ensures forall i :: 0 <= i < |keys| && Bucket(b, keys[i]) != [] ==> keys[i].Some?
    ensures forall i, s :: 0 <= i < |keys| && s in Bucket(b, keys[i]) ==>
      keys[i].Some? && Listed(AllRows(b, keys, env).value, s, keys[i].value)
  {
    AllRowsShown(b, keys, env);
    AllRowsCover(b, keys, env);
    forall i | 0 <= i < |keys| && Bucket(b, keys[i]) != [] ensures keys[i].Some? {
      assert Bucket(b, keys[i])[0] in Bucket(b, keys[i]);
    }
  }

  /**
   * `status` reports "not created" exactly when no resolved service is
   * classified UP or DOWN (given the statuses and `.env` can be read).
   */
  lemma NotCreatedReported(d: Dir, rt: Runtime, monitor: string -> HttpOutcome)
    requires d.Exists(ENV_FILE) && ContainersNamesOf(d, rt).Ok? && ReadEnvOf(d).Ok?
    ensures var names := ContainersNamesOf(d, rt).value;
      StatusOf(d, rt, monitor) == Ok(NotCreated) <==>
        forall k :: k in names.vals ==>
          Classify(k, names.vals[k], rt.live, d.DotFiles()) != Some(UP)
          && Classify(k, names.vals[k], rt.live, d.DotFiles()) != Some(DOWN)
  {
    var names := ContainersNamesOf(d, rt).value;
    ResolvedKeysAreServices(ProjectLabel(d).value, SERVICES, rt.containers);
    var b := Reconcile(names, names.keys, rt.live, d.DotFiles());
    assert ContainersStatusOf(d, rt) == Ok(b);
    NotCreatedWhenEmpty(d, rt, monitor, b);
    NotCreatedIff(names, rt.live, d.DotFiles());
  }

  /** With the statuses `b` and `.env` read, "not created" is reported exactly when UP and DOWN are empty. */
  lemma NotCreatedWhenEmpty(d: Dir, rt: Runtime, monitor: string -> HttpOutcome, b: Buckets)
    requires d.Exists(ENV_FILE) && ContainersStatusOf(d, rt) == Ok(b) && ReadEnvOf(d).Ok?
    ensures StatusOf(d, rt, monitor) == Ok(NotCreated) <==> Bucket(b, Some(DOWN)) == [] && Bucket(b, Some(UP)) == []
  {
    ListingNotNotCreated(d, b, ReadEnvOf(d).value, monitor);
  }

  /** A listing is never the "not created" report. */
  lemma ListingNotNotCreated(d: Dir, b: Buckets, env: Dict<string, string>, monitor: string -> HttpOutcome)
    ensures ListingOf(d, b, env, monitor) != Ok(NotCreated)
  {
  }

  /**
   * A shown listing lists every bucketed service once per bucket under its
   * status with the port rule, only when no service had an unrecognised
   * marker, and includes the workers exactly when the monitor is UP.
   */
  lemma ShownListing(d: Dir, rt: Runtime, monitor: string -> HttpOutcome)
    requires StatusOf(d, rt, monitor).Ok? && StatusOf(d, rt, monitor).value.Shown?
    ensures ContainersStatusOf(d, rt).Ok? && ReadEnvOf(d).Ok?
    ensures var b := ContainersStatusOf(d, rt).value;
      var env := ReadEnvOf(d).value;
      var report := StatusOf(d, rt, monitor).value;
      && Bucket(b, None) == []
      && (forall k :: 0 <= k < |report.rows| ==>
            PortShown(report.rows[k], env) && report.rows[k].service in Bucket(b, Some(report.rows[k].status)))
      && (forall st, s :: s in Bucket(b, Some(st)) ==> Listed(report.rows, s, st))
      && (report.workers.Some? <==> "monitor" in Bucket(b, Some(UP)))
      && (report.workers.Some? ==> WorkerStatus(d, monitor) == Ok(report.workers.value))
  {
    var b := ContainersStatusOf(d, rt).value;
    var env := ReadEnvOf(d).value;
    BucketsShape(d, rt);
    RowsListing(b, env);
  }

  /**
   * With the monitor UP, a monitor that cannot be read fails the whole
   * command with the monitor's error, whatever the rows were.
   */
  lemma WorkersFailStatus(d: Dir, rt: Runtime, monitor: string -> HttpOutcome)
    requires d.Exists(ENV_FILE) && ContainersStatusOf(d, rt).Ok? && ReadEnvOf(d).Ok?
    requires var b := ContainersStatusOf(d, rt).value;
      && "monitor" in Bucket(b, Some(UP))
      && AllRows(b, b.keys, ReadEnvOf(d).value).Ok?
    requires WorkerStatus(d, monitor).Err?
    ensures StatusOf(d, rt, monitor) == Err(WorkerStatus(d, monitor).error)
  {
  }

  /** The rows of a well-formed bucket dictionary with no empty bucket list exactly its services. */
  lemma RowsListing(b: Buckets, env: Dict<string, string>)
    requires b.Valid() && forall st :: st in b.vals ==> b.vals[st] != []
    requires AllRows(b, b.keys, env).Ok?
    ensures var rows := AllRows(b, b.keys, env).value;
      && Bucket(b, None) == []
      && (forall k :: 0 <= k < |rows| ==>
            PortShown(rows[k], env) && rows[k].service in Bucket(b, Some(rows[k].status)))
      && (forall st, s :: s in Bucket(b, Some(st)) ==> Listed(rows, s, st))
  {
    AllRowsListing(b, b.keys, env);
    forall st, s | s in Bucket(b, Some(st)) ensures Listed(AllRows(b, b.keys, env).value, s, st) {
      assert Some(st) in b.vals;
      assert Some(st) in b.keys;
      var i :| 0 <= i < |b.keys| && b.keys[i] == Some(st);
    }
    forall key | key in b.vals ensures key.Some? {
      assert key in b.keys;
      var i :| 0 <= i < |b.keys| && b.keys[i] == key;
    }
  }
}
