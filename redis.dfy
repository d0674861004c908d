/**
 * The two operations on the cache container (src/denzel_cli/utils.py):
 * `redis_backup` forces a data dump, `set_response_manner` stores the
 * synchronous-response timeout. Both act only while the `redis` service is UP.
 */
module Redis {
  import opened Wrappers
  import opened PyDict
  import opened Config
  import opened Workspace
  import opened Containers

  /** `'redis' in get_containers_status()[Status.UP]` */
  predicate RedisUp(status: Result<Buckets, Error>) {
    status.Ok? && "redis" in Bucket(status.value, Some(UP))
  }

  /**
   * The cache container both operations address: an error when the statuses
   * cannot be read, `None` when redis is not UP (they then do nothing), and
   * otherwise `containers_names['redis']`.
   */
  function TargetOf(d: Dir, rt: Runtime): (t: Result<Option<string>, Error>)
    ensures t.Err? <==> ContainersStatusOf(d, rt).Err?
    ensures t.Ok? && t.value.Some? <==> RedisUp(ContainersStatusOf(d, rt))
    ensures t.Ok? && t.value.Some? ==>
      ContainersNamesOf(d, rt).Ok? && "redis" in ContainersNamesOf(d, rt).value.vals
      && t.value.value == ContainersNamesOf(d, rt).value.vals["redis"]
  {
    var status := ContainersStatusOf(d, rt);
    if status.Err? then Err(status.error)
    else if "redis" !in Bucket(status.value, Some(UP)) then Ok(None)
    else
      BucketsHoldResolved(d, rt);
      Ok(Some(ContainersNamesOf(d, rt).value.vals["redis"]))
  }

  /** The status lookup and container fetch both operations open with. */
  method FetchTarget(p: Project, rt: Runtime) returns (t: Result<Option<string>, Error>)
    ensures t == TargetOf(p.Files(), rt)
  {
    var status := GetContainersStatus(p, rt);
    if status.Err? {
      return Err(status.error);
    }
    if "redis" !in Bucket(status.value, Some(UP)) {
      return Ok(None);
    }
    BucketsHoldResolved(p.Files(), rt);
    var names := GetContainersNames(p, rt);
    t := Ok(Some(names.value.vals["redis"]));
  }

  /** The entries for commands issued while the names `present` exist. */
  function Entries(cs: seq<Command>, present: set<string>): (es: seq<Entry>)
    ensures |es| == |cs| && forall i :: 0 <= i < |cs| ==> es[i] == Entry(cs[i], present)
  {
    seq(|cs|, i requires 0 <= i < |cs| => Entry(cs[i], present))
  }

  lemma EntriesAppend(a: seq<Command>, b: seq<Command>, present: set<string>)
    ensures Entries(a, present) + Entries(b, present) == Entries(a + b, present)
  {
  }

  lemma EntriesSingle(c: Command, present: set<string>)
    ensures Entries([c], present) == [Entry(c, present)]
  {
  }

  /**
   * The commands `redis_backup` issues: none unless redis is UP; then one
   * dump inside the cache container, `bgsave` in the background and `save`
   * in the foreground.
   */
  function BackupCommands(target: Result<Option<string>, Error>, background: bool): (cs: seq<Command>)
    ensures |cs| <= 1
    ensures cs != [] <==> target.Ok? && target.value.Some?
    ensures cs != [] ==> cs[0].RedisExec? && cs[0].container == target.value.value
    ensures cs != [] ==> (cs[0].redis == BgSave <==> background) && (cs[0].redis == Save <==> !background)
  {
    if target.Err? || target.value.None? then []
    else [RedisExec(target.value.value, if background then BgSave else Save)]
  }

  /** `redis_backup`: reads the statuses, and dumps the cache when redis is UP. */
  method RedisBackup(p: Project, rt: Runtime, background: bool) returns (r: Result<(), Error>)
    requires p.Valid()
    modifies p
    ensures p.Valid() && p.Files() == old(p.Files())
    ensures r == if TargetOf(old(p.Files()), rt).Err? then Err(TargetOf(old(p.Files()), rt).error) else Ok(())
    ensures p.log == old(p.log) + Entries(BackupCommands(TargetOf(old(p.Files()), rt), background), old(p.content).Keys)
  {
    var target := FetchTarget(p, rt);
    if target.Err? {
      return Err(target.error);
    }
    if target.value.None? {
      return Ok(());
    }
    var command := if background then BgSave else Save;
    ghost var present := p.content.Keys;
    p.Run(RedisExec(target.value.value, command));
    assert BackupCommands(target, background) == [RedisExec(target.value.value, command)];
    EntriesSingle(RedisExec(target.value.value, command), present);
    r := Ok(());
  }

  /** The value `set_response_manner` stores: the timeout when synchronous, `0.0` otherwise. */
  function StoredTimeout(synchronous: bool, timeout: real): (t: real)
    ensures !synchronous ==> t == 0.0
    ensures synchronous ==> t == timeout
  {
    if synchronous then timeout else 0.0
  }

  /**
   * What `set_response_manner` does, as its result and the commands it issues
   * in order: nothing when redis is not UP; otherwise it stores the timeout,
   * fails when the exec exits non-zero (skipping the backup), and finishes
   * with a background backup.
   */
  function ResponseManner(target: Result<Option<string>, Error>, execExit: int, synchronous: bool, timeout: real)
    : (out: (Result<(), Error>, seq<Command>))
    ensures target.Err? ==> out == (Err(target.error), [])
    ensures target == Ok(None) ==> out == (Ok(()), [])
    ensures target.Ok? && target.value.Some? ==>
      out.1 != [] && out.1[0] == RedisExec(target.value.value, SetTimeout(StoredTimeout(synchronous, timeout)))
    ensures target.Ok? && target.value.Some? && execExit != 0 ==> out.0 == Err(ResponseMannerFailed) && |out.1| == 1
    ensures target.Ok? && target.value.Some? && execExit == 0 ==>
      out.0 == Ok(()) && out.1[1..] == [RedisExec(target.value.value, BgSave)]
  {
    if target.Err? then (Err(target.error), [])
    else if target.value.None? then (Ok(()), [])
    else
      var store := RedisExec(target.value.value, SetTimeout(StoredTimeout(synchronous, timeout)));
      if execExit != 0 then (Err(ResponseMannerFailed), [store])
      else (Ok(()), [store] + BackupCommands(target, true))
  }

  /** `set_response_manner`, step by step. */
  method SetResponseManner(p: Project, rt: Runtime, synchronous: bool, timeout: real) returns (r: Result<(), Error>)
    requires p.Valid()
    modifies p
    ensures p.Valid() && p.Files() == old(p.Files())
    ensures var out := ResponseManner(TargetOf(old(p.Files()), rt), rt.execExit, synchronous, timeout);
      r == out.0 && p.log == old(p.log) + Entries(out.1, old(p.content).Keys)
  {
    ghost var log0, present := p.log, p.content.Keys;
    var target := FetchTarget(p, rt);
    if target.Err? {
      return Err(target.error);
    }
    if target.value.None? {
      assert Entries([], present) == [];
      return Ok(());
    }
    var stored := timeout;
    if !synchronous {
      stored := 0.0;
    }
    var store := RedisExec(target.value.value, SetTimeout(stored));
    p.Run(store);
    EntriesSingle(store, present);
    if rt.execExit != 0 {
      return Err(ResponseMannerFailed);
    }
    r := RedisBackup(p, rt, true);
    MannerEntries(log0, store, BackupCommands(target, true), present);
  }

  /** The log of a store followed by the backup's commands. */
  lemma MannerEntries(log0: seq<Entry>, store: Command, rest: seq<Command>, present: set<string>)
    ensures log0 + Entries([store], present) + Entries(rest, present) == log0 + Entries([store] + rest, present)
  {
    EntriesAppend([store], rest, present);
  }
}
