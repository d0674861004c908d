/**
 * Container-name resolution, status reconciliation and the worker status
 * (src/denzel_cli/utils.py): which container runs each service, and which
 * state each service is reported in.
 */
module Containers {
  import opened Wrappers
  import opened Strings
  import opened PyDict
  import opened Config
  import opened Workspace
  import opened Markers
  import opened EnvFile

  // ---------------- matching container names ----------------

  /** A match of `^{project}_({services})_[0-9]+`: the service alternative taken and the digits after it. */
  datatype Hit = Hit(service: string, digits: string)

  /** The text such a match spans. */
  function Matched(project: string, h: Hit): string {
    project + "_" + h.service + "_" + h.digits
  }

  /** The fixed text the alternative `svc` needs before its digits. */
  function Head(project: string, svc: string): string {
    project + "_" + svc + "_"
  }

  /** Alternative `svc` can match at the start of `c`: its head, then at least one digit. */
  predicate CanMatch(project: string, svc: string, c: string) {
    var head := Head(project, svc);
    IsPrefix(head, c) && |c| > |head| && IsDigit(c[|head|])
  }

  /**
   * `re.match` of the alternation over `services`: the first alternative that
   * matches, with the greedy run of digits after it.
   */
  function MatchAmong(project: string, services: seq<string>, c: string): (r: Option<Hit>)
    ensures r.None? <==> forall svc :: svc in services ==> !CanMatch(project, svc, c)
    ensures r.Some? ==> r.value.service in services && CanMatch(project, r.value.service, c)
    ensures r.Some? ==> IsPrefix(Matched(project, r.value), c) && r.value.digits != []
    ensures r.Some? ==> (forall i :: 0 <= i < |r.value.digits| ==> IsDigit(r.value.digits[i]))
    ensures r.Some? ==> var n := |Matched(project, r.value)|; n < |c| ==> !IsDigit(c[n])
    decreases |services|
  {
    if services == [] then None
    else
      var head := Head(project, services[0]);
      if CanMatch(project, services[0], c) then
        var digits := DigitRun(c[|head|..]);
        assert c[..|head|] == head;
        assert c[..|head| + |digits|] == head + digits by {
          assert c[|head|..][..|digits|] == digits;
        }
        Some(Hit(services[0], digits))
      else MatchAmong(project, services[1..], c)
  }

  /** The alternative taken is the first in `services` that can match: none before it can. */
  lemma {:induction false} MatchAmongFirst(project: string, services: seq<string>, c: string)
    requires MatchAmong(project, services, c).Some?
    ensures exists k :: (0 <= k < |services| && services[k] == MatchAmong(project, services, c).value.service
      && forall j :: 0 <= j < k ==> !CanMatch(project, services[j], c))
    decreases |services|
  {
    if !CanMatch(project, services[0], c) {
      var rest := services[1..];
      MatchAmongFirst(project, rest, c);
      var k :| 0 <= k < |rest| && rest[k] == MatchAmong(project, rest, c).value.service
        && forall j :: 0 <= j < k ==> !CanMatch(project, rest[j], c);
      forall j | 0 <= j < k + 1 ensures !CanMatch(project, services[j], c) {
        if j > 0 { assert services[j] == rest[j - 1]; }
      }
      assert services[k + 1] == rest[k];
    }
  }

  /** `re.match(container_name_regex, c)` for the CLI's services. */
  function MatchContainer(project: string, c: string): (r: Option<Hit>)
    ensures r.Some? ==> r.value.service in SERVICES
  {
    MatchAmong(project, SERVICES, c)
  }

  lemma ServicesHaveNoUnderscore()
    ensures forall svc :: svc in SERVICES ==> '_' !in svc
  {
  }

  /**
   * The descriptor `name.split('_')[-2]` of a matched name is the service the
   * match took, whatever underscores the project name holds.
   */
  lemma DescriptorIsService(project: string, h: Hit)
    requires '_' !in h.service
    requires forall i :: 0 <= i < |h.digits| ==> IsDigit(h.digits[i])
    ensures var parts := Split(Matched(project, h), '_'); |parts| >= 2 && parts[|parts| - 2] == h.service
  {
    assert '_' !in h.digits by {
      forall i | 0 <= i < |h.digits| ensures h.digits[i] != '_' {
        assert IsDigit(h.digits[i]);
      }
    }
    var front := project + ['_'] + h.service;
    assert Matched(project, h) == front + ['_'] + h.digits;
    SplitSnoc(front, '_', h.digits);
    SplitSnoc(project, '_', h.service);
  }

  /** Listed name `c` matches, and the alternative taken is `svc`. */
  predicate MatchesService(project: string, services: seq<string>, c: string, svc: string) {
    MatchAmong(project, services, c).Some? && MatchAmong(project, services, c).value.service == svc
  }

  /**
   * The descriptor-to-name dict `get_containers_names` fills over the
   * containers listed so far, for the alternatives `services`.
   */
  function ResolveNames(project: string, services: seq<string>, containers: seq<string>): Dict<string, string>
    decreases |containers|
  {
    if containers == [] then Empty()
    else
      var d := ResolveNames(project, services, containers[..|containers| - 1]);
      match MatchAmong(project, services, containers[|containers| - 1])
      case None => d
      case Some(h) => d.Put(h.service, Matched(project, h))
  }

  /** The resolved dict is a well-formed dict keyed by services only. */
  lemma {:induction false} ResolvedKeysAreServices(project: string, services: seq<string>, cs: seq<string>)
    ensures ResolveNames(project, services, cs).Valid()
    ensures forall svc :: svc in ResolveNames(project, services, cs).vals ==> svc in services
    decreases |cs|
  {
    if cs != [] {
      ResolvedKeysAreServices(project, services, cs[..|cs| - 1]);
    }
  }

  /** A service is resolved exactly when some listed container matches with it. */
  lemma {:induction false} ResolvedPresence(project: string, services: seq<string>, cs: seq<string>, svc: string)
    ensures svc in ResolveNames(project, services, cs).vals <==> exists i :: 0 <= i < |cs| && MatchesService(project, services, cs[i], svc)
    decreases |cs|
  {
    if cs != [] {
      var n := |cs| - 1;
      var init := cs[..n];
      ResolvedPresence(project, services, init, svc);
      var p := (c: string) => MatchesService(project, services, c, svc);
      AnyHoldsSnoc(cs, p);
      assert (exists i :: 0 <= i < |cs| && MatchesService(project, services, cs[i], svc)) <==> AnyHolds(cs, p);
      assert (exists i :: 0 <= i < |init| && MatchesService(project, services, init[i], svc)) <==> AnyHolds(init, p);
      var d := ResolveNames(project, services, init);
      assert svc in ResolveNames(project, services, cs).vals <==> svc in d.vals || MatchesService(project, services, cs[n], svc);
    }
  }

  /**
   * When two containers match with the same service, the later one in the
   * listing wins: a service's value is the matched prefix of the last
   * container matching with it.
   */
  lemma {:induction false} ResolvedLastWins(project: string, services: seq<string>, cs: seq<string>, svc: string, i: nat)
    requires i < |cs| && MatchesService(project, services, cs[i], svc)
    requires forall j :: i < j < |cs| ==> !MatchesService(project, services, cs[j], svc)
    ensures svc in ResolveNames(project, services, cs).vals
    ensures ResolveNames(project, services, cs).vals[svc] == Matched(project, MatchAmong(project, services, cs[i]).value)
    decreases |cs|
  {
    var n := |cs| - 1;
    var init := cs[..n];
    var d := ResolveNames(project, services, init);
    var last := MatchAmong(project, services, cs[n]);
    if i < n {
      assert init[i] == cs[i];
      forall j | i < j < |init| ensures !MatchesService(project, services, init[j], svc) {
        assert init[j] == cs[j];
      }
      ResolvedLastWins(project, services, init, svc, i);
      assert !(last.Some? && last.value.service == svc);
    }
  }

  /** The project name as the regex receives it: a missing name formats as `None`. */
  function ProjectLabel(d: Dir): (r: Result<string, Error>)
    ensures r.Err? <==> ProjectNameOf(d).Err?
    ensures ProjectNameOf(d) == Ok(None) ==> r == Ok("None")
    ensures ProjectNameOf(d).Ok? && ProjectNameOf(d).value.Some? ==> r == Ok(ProjectNameOf(d).value.value)
  {
    match ProjectNameOf(d)
    case Err(e) => Err(e)
    case Ok(None) => Ok("None")
    case Ok(Some(n)) => Ok(n)
  }

  /** What `get_containers_names` returns in directory `d` against runtime `rt`. */
  function ContainersNamesOf(d: Dir, rt: Runtime): Result<Dict<string, string>, Error> {
    if !d.Exists(ENV_FILE) then Err(NotInProject)
    else
      match ProjectLabel(d)
      case Err(e) => Err(e)
      case Ok(project) => Ok(ResolveNames(project, SERVICES, rt.containers))
  }

  /** `get_containers_names`: the loop keying each matching container by its descriptor. */
  method GetContainersNames(p: Project, rt: Runtime) returns (r: Result<Dict<string, string>, Error>)
    ensures r == ContainersNamesOf(p.Files(), rt)
  {
    if ENV_FILE !in p.content {
      return Err(NotInProject);
    }
    var named := ProjectLabel(p.Files());
    if named.Err? {
      return Err(named.error);
    }
    var project := named.value;
    var containers := rt.containers;
    var names := Empty();
    var i := 0;
    while i < |containers|
      invariant 0 <= i <= |containers|
      invariant names == ResolveNames(project, SERVICES, containers[..i])
    {
      var container := containers[i];
      assert containers[..i + 1][..i] == containers[..i];
      var m := MatchAmong(project, SERVICES, container);
      if m.Some? {
        var name := Matched(project, m.value);
        ServicesHaveNoUnderscore();
        DescriptorIsService(project, m.value);
        var parts := Split(name, '_');
        var descriptor := parts[|parts| - 2];
        names := names.Put(descriptor, name);
      }
      i := i + 1;
    }
    assert containers[..i] == containers;
    r := Ok(names);
  }

  // ---------------- reconciling statuses ----------------

  /** The first of `files` starting with `prefix`, as `[f for f in files if re.match(prefix, f)][0]`. */
  function FirstWithPrefix(files: seq<string>, prefix: string): (r: Option<string>)
    ensures r.None? <==> forall i :: 0 <= i < |files| ==> !IsPrefix(prefix, files[i])
    ensures r.Some? ==> exists i :: (0 <= i < |files| && files[i] == r.value && IsPrefix(prefix, r.value)
      && forall j :: 0 <= j < i ==> !IsPrefix(prefix, files[j]))
  {
    if files == [] then None
    else if IsPrefix(prefix, files[0]) then Some(files[0])
    else
      var r := FirstWithPrefix(files[1..], prefix);
      assert r.Some? ==> exists i :: (0 <= i < |files| && files[i] == r.value && IsPrefix(prefix, r.value)
        && forall j :: 0 <= j < i ==> !IsPrefix(prefix, files[j])) by {
        if r.Some? {
          var i :| 0 <= i < |files[1..]| && files[1..][i] == r.value && IsPrefix(prefix, r.value)
            && forall j :: 0 <= j < i ==> !IsPrefix(prefix, files[1..][j]);
          assert files[i + 1] == files[1..][i];
          forall j | 0 <= j < i + 1 ensures !IsPrefix(prefix, files[j]) {
            if j > 0 { assert files[j] == files[1..][j - 1]; }
          }
        }
      }
      assert r.None? ==> forall i :: 0 <= i < |files| ==> !IsPrefix(prefix, files[i]) by {
        if r.None? {
          forall i | 0 <= i < |files| ensures !IsPrefix(prefix, files[i]) {
            if i > 0 { assert files[i] == files[1..][i - 1]; }
          }
        }
      }
      r
  }

  /**
   * The bucket one service lands in: DOWN when its container is not running;
   * otherwise the status its first marker decodes to (possibly `None`), or UP
   * when it has no marker.
   */
  function Classify(desc: string, container: string, live: seq<string>, dots: seq<string>): (r: Option<Status>)
    ensures container !in live ==> r == Some(DOWN)
    ensures container in live && (forall i :: 0 <= i < |dots| ==> !IsPrefix("." + desc, dots[i])) ==> r == Some(UP)
    ensures forall i :: container in live && FirstPrefixed(dots, "." + desc, i) ==> r == FileToStatus(dots[i])
  {
    if container !in live then Some(DOWN)
    else
      match FirstWithPrefix(dots, "." + desc)
      case None => Some(UP)
      case Some(f) =>
        FirstPrefixedUnique(dots, "." + desc, f);
        FileToStatus(f)
  }

  /** Index `i` holds the first of `files` that starts with `prefix`. */
  predicate FirstPrefixed(files: seq<string>, prefix: string, i: int) {
    0 <= i < |files| && IsPrefix(prefix, files[i]) && forall j :: 0 <= j < i ==> !IsPrefix(prefix, files[j])
  }

  /** Whatever index is the first prefixed one, it holds what `FirstWithPrefix` returns. */
  lemma FirstPrefixedUnique(files: seq<string>, prefix: string, f: string)
    requires FirstWithPrefix(files, prefix) == Some(f)
    ensures forall i :: FirstPrefixed(files, prefix, i) ==> files[i] == f
  {
    var k :| 0 <= k < |files| && files[k] == f && IsPrefix(prefix, f)
      && forall j :: 0 <= j < k ==> !IsPrefix(prefix, files[j]);
    assert FirstPrefixed(files, prefix, k);
  }

  /** The defaultdict of status buckets; a key is a status, or `None` for an undecodable marker. */
  type Buckets = Dict<Option<Status>, seq<string>>

  /** `status[key].append(s)` on a defaultdict(list). */
  function AddTo(b: Buckets, key: Option<Status>, s: string): Buckets {
    b.Put(key, b.Get(key).GetOr([]) + [s])
  }

  /** `status[key]` read without inserting: the bucket's list, empty when absent. */
  function Bucket(b: Buckets, key: Option<Status>): seq<string> {
    b.Get(key).GetOr([])
  }

  predicate Resolved(names: Dict<string, string>, keys: seq<string>) {
    forall i :: 0 <= i < |keys| ==> keys[i] in names.vals
  }

  /** The buckets after `get_containers_status` has placed the descriptors `keys`, in order. */
  function Reconcile(names: Dict<string, string>, keys: seq<string>, live: seq<string>, dots: seq<string>): Buckets
    requires Resolved(names, keys)
    decreases |keys|
  {
    if keys == [] then Empty()
    else
      var k := keys[|keys| - 1];
      AddTo(Reconcile(names, keys[..|keys| - 1], live, dots), Classify(k, names.vals[k], live, dots), k)
  }

  /** The descriptors of `keys` that classify as `st`, in order: an independent account of one bucket. */
  function Matching(names: Dict<string, string>, keys: seq<string>, live: seq<string>, dots: seq<string>, st: Option<Status>): (r: seq<string>)
    requires Resolved(names, keys)
    ensures forall x :: x in r <==> x in keys && Classify(x, names.vals[x], live, dots) == st
    decreases |keys|
  {
    if keys == [] then []
    else
      var k := keys[|keys| - 1];
      var r := Matching(names, keys[..|keys| - 1], live, dots, st);
      assert forall x :: x in keys <==> x in keys[..|keys| - 1] || x == k by {
        assert keys == keys[..|keys| - 1] + [k];
      }
      if Classify(k, names.vals[k], live, dots) == st then r + [k] else r
  }

  predicate Distinct(s: seq<string>) {
    forall i, j :: 0 <= i < j < |s| ==> s[i] != s[j]
  }

  /**
   * Each bucket holds exactly the descriptors classifying into it, in listing
   * order; only non-empty buckets exist.
   */
  lemma {:induction false} ReconcileBuckets(names: Dict<string, string>, keys: seq<string>, live: seq<string>, dots: seq<string>)
    requires Resolved(names, keys)
    ensures Reconcile(names, keys, live, dots).Valid()
    ensures forall st :: Bucket(Reconcile(names, keys, live, dots), st) == Matching(names, keys, live, dots, st)
    ensures forall st :: st in Reconcile(names, keys, live, dots).vals ==> Reconcile(names, keys, live, dots).vals[st] != []
    decreases |keys|
  {
    if keys != [] {
      ReconcileBuckets(names, keys[..|keys| - 1], live, dots);
    }
  }

  /** The descriptors of a distinct key list classifying as `st` are themselves distinct. */
  lemma {:induction false} MatchingDistinct(names: Dict<string, string>, keys: seq<string>, live: seq<string>, dots: seq<string>, st: Option<Status>)
    requires Resolved(names, keys) && Distinct(keys)
    ensures Distinct(Matching(names, keys, live, dots, st))
    decreases |keys|
  {
    if keys != [] {
      var init := keys[..|keys| - 1];
      assert Distinct(init) by {
        forall i, j | 0 <= i < j < |init| ensures init[i] != init[j] {
          assert init[i] == keys[i] && init[j] == keys[j];
        }
      }
      MatchingDistinct(names, init, live, dots, st);
      var k := keys[|keys| - 1];
      assert k !in init by {
        forall i | 0 <= i < |init| ensures init[i] != k {
          assert init[i] == keys[i];
        }
      }
    }
  }

  /**
   * Every resolved descriptor sits in exactly one bucket: the one it classifies
   * into, where it occurs once.
   */
  lemma ExactlyOneBucket(names: Dict<string, string>, live: seq<string>, dots: seq<string>, desc: string)
    requires names.Valid() && desc in names.vals
    ensures Resolved(names, names.keys)
    ensures forall st :: (desc in Bucket(Reconcile(names, names.keys, live, dots), st)
      <==> st == Classify(desc, names.vals[desc], live, dots))
    ensures forall st :: Distinct(Bucket(Reconcile(names, names.keys, live, dots), st))
  {
    assert Resolved(names, names.keys) by {
      forall i | 0 <= i < |names.keys| ensures names.keys[i] in names.vals {
        assert names.keys[i] in names.keys;
      }
    }
    assert desc in names.keys;
    ReconcileBuckets(names, names.keys, live, dots);
    forall st ensures Distinct(Bucket(Reconcile(names, names.keys, live, dots), st)) {
      MatchingDistinct(names, names.keys, live, dots, st);
    }
  }

  /**
   * The "not created" test `not status[DOWN] and not status[UP]` holds exactly
   * when no descriptor is classified UP or DOWN; for instance when every
   * running service carries a marker.
   */
  lemma NotCreatedIff(names: Dict<string, string>, live: seq<string>, dots: seq<string>)
    requires names.Valid()
    ensures Resolved(names, names.keys)
    ensures Bucket(Reconcile(names, names.keys, live, dots), Some(UP)) == []
      && Bucket(Reconcile(names, names.keys, live, dots), Some(DOWN)) == []
      <==> forall k :: k in names.vals ==>
        Classify(k, names.vals[k], live, dots) != Some(UP) && Classify(k, names.vals[k], live, dots) != Some(DOWN)
  {
    ResolvedKeys(names);
    ReconcileBuckets(names, names.keys, live, dots);
    EmptyMatching(names, names.keys, live, dots, Some(UP));
    EmptyMatching(names, names.keys, live, dots, Some(DOWN));
  }

  /** A bucket is empty exactly when no descriptor classifies into it. */
  lemma EmptyMatching(names: Dict<string, string>, keys: seq<string>, live: seq<string>, dots: seq<string>, st: Option<Status>)
    requires Resolved(names, keys) && names.Valid() && keys == names.keys
    ensures Matching(names, keys, live, dots, st) == [] <==> forall k :: k in names.vals ==> Classify(k, names.vals[k], live, dots) != st
  {
    var m := Matching(names, keys, live, dots, st);
    if m != [] {
      assert m[0] in m;
    }
    if exists k :: k in names.vals && Classify(k, names.vals[k], live, dots) == st {
      var k :| k in names.vals && Classify(k, names.vals[k], live, dots) == st;
      assert k in keys;
      assert k in m;
    }
  }

  /**
   * A marker that `set_status(st, service)` creates in a directory holding no
   * other file starting with `.service` decides that service's bucket while
   * its container runs.
   */
  lemma MarkerDecidesLiveStatus(d: Dir, st: Status, desc: string, container: string, live: seq<string>)
    requires '_' !in desc && container in live
    requires forall i :: 0 <= i < |d.names| ==> !IsPrefix("." + desc, d.names[i])
    requires MarkerName(st, desc) !in d.content
    ensures Classify(desc, container, live, d.Touch(MarkerName(st, desc)).DotFiles()) == Some(st)
  {
    NewMarkerFirst(d, st, desc);
    MarkerRoundTrip(st, desc);
  }

  /** The new marker is the first dot-file that starts with `.desc`. */
  lemma NewMarkerFirst(d: Dir, st: Status, desc: string)
    requires '_' !in desc
    requires forall i :: 0 <= i < |d.names| ==> !IsPrefix("." + desc, d.names[i])
    requires MarkerName(st, desc) !in d.content
    ensures FirstWithPrefix(d.Touch(MarkerName(st, desc)).DotFiles(), "." + desc) == Some(MarkerName(st, desc))
  {
    var m := MarkerName(st, desc);
    MarkerPrefixed(st, desc);
    NoDotPrefixed(d.names, "." + desc);
    assert d.Touch(m).names == d.names + [m];
    DotNamesSnoc(d.names, m);
    FirstWithPrefixSnoc(DotNames(d.names), "." + desc, m);
  }

  /** A marker name is a dot-file starting with `.` and the service. */
  lemma MarkerPrefixed(st: Status, desc: string)
    requires '_' !in desc
    ensures IsPrefix(".", MarkerName(st, desc)) && IsPrefix("." + desc, MarkerName(st, desc))
  {
    var m := MarkerName(st, desc);
    MarkerNameScheme(st, desc);
    if desc == "" {
      assert m == "." + MarkerSlug(st);
    } else {
      assert m == "." + desc + "_" + MarkerSlug(st);
      assert m[..|"." + desc|] == "." + desc;
    }
    assert m[..1] == ".";
  }

  /** When no name starts with `pre`, no dot-file does either. */
  lemma NoDotPrefixed(names: seq<string>, pre: string)
    requires forall i :: 0 <= i < |names| ==> !IsPrefix(pre, names[i])
    ensures FirstWithPrefix(DotNames(names), pre).None?
  {
    forall i | 0 <= i < |DotNames(names)| ensures !IsPrefix(pre, DotNames(names)[i]) {
      assert DotNames(names)[i] in DotNames(names);
    }
  }

  lemma {:induction false} DotNamesSnoc(names: seq<string>, m: string)
    requires IsPrefix(".", m)
    ensures DotNames(names + [m]) == DotNames(names) + [m]
    decreases |names|
  {
    if names == [] {
      assert [m][1..] == [];
    } else {
      assert (names + [m])[1..] == names[1..] + [m];
      DotNamesSnoc(names[1..], m);
    }
  }

  lemma {:induction false} FirstWithPrefixSnoc(files: seq<string>, prefix: string, m: string)
    requires FirstWithPrefix(files, prefix).None? && IsPrefix(prefix, m)
    ensures FirstWithPrefix(files + [m], prefix) == Some(m)
    decreases |files|
  {
    if files == [] {
    } else {
      assert (files + [m])[1..] == files[1..] + [m];
      assert !IsPrefix(prefix, files[0]);
      FirstWithPrefixSnoc(files[1..], prefix, m);
    }
  }

  /** What `get_containers_status` returns in directory `d` against runtime `rt`. */
  function ContainersStatusOf(d: Dir, rt: Runtime): (r: Result<Buckets, Error>)
    ensures r.Err? <==> ContainersNamesOf(d, rt).Err?
  {
    match ContainersNamesOf(d, rt)
    case Err(e) => Err(e)
    case Ok(names) =>
      ResolvedKeysAreServices(ProjectLabel(d).value, SERVICES, rt.containers);
      ResolvedKeys(names);
      Ok(Reconcile(names, names.keys, rt.live, d.DotFiles()))
  }

  /** Every service in a bucket has a resolved container. */
  lemma BucketsHoldResolved(d: Dir, rt: Runtime)
    requires ContainersStatusOf(d, rt).Ok?
    ensures ContainersNamesOf(d, rt).Ok?
    ensures forall st, s :: s in Bucket(ContainersStatusOf(d, rt).value, st) ==> s in ContainersNamesOf(d, rt).value.vals
  {
    var names := ContainersNamesOf(d, rt).value;
    ResolvedKeysAreServices(ProjectLabel(d).value, SERVICES, rt.containers);
    ResolvedKeys(names);
    ReconcileBuckets(names, names.keys, rt.live, d.DotFiles());
  }

  /** The buckets `get_containers_status` returns form a well-formed dictionary with no empty bucket. */
  lemma BucketsShape(d: Dir, rt: Runtime)
    requires ContainersStatusOf(d, rt).Ok?
    ensures ContainersStatusOf(d, rt).value.Valid()
    ensures var b := ContainersStatusOf(d, rt).value;
      forall st :: st in b.vals ==> b.vals[st] != []
  {
    var names := ContainersNamesOf(d, rt).value;
    ResolvedKeysAreServices(ProjectLabel(d).value, SERVICES, rt.containers);
    ResolvedKeys(names);
    ReconcileBuckets(names, names.keys, rt.live, d.DotFiles());
  }

  lemma ResolvedKeys(names: Dict<string, string>)
    ensures names.Valid() ==> Resolved(names, names.keys)
  {
    if names.Valid() {
      forall i | 0 <= i < |names.keys| ensures names.keys[i] in names.vals {
        assert names.keys[i] in names.keys;
      }
    }
  }

  /** `get_containers_status`: the descriptors, their containers and the markers, read once and bucketed. */
  method GetContainersStatus(p: Project, rt: Runtime) returns (r: Result<Buckets, Error>)
    ensures r == ContainersStatusOf(p.Files(), rt)
  {
    var res := GetContainersNames(p, rt);
    if res.Err? {
      return Err(res.error);
    }
    ResolvedKeysAreServices(ProjectLabel(p.Files()).value, SERVICES, rt.containers);
    ResolvedKeys(res.value);
    var status := BucketServices(res.value, rt.live, p.Files().DotFiles());
    r := Ok(status);
  }

  /** The loop of `get_containers_status`, appending each descriptor to the bucket of its status. */
  method BucketServices(names: Dict<string, string>, live: seq<string>, dots: seq<string>) returns (status: Buckets)
    requires Resolved(names, names.keys)
    ensures status == Reconcile(names, names.keys, live, dots)
  {
    var keys := names.keys;
    status := Empty();
    var i := 0;
    while i < |keys|
      invariant 0 <= i <= |keys|
      invariant status == Reconcile(names, keys[..i], live, dots)
    {
      var serviceName := keys[i];
      var service := names.vals[serviceName];
      var key: Option<Status>;
      if service in live {
        var marker := FirstWithPrefix(dots, "." + serviceName);
        if marker.Some? {
          key := FileToStatus(marker.value);
        } else {
          key := Some(UP);
        }
      } else {
        key := Some(DOWN);
      }
      ReconcileStep(names, keys, i, live, dots);
      status := AddTo(status, key, serviceName);
      i := i + 1;
    }
    assert keys[..i] == keys;
  }

  lemma ReconcileStep(names: Dict<string, string>, keys: seq<string>, i: nat, live: seq<string>, dots: seq<string>)
    requires Resolved(names, keys) && i < |keys|
    ensures Resolved(names, keys[..i]) && Resolved(names, keys[..i + 1])
    ensures Reconcile(names, keys[..i + 1], live, dots)
      == AddTo(Reconcile(names, keys[..i], live, dots), Classify(keys[i], names.vals[keys[i]], live, dots), keys[i])
  {
    assert keys[..i + 1][..i] == keys[..i];
  }

  // ---------------- worker status ----------------

  /** What the monitor's workers endpoint answers: no connection, or a status code and a JSON object of worker liveness. */
  datatype HttpOutcome = ConnectionRefused | Replied(code: int, workers: Dict<string, bool>)

  /** The marker the worker keeps while it loads its model. */
  const WORKER_LOADING := ".worker_loading"

  /** The worker's loading file follows the marker naming scheme for service `worker`. */
  lemma WorkerLoadingIsMarker(worker: string)
    requires worker == "worker"
    ensures WORKER_LOADING == MarkerName(LOADING, worker)
  {
    MarkerOfWorker(worker);
    WorkerScheme(worker, SlugText(LOADING));
  }

  lemma MarkerOfWorker(worker: string)
    requires worker == "worker"
    ensures MarkerName(LOADING, worker) == SchemeName(worker, SlugText(LOADING))
  {
    SlugLoading();
    NameScheme(worker, MarkerSlug(LOADING));
  }

  lemma WorkerScheme(worker: string, slug: string)
    requires worker == "worker" && slug == "loading"
    ensures SchemeName(worker, slug) == WORKER_LOADING
  {
  }

  /** `{worker: UP if up else DOWN for worker, up in workers.items()}` */
  function Translate(workers: Dict<string, bool>): (r: Dict<string, Status>)
    ensures r.keys == workers.keys && r.vals.Keys == workers.vals.Keys
    ensures forall w :: w in workers.vals ==> (r.vals[w] == UP <==> workers.vals[w]) && r.vals[w] in {UP, DOWN}
    ensures workers.Valid() ==> r.Valid()
  {
    Dict(workers.keys, map w | w in workers.vals :: if workers.vals[w] then UP else DOWN)
  }

  /** A one-entry dict. */
  function Single(k: string, st: Status): Dict<string, Status> {
    Empty().Put(k, st)
  }

  /**
   * `get_worker_status`: LOADING while the worker's marker exists, without
   * reading anything else; otherwise the monitor is asked on the port the
   * environment record gives (`monitor` stands for the HTTP call).
   */
  function WorkerStatus(d: Dir, monitor: string -> HttpOutcome): (r: Result<Dict<string, Status>, Error>)
    ensures d.Exists(ENV_FILE) && d.Exists(WORKER_LOADING) ==> r == Ok(Single("all", LOADING))
    ensures r.Ok? && r.value.Get("all") == Some(LOADING) ==> d.Exists(WORKER_LOADING)
    ensures r == Ok(Single("api", NA)) <==>
      d.Exists(ENV_FILE) && !d.Exists(WORKER_LOADING) && ReadEnvOf(d).Ok?
      && ReadEnvOf(d).value.Get("monitor_port").Some?
      && monitor(ReadEnvOf(d).value.Get("monitor_port").value).ConnectionRefused?
    ensures r.Ok? && r.value.Get("all") == Some(ERROR) ==>
      ReadEnvOf(d).Ok? && ReadEnvOf(d).value.Get("monitor_port").Some?
      && var answer := monitor(ReadEnvOf(d).value.Get("monitor_port").value);
      answer.Replied? && answer.code != 200 && r == Ok(Single("all", ERROR))
    ensures forall port, ws :: (ReadEnvOf(d).Ok? && ReadEnvOf(d).value.Get("monitor_port") == Some(port)
      && !d.Exists(WORKER_LOADING) && monitor(port) == Replied(200, ws)
      ==> r.Ok? && r.value.keys == ws.keys
          && forall w :: w in ws.vals ==> w in r.value.vals && (r.value.vals[w] == UP <==> ws.vals[w]))
    ensures forall port, c, ws :: (ReadEnvOf(d).Ok? && ReadEnvOf(d).value.Get("monitor_port") == Some(port)
      && !d.Exists(WORKER_LOADING) && monitor(port) == Replied(c, ws)
      ==> r == Ok(if c != 200 then Single("all", ERROR) else Translate(ws)))
  {
    if !d.Exists(ENV_FILE) then Err(NotInProject)
    else if d.Exists(WORKER_LOADING) then Ok(Single("all", LOADING))
    else
      match ReadEnvOf(d)
      case Err(e) => Err(e)
      case Ok(env) =>
        match env.Get("monitor_port")
        case None => Err(MissingEnvKey("monitor_port"))
        case Some(port) =>
          match monitor(port)
          case ConnectionRefused => Ok(Single("api", NA))
          case Replied(code, workers) =>
            if code != 200 then Ok(Single("all", ERROR)) else Ok(Translate(workers))
  }
}
