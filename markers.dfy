/**
 * The status-marker store (src/denzel_cli/utils.py): a hidden file named
 * `.{service_}{slug}` records that a long operation is in progress for one
 * service, or for the whole project when the service is empty.
 */
module Markers {
  import opened Wrappers
  import opened Strings
  import opened Config
  import opened Workspace

  /** The slug as `set_status` computes it: `value.split(' ')[0].lower().strip('.')`. */
  function MarkerSlug(st: Status): string {
    Strip(Lower(Split(Value(st), ' ')[0]), {'.'})
  }

  /** The slug as `file_to_status` computes it: `value.split(' ')[0].strip('.').lower()`. */
  function EnumSlug(st: Status): string {
    Lower(Strip(Split(Value(st), ' ')[0], {'.'}))
  }

  /** The slugs the configured values produce, written out. */
  function SlugText(st: Status): string {
    match st
    case UP => "up"
    case DOWN => "down"
    case BUILDING => "building"
    case UPDATE_OS_REQS => "updating-os"
    case UPDATE_PIP_REQS => "updating-pip"
    case LOADING => "loading"
    case ERROR => "error"
    case NA => "n/a"
  }

  lemma SlugOfWord(word: string, rest: string, slug: string)
    requires ' ' !in word && (rest == [] || rest[0] == ' ')
    requires word != [] && word[0] != '.' && word[|word| - 1] != '.'
    requires Lower(word) == slug
    ensures Strip(Lower(Split(word + rest, ' ')[0]), {'.'}) == slug
    ensures Lower(Strip(Split(word + rest, ' ')[0], {'.'})) == slug
  {
    SplitHead(word, rest, ' ');
    StripNoop(word, {'.'});
    assert slug[0] == LowerChar(word[0]) && slug[|slug| - 1] == LowerChar(word[|word| - 1]);
    StripNoop(slug, {'.'});
  }

  /** Every slug is a non-empty word with no `_` and no `.` at either end. */
  predicate WellFormedSlug(slug: string) {
    slug != [] && '_' !in slug && slug[0] != '.' && slug[|slug| - 1] != '.'
  }

  lemma SlugFromValue(st: Status, word: string, rest: string)
    requires Value(st) == word + rest
    requires ' ' !in word && (rest == [] || rest[0] == ' ')
    requires word != [] && word[0] != '.' && word[|word| - 1] != '.'
    requires Lower(word) == SlugText(st) && '_' !in SlugText(st)
    ensures MarkerSlug(st) == SlugText(st) && EnumSlug(st) == SlugText(st)
    ensures WellFormedSlug(SlugText(st))
  {
    SlugOfWord(word, rest, SlugText(st));
  }

  lemma SlugUp()
    ensures MarkerSlug(UP) == SlugText(UP) && EnumSlug(UP) == SlugText(UP)
    ensures WellFormedSlug(SlugText(UP))
  {
    SlugFromValue(UP, "UP", "");
  }

  lemma SlugDown()
    ensures MarkerSlug(DOWN) == SlugText(DOWN) && EnumSlug(DOWN) == SlugText(DOWN)
    ensures WellFormedSlug(SlugText(DOWN))
  {
    SlugFromValue(DOWN, "DOWN", "");
  }

  lemma SlugBuilding()
    ensures MarkerSlug(BUILDING) == SlugText(BUILDING) && EnumSlug(BUILDING) == SlugText(BUILDING)
    ensures WellFormedSlug(SlugText(BUILDING))
  {
    SlugFromValue(BUILDING, "BUILDING", TAKES_A_WHILE);
  }

  lemma SlugUpdateOsReqs()
    ensures MarkerSlug(UPDATE_OS_REQS) == SlugText(UPDATE_OS_REQS) && EnumSlug(UPDATE_OS_REQS) == SlugText(UPDATE_OS_REQS)
    ensures WellFormedSlug(SlugText(UPDATE_OS_REQS))
  {
    SlugFromValue(UPDATE_OS_REQS, "UPDATING-OS", TAKES_A_WHILE);
  }

  lemma SlugUpdatePipReqs()
    ensures MarkerSlug(UPDATE_PIP_REQS) == SlugText(UPDATE_PIP_REQS) && EnumSlug(UPDATE_PIP_REQS) == SlugText(UPDATE_PIP_REQS)
    ensures WellFormedSlug(SlugText(UPDATE_PIP_REQS))
  {
    SlugFromValue(UPDATE_PIP_REQS, "UPDATING-PIP", TAKES_A_WHILE);
  }

  lemma SlugLoading()
    ensures MarkerSlug(LOADING) == SlugText(LOADING) && EnumSlug(LOADING) == SlugText(LOADING)
    ensures WellFormedSlug(SlugText(LOADING))
  {
    SlugFromValue(LOADING, "LOADING", "");
  }

  lemma SlugError()
    ensures MarkerSlug(ERROR) == SlugText(ERROR) && EnumSlug(ERROR) == SlugText(ERROR)
    ensures WellFormedSlug(SlugText(ERROR))
  {
    SlugFromValue(ERROR, "ERROR", "");
  }

  lemma SlugNa()
    ensures MarkerSlug(NA) == SlugText(NA) && EnumSlug(NA) == SlugText(NA)
    ensures WellFormedSlug(SlugText(NA))
  {
    SlugFromValue(NA, "N/A", "");
  }

  /** Both ways of computing a slug agree, give the slug written out in `SlugText`, and it is well formed. */
  lemma SlugsAre(st: Status)
    ensures MarkerSlug(st) == SlugText(st) && EnumSlug(st) == SlugText(st)
    ensures WellFormedSlug(SlugText(st))
  {
    match st
    case UP => SlugUp();
    case DOWN => SlugDown();
    case BUILDING => SlugBuilding();
    case UPDATE_OS_REQS => SlugUpdateOsReqs();
    case UPDATE_PIP_REQS => SlugUpdatePipReqs();
    case LOADING => SlugLoading();
    case ERROR => SlugError();
    case NA => SlugNa();
  }

  /** The conditions the marker naming scheme needs of the configured values: distinct, well-formed slugs. */
  lemma SlugsWellFormed(a: Status, b: Status)
    ensures WellFormedSlug(MarkerSlug(a))
    ensures a != b ==> MarkerSlug(a) != MarkerSlug(b)
  {
    SlugsAre(a);
    SlugsAre(b);
    assert a != b ==> |SlugText(a)| != |SlugText(b)|;
  }

  /** The marker's file name: `'.' + '_'.join([service, slug]).strip('_')`. */
  function MarkerName(st: Status, service: string): string {
    "." + Strip(Join([service, MarkerSlug(st)], "_"), {'_'})
  }

  lemma JoinStrip(service: string, slug: string)
    requires '_' !in service && WellFormedSlug(slug)
    ensures Strip(Join([service, slug], "_"), {'_'}) == if service == "" then slug else service + "_" + slug
  {
    var joined := Join([service, slug], "_");
    assert [service, slug][1..] == [slug];
    assert Join([slug], "_") == slug;
    assert joined == service + "_" + slug;
    if service == "" {
      assert joined == "_" + slug;
      assert StripLeft(joined, {'_'}) == StripLeft(slug, {'_'}) by { assert joined[1..] == slug; }
      StripNoop(slug, {'_'});
    } else {
      assert joined[0] == service[0] && joined[|joined| - 1] == slug[|slug| - 1];
      StripNoop(joined, {'_'});
    }
  }

  /** A project-wide marker is `.slug`; a service marker is `.service_slug`. */
  lemma MarkerNameScheme(st: Status, service: string)
    requires '_' !in service
    ensures service == "" ==> MarkerName(st, service) == "." + MarkerSlug(st)
    ensures service != "" ==> MarkerName(st, service) == "." + service + "_" + MarkerSlug(st)
  {
    SlugsWellFormed(st, st);
    NameScheme(service, MarkerSlug(st));
  }

  /** The naming scheme written out: `.slug` without a service, `.service_slug` with one. */
  function SchemeName(service: string, slug: string): string {
    if service == "" then "." + slug else "." + service + "_" + slug
  }

  lemma NameScheme(service: string, slug: string)
    requires '_' !in service && WellFormedSlug(slug)
    ensures "." + Strip(Join([service, slug], "_"), {'_'}) == SchemeName(service, slug)
  {
    JoinStrip(service, slug);
  }

  /** The first status, in enumeration order, whose slug is `s`. */
  function FindStatus(s: string, candidates: seq<Status>): Option<Status> {
    if candidates == [] then None
    else if EnumSlug(candidates[0]) == s then Some(candidates[0])
    else FindStatus(s, candidates[1..])
  }

  /** The loop over the enum returns a status whose slug is `s`, and `None` only when no status has it. */
  lemma {:induction false} FindStatusFound(s: string, candidates: seq<Status>)
    ensures var r := FindStatus(s, candidates);
      && (r.Some? ==> r.value in candidates && EnumSlug(r.value) == s)
      && (r.None? ==> forall c :: c in candidates ==> EnumSlug(c) != s)
    decreases |candidates|
  {
    if candidates != [] && EnumSlug(candidates[0]) != s {
      FindStatusFound(s, candidates[1..]);
      assert forall c :: c in candidates ==> c == candidates[0] || c in candidates[1..];
    }
  }

  /** `file_to_status`: the status whose slug is the text after the name's last `_`, dots stripped. */
  function FileToStatus(filename: string): Option<Status> {
    FindStatus(TrailingText(filename), AllStatuses)
  }

  /** `filename.split('_')[-1].strip('.')` */
  function TrailingText(filename: string): string {
    var parts := Split(filename, '_');
    Strip(parts[|parts| - 1], {'.'})
  }

  lemma AllStatusesListed(st: Status)
    ensures st in AllStatuses
  {
    match st
    case UP => assert AllStatuses[0] == st;
    case DOWN => assert AllStatuses[1] == st;
    case BUILDING => assert AllStatuses[2] == st;
    case UPDATE_OS_REQS => assert AllStatuses[3] == st;
    case UPDATE_PIP_REQS => assert AllStatuses[4] == st;
    case LOADING => assert AllStatuses[5] == st;
    case ERROR => assert AllStatuses[6] == st;
    case NA => assert AllStatuses[7] == st;
  }

  /** `file_to_status` returns `None` exactly when no status has the name's trailing slug. */
  lemma FileToStatusNone(filename: string)
    ensures FileToStatus(filename).None? <==> forall st: Status :: EnumSlug(st) != TrailingText(filename)
  {
    NoStatusFound(TrailingText(filename));
  }

  lemma NoStatusFound(s: string)
    ensures FindStatus(s, AllStatuses).None? <==> forall st: Status :: EnumSlug(st) != s
  {
    FindStatusFound(s, AllStatuses);
    if FindStatus(s, AllStatuses).None? {
      forall st: Status ensures EnumSlug(st) != s {
        AllStatusesListed(st);
      }
    }
  }

  /** The text after a marker name's last `_`, dots stripped, is the status slug. */
  lemma TrailingSlug(st: Status, service: string)
    requires '_' !in service
    ensures TrailingText(MarkerName(st, service)) == MarkerSlug(st)
  {
    var slug := MarkerSlug(st);
    SlugsWellFormed(st, st);
    NameScheme(service, slug);
    SlugAfterLastUnderscore(service, slug);
  }

  lemma SlugAfterLastUnderscore(service: string, slug: string)
    requires '_' !in service && WellFormedSlug(slug)
    ensures TrailingText(SchemeName(service, slug)) == slug
  {
    var name := SchemeName(service, slug);
    if service == "" {
      assert '_' !in name;
      SplitWithout(name, '_');
      assert StripLeft(name, {'.'}) == StripLeft(slug, {'.'}) by { assert name[1..] == slug; }
      StripNoop(slug, {'.'});
    } else {
      assert name == ("." + service) + ['_'] + slug;
      SplitSnoc("." + service, '_', slug);
      StripNoop(slug, {'.'});
    }
  }

  /** Looking a slug up among all statuses finds the status it came from. */
  lemma FindOwnSlug(st: Status)
    ensures FindStatus(MarkerSlug(st), AllStatuses) == Some(st)
  {
    var r := FindStatus(MarkerSlug(st), AllStatuses);
    FindStatusFound(MarkerSlug(st), AllStatuses);
    SlugsAre(st);
    AllStatusesListed(st);
    SlugsAre(r.value);
    SlugsWellFormed(st, r.value);
  }

  /** Marker names round-trip: decoding the name `set_status` builds gives back its status. */
  lemma MarkerRoundTrip(st: Status, service: string)
    requires '_' !in service
    ensures FileToStatus(MarkerName(st, service)) == Some(st)
  {
    TrailingSlug(st, service);
    FindOwnSlug(st);
  }

  /** `status_to_color`: success for UP, failure for DOWN, neutral for every transient state. */
  function StatusToColor(st: Status): (c: Color)
    ensures c == SUCCESS <==> st == UP
    ensures c == FAILURE <==> st == DOWN
    ensures c == NEUTRAL <==> st !in {UP, DOWN}
  {
    if st == UP then SUCCESS else if st == DOWN then FAILURE else NEUTRAL
  }

  /** Entering `set_status`: the marker file is created, or left as it is if it already exists. */
  method EnterStatus(p: Project, st: Status, service: string) returns (name: string)
    requires p.Valid()
    modifies p
    ensures name == MarkerName(st, service)
    ensures p.Valid() && p.Files() == old(p.Files()).Touch(name) && p.log == old(p.log)
  {
    name := MarkerName(st, service);
    p.Touch(name);
  }

  /** Leaving `set_status` (its `finally`): with `remove`, the marker is deleted if present. */
  method ExitStatus(p: Project, name: string, remove: bool)
    requires p.Valid()
    modifies p
    ensures p.Valid() && p.log == old(p.log)
    ensures p.Files() == if remove then old(p.Files()).Delete(name) else old(p.Files())
  {
    if remove && p.Files().Exists(name) {
      p.Delete(name);
    } else if remove {
      DeleteAbsent(p.Files(), name);
    }
  }

  /** How the body of a `with` block ended. */
  datatype Outcome = Completed | Raised

  /**
   * `with set_status(st, service, remove): body` for a body that touches no file
   * and ends as `body` says. The block's outcome is the body's; afterwards the
   * directory is as before with the marker removed (when `remove`) or added.
   */
  method WithStatus(p: Project, st: Status, service: string, remove: bool, body: Outcome)
    returns (out: Outcome, name: string)
    requires p.Valid()
    modifies p
    ensures out == body && name == MarkerName(st, service)
    ensures p.Valid() && p.log == old(p.log)
    ensures p.Files() == if remove then old(p.Files()).Delete(name) else old(p.Files()).Touch(name)
  {
    name := EnterStatus(p, st, service);
    out := body;
    ExitStatus(p, name, remove);
    DeleteAfterTouch(old(p.Files()), name);
  }

  /** A removing block leaves no marker and every other file exactly as it was. */
  lemma MarkerGoneAfterwards(d: Dir, name: string)
    requires d.Valid()
    ensures !d.Touch(name).Delete(name).Exists(name)
    ensures forall n :: n != name ==> (d.Touch(name).Delete(name).Exists(n) <==> d.Exists(n))
    ensures forall n :: n != name && d.Exists(n) ==> d.Touch(name).Delete(name).content[n] == d.content[n]
    ensures d.Touch(name).Delete(name) == d.Delete(name)
  {
    DeleteAfterTouch(d, name);
  }

  /** Creating a marker twice is creating it once. */
  lemma TouchIdempotent(d: Dir, name: string)
    ensures d.Touch(name).Touch(name) == d.Touch(name)
  {
  }
}
