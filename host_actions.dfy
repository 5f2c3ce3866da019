/**
 * The host-system package commands: Install, Remove and the image update
 * they trigger (applyChange), and the input checks of Info, Search and List.
 *
 * The commands work against the host package table (HostStore) and three
 * collaborators whose code is not part of this model: the apt front end
 * (dry run, dialog, real run, installed list), the desired-configuration
 * service and the image builder. Each collaborator is an input describing
 * how it answers: `Apt`, `HostImage` and `Env`.
 *
 * What a command changes is kept in the fields of `HostActions`: the
 * desired configuration, the real apt runs made so far, the images built
 * so far, and the rows of the package table.
 */
module HostActions {
  import opened Wrappers
  import opened Text
  import opened Sql
  import HS = HostStore

  // ---------------------------------------------------------------------
  // The desired configuration: packages to add to or drop from the image
  // ---------------------------------------------------------------------

  datatype DesiredConfig = DesiredConfig(install: seq<string>, remove: seq<string>)

  /**
   * Assumed of the configuration service, whose code is not part of this
   * model: no name is both to install and to remove.
   */
  predicate Disjoint(c: DesiredConfig) {
    forall n :: n in c.install ==> n !in c.remove
  }

  function Without(xs: seq<string>, n: string): (r: seq<string>)
    ensures forall x :: x in r <==> x in xs && x != n
    ensures n !in xs ==> r == xs
  {
    if xs == [] then [] else (if xs[0] == n then [] else [xs[0]]) + Without(xs[1..], n)
  }

  /** Records an install intent: the name ends up to install and not to remove; no other name moves. */
  function AddInstall(c: DesiredConfig, n: string): (r: DesiredConfig)
    ensures n in r.install && n !in r.remove
    ensures forall x :: x != n ==> (x in r.install <==> x in c.install) && (x in r.remove <==> x in c.remove)
    ensures n in c.install && n !in c.remove ==> r == c
  {
    DesiredConfig(if n in c.install then c.install else c.install + [n], Without(c.remove, n))
  }

  /** Records a remove intent: the name ends up to remove and not to install; no other name moves. */
  function AddRemove(c: DesiredConfig, n: string): (r: DesiredConfig)
    ensures n in r.remove && n !in r.install
    ensures forall x :: x != n ==> (x in r.install <==> x in c.install) && (x in r.remove <==> x in c.remove)
    ensures n in c.remove && n !in c.install ==> r == c
  {
    DesiredConfig(Without(c.install, n), if n in c.remove then c.remove else c.remove + [n])
  }

  // ---------------------------------------------------------------------
  // Collaborators
  // ---------------------------------------------------------------------

  /** The process environment: atomic image or not, and how the root check and `apt-get update` end. */
  datatype Env = Env(isAtomic: bool, rootError: Option<string>, updateError: Option<string>)

  /** The counts and the removed names of a dry run. */
  datatype DryRun = DryRun(newInstalled: nat, upgraded: nat, removed: nat, removedPackages: seq<string>)

  datatype ErrorCode = AlreadyNewest | NotInstalled | OtherCode(id: string)

  /** An apt message the front end recognised, with its first parameter (a package name). */
  datatype Match = Match(code: ErrorCode, param: string)

  /** One error apt reported: critical or not, recognised or not. */
  datatype AptError = AptError(critical: bool, matched: Option<Match>, message: string)

  datatype CheckReport = CheckReport(parse: DryRun, errors: seq<AptError>)

  datatype DialogAction = ActionInstall | ActionMultiInstall | ActionRemove

  /**
   * How apt answers one command: the dry run for the joined names, the
   * dialog's answer for an action, the errors of the real run, the
   * installed list read afterwards and the fault the table sync meets.
   */
  datatype Apt = Apt(
    check: string -> CheckReport,
    dialog: DialogAction -> Result<bool, string>,
    run: string -> seq<AptError>,
    installedNow: Result<map<string, string>, string>,
    syncFault: HS.SyncFault)

  /** How the configuration service and the image builder answer. A write error fails every add. */
  datatype HostImage = HostImage(
    loadError: Option<string>,
    writeError: Option<string>,
    generateError: Option<string>,
    buildError: Option<string>)

  /** A real apt run with the space-joined names it was given. */
  datatype Run = InstallRun(names: string) | RemoveRun(names: string)

  /** The apt run an install or a removal of the joined names starts. */
  function RunOf(names: string, isInstall: bool): (r: Run)
    ensures r.names == names && (r.InstallRun? <==> isInstall)
  {
    if isInstall then InstallRun(names) else RemoveRun(names)
  }

  /** The first critical error, if any. */
  function FindCritical(errors: seq<AptError>): (r: Option<string>)
    ensures r.None? <==> forall k :: 0 <= k < |errors| ==> !errors[k].critical
  {
    if errors == [] then None
    else if errors[0].critical then Some(errors[0].message)
    else FindCritical(errors[1..])
  }

  /** The recognised errors, in order. */
  function MatchedOf(errors: seq<AptError>): (r: seq<Match>)
    ensures |r| <= |errors|
    ensures r == [] <==> forall k :: 0 <= k < |errors| ==> errors[k].matched.None?
  {
    if errors == [] then []
    else
      var last := errors[|errors| - 1];
      MatchedOf(errors[..|errors| - 1]) + (if last.matched.Some? then [last.matched.value] else [])
  }

  /** The parameters of the recognised errors carrying `code`, in order. */
  function ParamsWith(matched: seq<Match>, code: ErrorCode): (r: seq<string>)
    ensures forall x :: x in r <==> exists k :: 0 <= k < |matched| && matched[k] == Match(code, x)
  {
    if matched == [] then []
    else
      var last := matched[|matched| - 1];
      var rest := ParamsWith(matched[..|matched| - 1], code);
      assert forall k :: 0 <= k < |matched| - 1 ==> matched[..|matched| - 1][k] == matched[k];
      rest + (if last.code == code then [last.param] else [])
  }

  // ---------------------------------------------------------------------
  // Outcomes
  // ---------------------------------------------------------------------

  /** How a command ends. */
  datatype Outcome =
    | RootDenied(reason: string)
    | DbUnavailable(reason: string)
    | NoPackages
    | LookupFailed(error: HS.StoreError)
    | NotFound(name: string)
    | DidYouMean(error: HS.StoreError, alternatives: seq<string>)
    | CriticalError(reason: string)
    | NothingToDo(imageUpdated: bool)
    | ConfigFailed(reason: string)
    | DriftApplyFailed(reason: string)
    | DialogFailed(reason: string)
    | Cancelled
    | ExecFailed(reason: string)
    | InstalledListFailed(reason: string)
    | SyncFailed(error: HS.StoreError)
    | ApplyFailed(reason: string)
    | Done(imageChanged: bool)

  /** Whether the response carries the error flag. */
  predicate ErrorResponse(o: Outcome) {
    !(o.Cancelled? || o.Done?)
  }

  /** Whether the command also returns a Go error beside the response. */
  predicate ReturnsError(o: Outcome) {
    !(o.NoPackages? || o.DidYouMean? || o.ConfigFailed? || o.Cancelled? || o.Done?)
  }

  /** The outcomes reached only after the real apt run was started. */
  predicate Executed(o: Outcome) {
    o.ExecFailed? || o.InstalledListFailed? || o.SyncFailed? || o.ApplyFailed? || o.Done?
  }

  /** The outcomes of the "nothing to do" branch. */
  predicate NothingBranch(o: Outcome) {
    o.NothingToDo? || o.ConfigFailed? || o.DriftApplyFailed?
  }

  const NotAtomicMessage := "option is available only on an atomic system"

  // ---------------------------------------------------------------------
  // Name resolution
  // ---------------------------------------------------------------------

  predicate IsMarker(c: char) {
    c == '+' || c == '-'
  }

  predicate EndsWithMarker(s: string) {
    |s| > 0 && IsMarker(s[|s| - 1])
  }

  /** Whether the table holds a package of that name (the lookup by name succeeds). */
  function Known(db: HS.HostTable, name: string): bool
    reads db
  {
    db.created && HS.FirstNamed(db.rows, name).Some?
  }

  /** Drop trailing markers one at a time until a lookup succeeds or no marker is left. */
  function Strip(db: HS.HostTable, s: string): string
    reads db
    decreases |s|
  {
    if EndsWithMarker(s) then
      var shorter := s[..|s| - 1];
      if Known(db, shorter) then shorter else Strip(db, shorter)
    else s
  }

  /** The name applyChange records: the name itself when known, else its stripped form. */
  function Canonical(db: HS.HostTable, pkg: string): string
    reads db
  {
    if Known(db, pkg) then pkg else Strip(db, pkg)
  }

  /**
   * Stripping removes only trailing markers, stops at the longest known
   * prefix, and otherwise ends when no marker is left.
   */
  lemma {:induction false} StripMeaning(db: HS.HostTable, s: string)
    ensures var r := Strip(db, s);
      r <= s
      && (forall i :: |r| <= i < |s| ==> IsMarker(s[i]))
      && (Known(db, r) || !EndsWithMarker(r))
      && (forall j :: |r| < j < |s| ==> !Known(db, s[..j]))
    decreases |s|
  {
    if EndsWithMarker(s) {
      var shorter := s[..|s| - 1];
      if !Known(db, shorter) {
        StripMeaning(db, shorter);
        var r := Strip(db, shorter);
        assert forall j :: |r| < j < |shorter| ==> s[..j] == shorter[..j];
        assert forall i :: |r| <= i < |shorter| ==> s[i] == shorter[i];
      }
    }
  }

  /** The canonical name is the name itself when known; otherwise a marker-stripped prefix as above. */
  lemma CanonicalMeaning(db: HS.HostTable, pkg: string)
    ensures Known(db, pkg) ==> Canonical(db, pkg) == pkg
    ensures var r := Canonical(db, pkg);
      r <= pkg
      && (forall i :: |r| <= i < |pkg| ==> IsMarker(pkg[i]))
      && (Known(db, r) || !EndsWithMarker(r))
      && (forall j :: |r| < j < |pkg| ==> !Known(db, pkg[..j]))
  {
    if !Known(db, pkg) {
      StripMeaning(db, pkg);
    }
  }

  /** Install's resolution of one name: the package name found and whether a marker had to be dropped, or the last lookup's error. */
  datatype Resolution = Resolved(name: string, viaStrip: bool) | Unresolved(error: HS.StoreError)

  /**
   * A name resolves as itself when known; otherwise, when it ends in a
   * marker and the name without that one marker is known, as that name;
   * otherwise not at all, with the error of the last lookup tried.
   */
  function ResolveOne(db: HS.HostTable, pkg: string): (r: Resolution)
    reads db
    ensures r.Resolved? ==> Known(db, r.name) && (r.name == pkg <==> !r.viaStrip)
    ensures r.Unresolved? ==> !Known(db, pkg) && r.error.PackageNotFound? && !Known(db, r.error.name)
  {
    if Known(db, pkg) then Resolved(pkg, false)
    else if EndsWithMarker(pkg) then
      var shorter := pkg[..|pkg| - 1];
      if Known(db, shorter) then Resolved(shorter, true) else Unresolved(HS.PackageNotFound(shorter))
    else Unresolved(HS.PackageNotFound(pkg))
  }

  /** Which intent a name records: a trailing '+' or '-' wins over the command's own. */
  function Intent(pkg: string, isInstall: bool): bool
    requires pkg != ""
  {
    if pkg[|pkg| - 1] == '+' then true
    else if pkg[|pkg| - 1] == '-' then false
    else isInstall
  }

  /** The configuration after applyChange records one name. Empty names are skipped. */
  function RecordOne(c: DesiredConfig, db: HS.HostTable, pkg: string, isInstall: bool): DesiredConfig
    reads db
  {
    if pkg == "" then c
    else if Intent(pkg, isInstall) then AddInstall(c, Canonical(db, pkg))
    else AddRemove(c, Canonical(db, pkg))
  }

  /** The configuration after applyChange records every name in order. */
  function Recorded(c: DesiredConfig, db: HS.HostTable, pkgs: seq<string>, isInstall: bool): DesiredConfig
    reads db
  {
    if pkgs == [] then c
    else RecordOne(Recorded(c, db, pkgs[..|pkgs| - 1], isInstall), db, pkgs[|pkgs| - 1], isInstall)
  }

  /** Recording keeps the configuration's invariant. */
  lemma {:induction false} RecordedKeepsDisjoint(c: DesiredConfig, db: HS.HostTable, pkgs: seq<string>, isInstall: bool)
    requires Disjoint(c)
    ensures Disjoint(Recorded(c, db, pkgs, isInstall))
  {
    if pkgs != [] {
      RecordedKeepsDisjoint(c, db, pkgs[..|pkgs| - 1], isInstall);
    }
  }

  /**
   * Where a recorded name ends up: for the last non-empty name with a given
   * canonical form, the install list when its intent is install and the
   * remove list otherwise.
   */
  lemma {:induction false} RecordedPlaces(c: DesiredConfig, db: HS.HostTable, pkgs: seq<string>, isInstall: bool, k: nat)
    requires k < |pkgs| && pkgs[k] != ""
    requires forall j :: k < j < |pkgs| && pkgs[j] != "" ==> Canonical(db, pkgs[j]) != Canonical(db, pkgs[k])
    ensures var n := Canonical(db, pkgs[k]);
      var r := Recorded(c, db, pkgs, isInstall);
      (n in r.install <==> Intent(pkgs[k], isInstall)) && (n in r.remove <==> !Intent(pkgs[k], isInstall))
  {
    var front := pkgs[..|pkgs| - 1];
    if k < |pkgs| - 1 {
      assert front[k] == pkgs[k];
      assert forall j :: k < j < |front| ==> front[j] == pkgs[j];
      RecordedPlaces(c, db, front, isInstall, k);
    }
  }

  /** Recording one more name of a list is one more RecordOne. */
  lemma RecordedPrefix(c: DesiredConfig, db: HS.HostTable, pkgs: seq<string>, i: nat, isInstall: bool)
    requires i < |pkgs|
    ensures Recorded(c, db, pkgs[..i + 1], isInstall) == RecordOne(Recorded(c, db, pkgs[..i], isInstall), db, pkgs[i], isInstall)
  {
    assert pkgs[..i + 1][..i] == pkgs[..i];
  }

  /** Recording only empty names changes nothing. */
  lemma {:induction false} RecordedNothing(c: DesiredConfig, db: HS.HostTable, pkgs: seq<string>, isInstall: bool)
    requires forall k :: 0 <= k < |pkgs| ==> pkgs[k] == ""
    ensures Recorded(c, db, pkgs, isInstall) == c
  {
    if pkgs != [] {
      RecordedNothing(c, db, pkgs[..|pkgs| - 1], isInstall);
    }
  }

  predicate HasName(pkgs: seq<string>) {
    exists k :: 0 <= k < |pkgs| && pkgs[k] != ""
  }

  // ---------------------------------------------------------------------
  // Drift correction: names apt reports as already in place
  // ---------------------------------------------------------------------

  /** The list drift correction adds to: the install list or the remove list. */
  function Listed(c: DesiredConfig, toInstall: bool): seq<string> {
    if toInstall then c.install else c.remove
  }

  /** The configuration after every name not yet in the list is added to it. */
  function AddMissing(c: DesiredConfig, names: seq<string>, toInstall: bool): (r: DesiredConfig)
    ensures forall x :: x in Listed(c, toInstall) ==> x in Listed(r, toInstall)
    ensures forall x :: x in Listed(r, toInstall) ==> x in Listed(c, toInstall) || x in names
    ensures forall x :: x in names ==> x in Listed(r, toInstall)
    ensures Disjoint(c) ==> Disjoint(r)
    ensures (forall x :: x in names ==> x in Listed(c, toInstall)) ==> r == c
  {
    if names == [] then c
    else
      var front := names[..|names| - 1];
      var n := names[|names| - 1];
      assert forall x :: x in names <==> x in front || x == n;
      var p := AddMissing(c, front, toInstall);
      if n in Listed(p, toInstall) then p
      else if toInstall then AddInstall(p, n) else AddRemove(p, n)
  }

  /**
   * One of drift correction's loops: adds each name of `names` not yet in
   * the list of `c` (the install list when `toInstall`, else the remove
   * list). `diff` says whether any name was missing; a write error stops at
   * the first missing name, before anything is added.
   */
  method AddDrifted(c: DesiredConfig, names: seq<string>, toInstall: bool, writeError: Option<string>)
    returns (cfg: DesiredConfig, diff: bool, err: Option<string>)
    ensures err.Some? <==> writeError.Some? && AnyMissing(c, names, toInstall)
    ensures err.Some? ==> err == writeError
    ensures err.None? ==> cfg == AddMissing(c, names, toInstall) && diff == AnyMissing(c, names, toInstall)
  {
    cfg, diff := c, false;
    var i := 0;
    while i < |names|
      invariant 0 <= i <= |names|
      invariant cfg == AddMissing(c, names[..i], toInstall)
      invariant diff == AnyMissing(c, names[..i], toInstall)
      invariant writeError.Some? ==> !diff
    {
      var n := names[i];
      MissingStep(c, names, i, toInstall);
      if n !in Listed(cfg, toInstall) {
        if writeError.Some? {
          return cfg, diff, writeError;
        }
        diff := true;
        cfg := if toInstall then AddInstall(cfg, n) else AddRemove(cfg, n);
      }
      i := i + 1;
    }
    assert names[..|names|] == names;
    return cfg, diff, None;
  }

  /** When every name is already listed, adding the missing ones changes nothing. */
  lemma NoneMissing(c: DesiredConfig, names: seq<string>, toInstall: bool)
    requires !AnyMissing(c, names, toInstall)
    ensures AddMissing(c, names, toInstall) == c
  {
  }

  /** Whether some name is not yet in the list. */
  predicate AnyMissing(c: DesiredConfig, names: seq<string>, toInstall: bool) {
    exists n :: n in names && n !in Listed(c, toInstall)
  }

  /**
   * One step of a drift loop: the next name is missing from the list built
   * so far exactly when it is missing from the original list and no earlier
   * name was.
   */
  lemma MissingStep(c: DesiredConfig, names: seq<string>, i: nat, toInstall: bool)
    requires i < |names|
    ensures var built := AddMissing(c, names[..i], toInstall);
      var n := names[i];
      AddMissing(c, names[..i + 1], toInstall) ==
        (if n in Listed(built, toInstall) then built else if toInstall then AddInstall(built, n) else AddRemove(built, n))
      && AnyMissing(c, names[..i + 1], toInstall) == (AnyMissing(c, names[..i], toInstall) || n !in Listed(c, toInstall))
      && (n !in Listed(built, toInstall) ==> n !in Listed(c, toInstall))
      && (n in Listed(built, toInstall) && n !in Listed(c, toInstall) ==> AnyMissing(c, names[..i], toInstall))
  {
    assert names[..i + 1][..i] == names[..i];
    var n := names[i];
    assert forall x :: x in names[..i + 1] <==> x in names[..i] || x == n;
    if n in Listed(AddMissing(c, names[..i], toInstall), toInstall) && n !in Listed(c, toInstall) {
      assert n in names[..i];
    }
  }

  /** Whether drift correction adds anything: a name not yet to remove, or then not yet to install. */
  predicate NeedsAdd(c: DesiredConfig, removed: seq<string>, installed: seq<string>) {
    AnyMissing(c, removed, false) || AnyMissing(AddMissing(c, removed, false), installed, true)
  }

  // ---------------------------------------------------------------------
  // The commands
  // ---------------------------------------------------------------------

  class HostActions {
    /** The host package table. */
    const db: HS.HostTable
    /** The desired configuration as saved by the configuration service. */
    var config: DesiredConfig
    /** The real apt runs made so far. */
    var runs: seq<Run>
    /** The configurations images were built and switched to so far. */
    var images: seq<DesiredConfig>

    predicate Valid()
      reads this
    {
      Disjoint(config)
    }

    constructor (db: HS.HostTable, config: DesiredConfig)
      requires Disjoint(config)
      ensures Valid()
      ensures this.db == db && this.config == config && runs == [] && images == []
    {
      this.db := db;
      this.config := config;
      runs := [];
      images := [];
    }

    /** Nothing a command can change has changed. */
    predicate Untouched(c: DesiredConfig, r: seq<Run>, i: seq<DesiredConfig>, rows: seq<HS.Row>)
      reads this, db
    {
      config == c && runs == r && images == i && db.rows == rows
    }

    /**
     * The change was applied: every name is recorded in the configuration,
     * in order, and the new configuration is appended as one image.
     */
    predicate Applied(c: DesiredConfig, i: seq<DesiredConfig>, packages: seq<string>, isInstall: bool)
      reads this, db
    {
      config == Recorded(c, db, packages, isInstall) && images == i + [config]
    }

    /**
     * The database check: when the existence check fails, the table is
     * refreshed, which needs root and a working update. The existence
     * check only asks for the table, so an existing empty table passes
     * with no refresh (see ValidateDBPassesEmptyTable).
     */
    function ValidateDB(env: Env): (r: Option<string>)
      reads db
      ensures r.None? <==> db.PackageDatabaseExist().None? || (env.rootError.None? && env.updateError.None?)
      ensures r.Some? && env.rootError.Some? ==> r == env.rootError
    {
      if db.PackageDatabaseExist().None? then None
      else if env.rootError.Some? then env.rootError
      else env.updateError
    }

    /**
     * An existing table passes the database check whatever it holds: an
     * empty one is neither refreshed nor does it need root, even when root
     * and the update would both fail.
     */
    lemma ValidateDBPassesEmptyTable(env: Env)
      requires db.created && db.rows == []
      ensures ValidateDB(env).None?
      ensures db.PackageDatabaseHasRows().Some?
    {
      HS.EmptyTablePassesExistenceCheck(db);
    }

    /** The checks Install and Remove make before touching any package: root, database, a non-empty list. */
    function Preflight(packages: seq<string>, env: Env): (r: Option<Outcome>)
      reads db
      ensures env.rootError.Some? ==> r == Some(RootDenied(env.rootError.value))
      ensures env.rootError.None? && ValidateDB(env).Some? ==> r == Some(DbUnavailable(ValidateDB(env).value))
      ensures r.None? <==> env.rootError.None? && ValidateDB(env).None? && packages != []
      ensures r.Some? ==> ReturnsError(r.value) <==> packages != [] || env.rootError.Some? || ValidateDB(env).Some?
    {
      if env.rootError.Some? then Some(RootDenied(env.rootError.value))
      else if ValidateDB(env).Some? then Some(DbUnavailable(ValidateDB(env).value))
      else if packages == [] then Some(NoPackages)
      else None
    }

    /**
     * Install's lookup loop: every name resolved (then the infos, and
     * whether some name needed its marker dropped) or the first one that
     * did not.
     */
    method ResolveForInstall(packages: seq<string>) returns (infos: seq<string>, isMulti: bool, failed: Option<nat>)
      ensures failed.None? ==> ((forall k :: 0 <= k < |packages| ==> ResolveOne(db, packages[k]).Resolved?)
        && |infos| == |packages|
        && (forall k :: 0 <= k < |packages| ==> infos[k] == ResolveOne(db, packages[k]).name)
        && (isMulti <==> exists k :: 0 <= k < |packages| && ResolveOne(db, packages[k]).viaStrip))
      ensures failed.Some? ==> (failed.value < |packages|
        && ResolveOne(db, packages[failed.value]).Unresolved?
        && forall k :: 0 <= k < failed.value ==> ResolveOne(db, packages[k]).Resolved?)
    {
      infos, isMulti, failed := [], false, None;
      var i := 0;
      while i < |packages|
        invariant 0 <= i <= |packages| && |infos| == i
        invariant forall k :: 0 <= k < i ==> ResolveOne(db, packages[k]).Resolved?
        invariant forall k :: 0 <= k < i ==> infos[k] == ResolveOne(db, packages[k]).name
        invariant isMulti <==> exists k :: 0 <= k < i && ResolveOne(db, packages[k]).viaStrip
      {
        var res := LookupForInstall(packages[i]);
        if res.Unresolved? {
          failed := Some(i);
          return;
        }
        isMulti := isMulti || res.viaStrip;
        infos := infos + [res.name];
        i := i + 1;
      }
    }

    /** One name of Install's lookup loop: exact, else once more without one trailing marker. */
    method LookupForInstall(pkg: string) returns (res: Resolution)
      ensures res == ResolveOne(db, pkg)
    {
      var lookup := db.GetPackageByName(pkg);
      KnownIsFound(pkg);
      if lookup.Ok? {
        return Resolved(lookup.value.name, false);
      }
      if |pkg| > 0 {
        var lastChar := pkg[|pkg| - 1];
        if lastChar == '+' || lastChar == '-' {
          var retry := db.GetPackageByName(pkg[..|pkg| - 1]);
          KnownIsFound(pkg[..|pkg| - 1]);
          if retry.Ok? {
            return Resolved(retry.value.name, true);
          }
          return Unresolved(retry.error);
        }
      }
      return Unresolved(lookup.error);
    }

    /** What one lookup by name tells. */
    lemma LookupOne(name: string)
      ensures db.GetPackageByName(name).Ok? <==> Known(db, name)
      ensures db.GetPackageByName(name).Ok? ==> db.GetPackageByName(name).value.name == name
      ensures db.GetPackageByName(name).Err? ==> db.GetPackageByName(name).error == HS.PackageNotFound(name)
    {
      KnownIsFound(name);
    }

    /** The lookup by name succeeds exactly for known names. */
    lemma KnownIsFound(name: string)
      ensures db.GetPackageByName(name).Ok? <==> Known(db, name)
    {
    }

    /**
     * An unresolved name: look for at most five packages that provide it.
     * None found names the package; a failed query reports the lookup error.
     */
    method Suggest(original: string, lookupError: HS.StoreError, parseBool: Value -> Option<bool>) returns (o: Outcome)
      ensures o == LookupFailed(lookupError) || o == NotFound(original) || (o.DidYouMean? && o.error == lookupError)
      ensures o.DidYouMean? ==> 0 < |o.alternatives| <= 5
      ensures o.DidYouMean? ==> forall a :: a in o.alternatives ==> ProvidedBy(db.rows, original, a)
    {
      var found := QueryProviders(original, parseBool);
      if found.Err? {
        return LookupFailed(lookupError);
      }
      if |found.value| == 0 {
        return NotFound(original);
      }
      var altNames := NamesOf(found.value);
      return DidYouMean(lookupError, altNames);
    }

    /** The provides query with limit 5: at most five packages of the table, each providing the name. */
    method QueryProviders(name: string, parseBool: Value -> Option<bool>) returns (r: Result<seq<HS.Package>, HS.StoreError>)
      ensures r.Ok? ==> |r.value| <= 5
      ensures r.Ok? ==> AllProvide(db.rows, name, r.value)
    {
      var filters := map["provides" := Str(name)];
      ProvidesAllowed(name);
      r := db.QueryHostImagePackages(filters, parseBool, "", "", 5, 0);
      if r.Ok? {
        assert Execute(db.rows, HS.Column, HS.Columns, HS.CondsFor(map["provides" := Str(name)], parseBool), None, PagingOf(5, 0)).Ok?;
        assert r.value == HS.FromRows(Execute(db.rows, HS.Column, HS.Columns, HS.CondsFor(map["provides" := Str(name)], parseBool), None, PagingOf(5, 0)).value);
        Providers(db.rows, name, parseBool, r.value);
      }
    }

    /** The names of the alternatives, in order. */
    static method NamesOf(packages: seq<HS.Package>) returns (names: seq<string>)
      ensures |names| == |packages|
      ensures forall k :: 0 <= k < |packages| ==> names[k] == packages[k].name
    {
      names := [];
      var i := 0;
      while i < |packages|
        invariant 0 <= i <= |packages| && |names| == i
        invariant forall k :: 0 <= k < i ==> names[k] == packages[k].name
      {
        names := names + [packages[i].name];
        i := i + 1;
      }
    }

    /** The recognised-error loop. */
    static method CollectMatched(errors: seq<AptError>) returns (matched: seq<Match>)
      ensures matched == MatchedOf(errors)
    {
      matched := [];
      var i := 0;
      while i < |errors|
        invariant 0 <= i <= |errors|
        invariant matched == MatchedOf(errors[..i])
      {
        assert errors[..i + 1][..i] == errors[..i];
        if errors[i].matched.Some? {
          matched := matched + [errors[i].matched.value];
        }
        i := i + 1;
      }
      assert errors[..|errors|] == errors;
    }

    /**
     * The names drift correction looks at, collected only when applying on
     * an atomic system: already-newest ones (for Install only) and
     * not-installed ones.
     */
    static method CollectDrift(matched: seq<Match>, forInstall: bool, enabled: bool) returns (installed: seq<string>, removed: seq<string>)
      ensures installed == (if enabled && forInstall then ParamsWith(matched, AlreadyNewest) else [])
      ensures removed == (if enabled then ParamsWith(matched, NotInstalled) else [])
    {
      installed, removed := [], [];
      var i := 0;
      while i < |matched|
        invariant 0 <= i <= |matched|
        invariant installed == (if enabled && forInstall then ParamsWith(matched[..i], AlreadyNewest) else [])
        invariant removed == (if enabled then ParamsWith(matched[..i], NotInstalled) else [])
      {
        assert matched[..i + 1][..i] == matched[..i];
        var m := matched[i];
        if forInstall && m.code == AlreadyNewest && enabled {
          installed := installed + [m.param];
        }
        if m.code == NotInstalled && enabled {
          removed := removed + [m.param];
        }
        i := i + 1;
      }
      assert matched[..|matched|] == matched;
    }

    /**
     * Brings the saved configuration in line with what apt reports as
     * already in place: each not-installed name not yet to remove is added
     * to the remove list, then each already-newest name not yet to install
     * to the install list. The result says whether anything was added.
     */
    method CorrectDrift(removed: seq<string>, installed: seq<string>, image: HostImage) returns (r: Result<bool, string>)
      requires Valid()
      modifies this
      ensures Valid()
      ensures runs == old(runs) && images == old(images)
      ensures image.loadError.Some? ==> r == Err(image.loadError.value) && config == old(config)
      ensures image.loadError.None? && image.writeError.Some? && NeedsAdd(old(config), removed, installed) ==>
        r == Err(image.writeError.value) && config == old(config)
      ensures image.loadError.None? && (image.writeError.None? || !NeedsAdd(old(config), removed, installed)) ==>
        r == Ok(NeedsAdd(old(config), removed, installed))
        && config == AddMissing(AddMissing(old(config), removed, false), installed, true)
    {
      if image.loadError.Some? {
        return Err(image.loadError.value);
      }
      var afterRemoved, removedDiff, removedErr := AddDrifted(config, removed, false, image.writeError);
      if removedErr.Some? {
        return Err(removedErr.value);
      }
      config := afterRemoved;
      var afterInstalled, installedDiff, installedErr := AddDrifted(config, installed, true, image.writeError);
      if installedErr.Some? {
        return Err(installedErr.value);
      }
      config := afterInstalled;
      return Ok(removedDiff || installedDiff);
    }

    /** Install's strip loop for one name (applyChange): see Canonical. */
    method CanonicalOf(pkg: string) returns (canonical: string)
      ensures canonical == Canonical(db, pkg)
    {
      canonical := pkg;
      if db.GetPackageByName(canonical).Err? {
        while |canonical| > 0 && (canonical[|canonical| - 1] == '+' || canonical[|canonical| - 1] == '-')
          invariant Strip(db, canonical) == Strip(db, pkg)
          decreases |canonical|
        {
          ghost var before := canonical;
          canonical := canonical[..|canonical| - 1];
          if db.GetPackageByName(canonical).Ok? {
            assert Strip(db, before) == canonical;
            break;
          }
        }
      }
    }

    /**
     * Records one non-empty name with its canonical form: an explicit '+' or
     * '-' suffix decides the list, otherwise the command does. A failed
     * write of the configuration changes nothing.
     */
    method RecordName(pkg: string, isInstall: bool, writeError: Option<string>) returns (err: Option<string>)
      requires pkg != ""
      modifies this
      ensures runs == old(runs) && images == old(images)
      ensures err == writeError
      ensures config == if err.None? then RecordOne(old(config), db, pkg, isInstall) else old(config)
    {
      var canonical := CanonicalOf(pkg);
      if writeError.Some? {
        return writeError;
      }
      if pkg[|pkg| - 1] == '+' {
        config := AddInstall(config, canonical);
      } else if pkg[|pkg| - 1] == '-' {
        config := AddRemove(config, canonical);
      } else if isInstall {
        config := AddInstall(config, canonical);
      } else {
        config := AddRemove(config, canonical);
      }
      return None;
    }

    /**
     * Records every non-empty name, in order, with its canonical form (see
     * RecordName); a failed write stops at the first name.
     */
    method RecordAll(packages: seq<string>, isInstall: bool, writeError: Option<string>) returns (err: Option<string>)
      requires Valid()
      modifies this
      ensures Valid()
      ensures runs == old(runs) && images == old(images)
      ensures err == if writeError.Some? && HasName(packages) then writeError else None
      ensures config == if err.None? then Recorded(old(config), db, packages, isInstall) else old(config)
    {
      ghost var c0 := config;
      var i := 0;
      while i < |packages|
        invariant 0 <= i <= |packages|
        invariant config == Recorded(c0, db, packages[..i], isInstall)
        invariant writeError.Some? ==> forall k :: 0 <= k < i ==> packages[k] == ""
        invariant runs == old(runs) && images == old(images)
      {
        RecordedPrefix(c0, db, packages, i, isInstall);
        var pkg := packages[i];
        if |pkg| > 0 {
          err := RecordName(pkg, isInstall, writeError);
          if err.Some? {
            RecordedNothing(c0, db, packages[..i], isInstall);
            return;
          }
        }
        i := i + 1;
      }
      assert packages[..|packages|] == packages;
      RecordedKeepsDisjoint(c0, db, packages, isInstall);
      return None;
    }

    /**
     * Records every non-empty name in the saved configuration (install or
     * remove, by its marker or else by `isInstall`), regenerates the image
     * definition and builds and switches to the image. Only on an atomic
     * system.
     */
    method ApplyChange(packages: seq<string>, isInstall: bool, isAtomic: bool, image: HostImage) returns (err: Option<string>)
      requires Valid()
      modifies this
      ensures Valid()
      ensures runs == old(runs)
      ensures !isAtomic ==> err == Some(NotAtomicMessage)
      ensures isAtomic ==> (err ==
        if image.loadError.Some? then image.loadError
        else if image.writeError.Some? && HasName(packages) then image.writeError
        else if image.generateError.Some? then image.generateError
        else image.buildError)
      ensures config ==
        if isAtomic && image.loadError.None? && (image.writeError.None? || !HasName(packages))
        then Recorded(old(config), db, packages, isInstall) else old(config)
      ensures images == old(images) + (if err.None? then [config] else [])
    {
      if !isAtomic {
        return Some(NotAtomicMessage);
      }
      if image.loadError.Some? {
        return image.loadError;
      }
      var writeErr := RecordAll(packages, isInstall, image.writeError);
      if writeErr.Some? {
        return writeErr;
      }
      if image.generateError.Some? {
        return image.generateError;
      }
      if image.buildError.Some? {
        return image.buildError;
      }
      images := images + [config];
      return None;
    }

    /**
     * The dry run found nothing to do: the drift the report shows is
     * collected and the nothing-to-do branch settles the outcome. Only an
     * applied run on an atomic system changes the configuration or images.
     */
    method Settle(matched: seq<Match>, packages: seq<string>, isInstall: bool, apply: bool, isAtomic: bool,
                  image: HostImage) returns (o: Outcome)
      requires Valid()
      modifies this
      ensures Valid()
      ensures NothingBranch(o) && ErrorResponse(o)
      ensures runs == old(runs)
      ensures config != old(config) || images != old(images) ==> apply && isAtomic
    {
      var installed, removed := CollectDrift(matched, isInstall, apply && isAtomic);
      o := NothingToDoBranch(packages, isInstall, removed, installed, apply, isAtomic, image);
    }

    /**
     * The "nothing to do" branch after the drift names are collected. It
     * always ends in an error; the image is rebuilt only when applying on
     * an atomic system and something was added to the configuration.
     */
    method NothingToDoBranch(packages: seq<string>, isInstall: bool, removed: seq<string>, installed: seq<string>,
                             apply: bool, isAtomic: bool, image: HostImage) returns (o: Outcome)
      requires Valid()
      modifies this
      ensures Valid()
      ensures NothingBranch(o) && ErrorResponse(o)
      ensures runs == old(runs)
      ensures !(apply && isAtomic) ==> o == NothingToDo(false) && config == old(config) && images == old(images)
      ensures config != old(config) || images != old(images) ==> apply && isAtomic
      ensures images != old(images) ==> apply && isAtomic && NeedsAdd(old(config), removed, installed)
      ensures o == NothingToDo(true) ==> NeedsAdd(old(config), removed, installed) && images == old(images) + [config]
      ensures o == NothingToDo(true) ==>
        Applied(AddMissing(AddMissing(old(config), removed, false), installed, true), old(images), packages, isInstall)
      ensures apply && isAtomic && image.loadError.None? && image.writeError.None? && !NeedsAdd(old(config), removed, installed) ==>
        o == NothingToDo(false) && config == old(config) && images == old(images)
      ensures apply && isAtomic && image == HostImage(None, None, None, None) && NeedsAdd(old(config), removed, installed) ==>
        o == NothingToDo(true)
    {
      if !(apply && isAtomic) {
        return NothingToDo(false);
      }
      var drift := CorrectDrift(removed, installed, image);
      if drift.Err? {
        return ConfigFailed(drift.error);
      }
      if !drift.value {
        return NothingToDo(false);
      }
      var err := ApplyChange(packages, isInstall, isAtomic, image);
      if err.Some? {
        return DriftApplyFailed(err.value);
      }
      return NothingToDo(true);
    }

    /**
     * After the dry run passes: the dialog, the real run, the table sync
     * with the installed list and, when applying, the image update.
     */
    method Commit(run: Run, action: DialogAction, packages: seq<string>, isInstall: bool,
                  apt: Apt, apply: bool, isAtomic: bool, image: HostImage) returns (o: Outcome)
      requires Valid()
      modifies this, db
      ensures Valid()
      ensures o.DialogFailed? || o.Cancelled? || Executed(o)
      ensures Executed(o) <==> apt.dialog(action) == Ok(true)
      ensures apt.dialog(action).Err? ==> o == DialogFailed(apt.dialog(action).error)
      ensures apt.dialog(action) == Ok(false) ==> o == Cancelled
      ensures runs == old(runs) + (if Executed(o) then [run] else [])
      ensures !Executed(o) ==> db.rows == old(db.rows)
      ensures o.Done? ==> (FindCritical(apt.run(run.names)).None? && apt.installedNow.Ok?
        && o.imageChanged == apply
        && |db.rows| == |old(db.rows)|
        && forall k :: 0 <= k < |db.rows| ==> db.rows[k] == HS.Reconciled(old(db.rows)[k], apt.installedNow.value))
      ensures db.created == old(db.created)
      ensures !apply || o.ExecFailed? || o.InstalledListFailed? || o.SyncFailed? || !Executed(o) ==>
        config == old(config) && images == old(images)
      ensures o.Done? && apply ==> Applied(old(config), old(images), packages, isInstall)
    {
      var dialog := apt.dialog(action);
      if dialog.Err? {
        return DialogFailed(dialog.error);
      }
      if !dialog.value {
        return Cancelled;
      }
      runs := runs + [run];
      var critical := FindCritical(apt.run(run.names));
      if critical.Some? {
        return ExecFailed(critical.value);
      }
      if apt.installedNow.Err? {
        return InstalledListFailed(apt.installedNow.error);
      }
      var syncErr := db.SyncPackageInstallationInfo(apt.installedNow.value, apt.syncFault);
      if syncErr.Some? {
        return SyncFailed(syncErr.value);
      }
      if apply {
        var err := ApplyChange(packages, isInstall, isAtomic, image);
        if err.Some? {
          return ApplyFailed(err.value);
        }
        return Done(true);
      }
      return Done(false);
    }

    /** The dry run changes nothing: for a removal, nothing would be removed; for an install, see NothingToInstall. */
    static predicate Idle(report: CheckReport, isInstall: bool) {
      if isInstall then NothingToInstall(report) else report.parse.removed == 0
    }

    /** Install's "nothing to do" test: some recognised error and a dry run that changes nothing. */
    static predicate NothingToInstall(report: CheckReport) {
      |MatchedOf(report.errors)| > 0
      && report.parse.newInstalled == 0 && report.parse.upgraded == 0 && report.parse.removed == 0
    }

    /**
     * Installs packages on the host: every name must resolve to a known
     * package (stripping a trailing version marker when needed, and
     * suggesting packages that provide the name when it does not); then
     * the shared dry-run/ask/run flow follows.
     */
    method Install(packages: seq<string>, apply: bool, env: Env, apt: Apt, image: HostImage,
                   parseBool: Value -> Option<bool>) returns (o: Outcome)
      requires Valid()
      modifies this, db
      ensures Valid()
      ensures old(Preflight(packages, env)).Some? ==>
        o == old(Preflight(packages, env)).value && Untouched(old(config), old(runs), old(images), old(db.rows))
      ensures o.LookupFailed? || o.NotFound? || o.DidYouMean? ==>
        (exists k :: 0 <= k < |packages| && ResolveOne(db, packages[k]).Unresolved?)
        && Untouched(old(config), old(runs), old(images), old(db.rows))
      ensures o.DidYouMean? ==> 0 < |o.alternatives| <= 5
      ensures o.CriticalError? || o.Cancelled? || o.DialogFailed? ==> Untouched(old(config), old(runs), old(images), old(db.rows))
      ensures old(AllResolve(packages)) && old(Preflight(packages, env)).None? ==>
        (o.CriticalError? <==> FindCritical(apt.check(Join(packages, ' ')).errors).Some?)
        && (NothingBranch(o) <==>
              FindCritical(apt.check(Join(packages, ' ')).errors).None? && Idle(apt.check(Join(packages, ' ')), true))
      ensures NothingBranch(o) ==> runs == old(runs) && db.rows == old(db.rows)
      ensures Executed(o) ==>
        old(AllResolve(packages))
        && FindCritical(apt.check(Join(packages, ' ')).errors).None?
        && !Idle(apt.check(Join(packages, ' ')), true)
        && runs == old(runs) + [InstallRun(Join(packages, ' '))]
      ensures !Executed(o) ==> runs == old(runs)
      ensures config != old(config) || images != old(images) ==> apply
      ensures o.Done? && apply ==> Applied(old(config), old(images), packages, true)
    {
      var pre := Preflight(packages, env);
      if pre.Some? {
        return pre.value;
      }
      var infos, isMulti, failed := ResolveForInstall(packages);
      if failed.Some? {
        var pkg := packages[failed.value];
        o := Suggest(pkg, ResolveOne(db, pkg).error, parseBool);
        return;
      }
      o := Proceed(packages, true, isMulti, apply, env, apt, image);
    }

    /** Whether every requested name resolves to a known package. */
    predicate AllResolve(packages: seq<string>)
      reads db
    {
      forall k :: 0 <= k < |packages| ==> ResolveOne(db, packages[k]).Resolved?
    }

    /**
     * The flow shared by install and removal once every name is known:
     * dry-run the joined names, stop on a critical error, take the
     * "nothing to do" branch (with drift correction) when the dry run
     * changes nothing, otherwise ask and run.
     */
    method Proceed(packages: seq<string>, isInstall: bool, isMulti: bool, apply: bool, env: Env, apt: Apt,
                   image: HostImage) returns (o: Outcome)
      requires Valid()
      modifies this, db
      ensures Valid()
      ensures !(o.RootDenied? || o.DbUnavailable? || o.NoPackages? || o.LookupFailed? || o.NotFound? || o.DidYouMean?)
      ensures o.CriticalError? <==> FindCritical(apt.check(Join(packages, ' ')).errors).Some?
      ensures NothingBranch(o) <==>
        FindCritical(apt.check(Join(packages, ' ')).errors).None? && Idle(apt.check(Join(packages, ' ')), isInstall)
      ensures Executed(o) ==>
        FindCritical(apt.check(Join(packages, ' ')).errors).None?
        && !Idle(apt.check(Join(packages, ' ')), isInstall)
        && runs == old(runs) + [RunOf(Join(packages, ' '), isInstall)]
      ensures NothingBranch(o) ==> runs == old(runs) && db.rows == old(db.rows)
      ensures !Executed(o) ==> runs == old(runs)
      ensures o.CriticalError? || o.Cancelled? || o.DialogFailed? ==> Untouched(old(config), old(runs), old(images), old(db.rows))
      ensures config != old(config) || images != old(images) ==> apply
      ensures o.Done? && apply ==> Applied(old(config), old(images), packages, isInstall)
    {
      var names := Join(packages, ' ');
      var report := apt.check(names);
      var critical := FindCritical(report.errors);
      if critical.Some? {
        return CriticalError(critical.value);
      }
      var matched := CollectMatched(report.errors);
      if Idle(report, isInstall) {
        o := Settle(matched, packages, isInstall, apply, env.isAtomic, image);
        return;
      }
      var action := if !isInstall then ActionRemove else if isMulti then ActionMultiInstall else ActionInstall;
      o := Commit(RunOf(names, isInstall), action, packages, isInstall, apt, apply, env.isAtomic, image);
    }

    /**
     * Removes packages from the host: every name must be a known package;
     * then the shared dry-run/ask/run flow follows.
     */
    method Remove(packages: seq<string>, apply: bool, env: Env, apt: Apt, image: HostImage) returns (o: Outcome)
      requires Valid()
      modifies this, db
      ensures Valid()
      ensures old(Preflight(packages, env)).Some? ==>
        o == old(Preflight(packages, env)).value && Untouched(old(config), old(runs), old(images), old(db.rows))
      ensures old(Preflight(packages, env)).None? ==>
        (o.LookupFailed? <==> old(exists k :: 0 <= k < |packages| && !Known(db, packages[k])))
      ensures o.LookupFailed? ==> (o.error.PackageNotFound? && o.error.name in packages
        && Untouched(old(config), old(runs), old(images), old(db.rows)))
      ensures o.CriticalError? || o.Cancelled? || o.DialogFailed? ==> Untouched(old(config), old(runs), old(images), old(db.rows))
      ensures old(Preflight(packages, env)).None? && old(AllKnown(packages)) ==>
        (o.CriticalError? <==> FindCritical(apt.check(Join(packages, ' ')).errors).Some?)
        && (NothingBranch(o) <==>
              FindCritical(apt.check(Join(packages, ' ')).errors).None? && Idle(apt.check(Join(packages, ' ')), false))
      ensures NothingBranch(o) ==> runs == old(runs) && db.rows == old(db.rows)
      ensures Executed(o) ==>
        old(AllKnown(packages))
        && FindCritical(apt.check(Join(packages, ' ')).errors).None?
        && !Idle(apt.check(Join(packages, ' ')), false)
        && runs == old(runs) + [RemoveRun(Join(packages, ' '))]
      ensures !Executed(o) ==> runs == old(runs)
      ensures config != old(config) || images != old(images) ==> apply
      ensures o.Done? && apply ==> Applied(old(config), old(images), packages, false)
    {
      var pre := Preflight(packages, env);
      if pre.Some? {
        return pre.value;
      }
      var names, err := LookupAll(packages);
      if err.Some? {
        return LookupFailed(err.value);
      }
      o := Proceed(names, false, false, apply, env, apt, image);
    }

    /** Whether every requested name is a row of the table. */
    predicate AllKnown(packages: seq<string>)
      reads db
    {
      forall k :: 0 <= k < |packages| ==> Known(db, packages[k])
    }

    /** Looks every name up in the table, stopping at the first one that is not there. */
    method LookupAll(packages: seq<string>) returns (names: seq<string>, err: Option<HS.StoreError>)
      ensures err.None? <==> AllKnown(packages)
      ensures err.None? ==> names == packages
      ensures err.Some? ==> err.value.PackageNotFound? && err.value.name in packages
    {
      names := [];
      var i := 0;
      while i < |packages|
        invariant 0 <= i <= |packages|
        invariant names == packages[..i]
        invariant forall k :: 0 <= k < i ==> Known(db, packages[k])
      {
        var info := db.GetPackageByName(packages[i]);
        LookupOne(packages[i]);
        if info.Err? {
          assert packages[i] in packages;
          return names, Some(info.error);
        }
        names := names + [info.value.name];
        i := i + 1;
      }
      return names, None;
    }

    /** The package named (after trimming); a blank name fails before the database is looked at. */
    function Info(packageName: string, env: Env): (r: Result<HS.Package, QueryError>)
      reads db
      ensures TrimSpace(packageName) == "" ==> r == Err(BlankName)
      ensures TrimSpace(packageName) != "" && ValidateDB(env).Some? ==> r == Err(Unavailable(ValidateDB(env).value))
      ensures r.Ok? ==> (r.value.name == TrimSpace(packageName)
        && exists x :: x in db.rows && r.value == HS.FromRow(x))
      ensures TrimSpace(packageName) != "" && ValidateDB(env).None? ==>
        (r.Ok? <==> Known(db, TrimSpace(packageName)))
    {
      var name := TrimSpace(packageName);
      if name == "" then Err(BlankName)
      else if ValidateDB(env).Some? then Err(Unavailable(ValidateDB(env).value))
      else match db.GetPackageByName(name)
        case Err(e) => Err(StoreFailed(e))
        case Ok(p) => Ok(p)
    }

    /**
     * Packages whose name contains the trimmed name. The database is checked
     * before the name; an empty result is an error.
     */
    function Search(packageName: string, installed: bool, env: Env): (r: Result<seq<HS.Package>, QueryError>)
      reads db
      ensures ValidateDB(env).Some? ==> r == Err(Unavailable(ValidateDB(env).value))
      ensures ValidateDB(env).None? && TrimSpace(packageName) == "" ==> r == Err(BlankName)
      ensures r.Ok? ==> (r.value != []
        && forall p :: p in r.value ==> Like(p.name, TrimSpace(packageName)) && (installed ==> p.installed))
      ensures r.Ok? ==> forall p :: p in r.value ==> exists x :: x in db.rows && p == HS.FromRow(x)
      ensures r.Ok? ==> forall x :: x in db.rows && Like(x.name, TrimSpace(packageName)) && (installed ==> x.installed == 1) ==>
        HS.FromRow(x) in r.value
      ensures r == Err(NothingFound) ==> forall x :: x in db.rows ==>
        !(Like(x.name, TrimSpace(packageName)) && (installed ==> x.installed == 1))
    {
      if ValidateDB(env).Some? then Err(Unavailable(ValidateDB(env).value))
      else
        var name := TrimSpace(packageName);
        if name == "" then Err(BlankName)
        else match db.SearchPackagesByName(name, installed)
          case Err(e) => Err(StoreFailed(e))
          case Ok(ps) => if ps == [] then Err(NothingFound) else Ok(ps)
    }

    /**
     * One page of packages and the total matching count. A forced update
     * runs first; then the database check; the one filter is used only when
     * both its field and its value are non-blank; an empty page is an error.
     */
    method List(params: ListParams, env: Env, parseBool: Value -> Option<bool>) returns (r: Result<ListPage, QueryError>)
      ensures params.forceUpdate && env.updateError.Some? ==> r == Err(UpdateFailed(env.updateError.value))
      ensures !(params.forceUpdate && env.updateError.Some?) && ValidateDB(env).Some? ==>
        r == Err(Unavailable(ValidateDB(env).value))
      ensures r.Ok? ==> (r.value.packages != []
        && r.value.total == |Select(db.rows, HS.CondsFor(OptionalFilter(params.filterField, params.filterValue), parseBool), HS.Column)|)
      ensures r.Ok? && params.limit > 0 ==> |r.value.packages| <= params.limit
      ensures "installedSize" in OptionalFilter(params.filterField, params.filterValue) || params.sort == "installedSize" ==> r.Err?
    {
      assert HS.AllowedSortFields[2] == "installedSize";
      if params.forceUpdate && env.updateError.Some? {
        return Err(UpdateFailed(env.updateError.value));
      }
      var invalid := ValidateDB(env);
      if invalid.Some? {
        return Err(Unavailable(invalid.value));
      }
      var filters := OptionalFilter(params.filterField, params.filterValue);
      var total := db.CountHostImagePackages(filters, parseBool);
      if total.Err? {
        return Err(StoreFailed(total.error));
      }
      var found := db.QueryHostImagePackages(filters, parseBool, params.sort, params.order, params.limit, params.offset);
      if found.Err? {
        return Err(StoreFailed(found.error));
      }
      if found.value == [] {
        return Err(NothingFound);
      }
      if params.limit > 0 {
        ghost var order := if params.sort == "" then None else Some(Order(params.sort, DirectionOf(params.order)));
        ghost var query := Execute(db.rows, HS.Column, HS.Columns, HS.CondsFor(filters, parseBool), order,
                                   PagingOf(params.limit, params.offset));
        assert query.Ok? && found.value == HS.FromRows(query.value);
        ExecuteSound(db.rows, HS.Column, HS.Columns, HS.CondsFor(filters, parseBool), order, params.limit, params.offset);
      }
      return Ok(ListPage(found.value, total.value));
    }
  }

  /** Why Info, Search or List return no packages. */
  datatype QueryError = BlankName | Unavailable(reason: string) | UpdateFailed(reason: string) | StoreFailed(error: HS.StoreError) | NothingFound

  datatype ListParams = ListParams(sort: string, order: string, limit: int, offset: int,
                                   filterField: string, filterValue: string, forceUpdate: bool)

  datatype ListPage = ListPage(packages: seq<HS.Package>, total: nat)

  /** Reading rows back keeps each row's name. */
  lemma RowNames(rows: seq<HS.Row>)
    ensures |HS.FromRows(rows)| == |rows|
    ensures forall k :: 0 <= k < |rows| ==> HS.FromRows(rows)[k].name == rows[k].name
  {
  }

  /** Every package of `found` is named like a row of the table that provides `name`. */
  predicate AllProvide(rows: seq<HS.Row>, name: string, found: seq<HS.Package>) {
    forall k :: 0 <= k < |found| ==> ProvidedBy(rows, name, found[k].name)
  }

  /** Some row of the table with that name provides `name`. */
  predicate ProvidedBy(rows: seq<HS.Row>, name: string, provider: string) {
    exists x :: x in rows && x.name == provider && CondHolds(HasToken("provides", name), x, HS.Column)
  }

  /** What a provides query with limit 5 returns: at most five packages of the table, each providing the name. */
  lemma Providers(rows: seq<HS.Row>, name: string, parseBool: Value -> Option<bool>, found: seq<HS.Package>)
    requires Execute(rows, HS.Column, HS.Columns, HS.CondsFor(map["provides" := Str(name)], parseBool), None, PagingOf(5, 0)).Ok?
    requires found == HS.FromRows(Execute(rows, HS.Column, HS.Columns, HS.CondsFor(map["provides" := Str(name)], parseBool),
                                          None, PagingOf(5, 0)).value)
    ensures |found| <= 5
    ensures AllProvide(rows, name, found)
  {
    var conds := HS.CondsFor(map["provides" := Str(name)], parseBool);
    ProvidesQuery(name, parseBool);
    var q := Execute(rows, HS.Column, HS.Columns, conds, None, PagingOf(5, 0)).value;
    ExecuteSound(rows, HS.Column, HS.Columns, conds, None, 5, 0);
    RowNames(q);
    forall k | 0 <= k < |found|
      ensures ProvidedBy(rows, name, found[k].name)
    {
      var x := q[k];
      assert x in q;
      assert x in rows && Admits(conds, x, HS.Column);
      assert HasToken("provides", name) in conds;
      assert x.name == found[k].name;
    }
  }

  /** The provides filter passes the allow-list. */
  lemma ProvidesAllowed(name: string)
    ensures forall f :: f in map["provides" := Str(name)] ==> IsAllowedField(f, HS.AllowedFilterFields)
  {
    assert HS.AllowedFilterFields[7] == "provides";
  }

  /** A provides query for one name asks exactly for that whole element. */
  lemma ProvidesQuery(name: string, parseBool: Value -> Option<bool>)
    ensures HS.CondsFor(map["provides" := Str(name)], parseBool) == {HasToken("provides", name)}
  {
    assert HS.AllowedFilterFields[7] == "provides";
    var filters := map["provides" := Str(name)];
    var c := HasToken("provides", name);
    assert HS.CondOf("provides", filters["provides"], parseBool) == Some(c);
    assert c in HS.CondsFor(filters, parseBool);
    forall d | d in HS.CondsFor(filters, parseBool)
      ensures d == c
    {
      var f := HS.CondSource(filters, parseBool, d);
    }
  }
}
