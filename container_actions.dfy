/**
 * The container commands of the package manager (cmd/distrobox/actions.go):
 * input trimming, the container check that rescans a container the table
 * knows nothing about, and the install/remove flag machine over a package's
 * (installed, exporting) pair.
 *
 * The services behind the commands (distrobox itself, the package manager
 * inside the container, the desktop export of an application) are answered
 * by an oracle `Services`; every call made to them is appended to `calls`,
 * so "no service is called" and "the package is installed only when it was
 * not" are statements about that log. The package table is the container
 * store of module ContainerStore.
 */
module ContainerActions {
  import opened Wrappers
  import opened Text
  import opened Sql
  import opened Batch
  import CS = ContainerStore

  // ---------------------------------------------------------------------
  // Collaborators
  // ---------------------------------------------------------------------

  /** What the services outside this model answer for one command. */
  datatype Services = Services(
    osInfoError: Option<string>,                 // reading the container's OS description fails
    scan: Result<seq<CS.PackageInfo>, string>,   // the package scan a rescan stores
    saveFault: CS.SaveFault,                     // how storing that scan fares
    installError: Option<string>,                // the package manager's install fails
    removeError: Option<string>,                 // the package manager's removal fails
    exportError: Option<string>,                 // exporting or un-exporting the application fails
    fieldWriteFails: bool,                       // a flag update hits a database error (it is only logged)
    createError: Option<string>,                 // creating a container fails
    removeContainerError: Option<string>)        // removing a container fails

  /** One call into a service, in the order made. */
  datatype Call =
    | OsInfo(container: string)
    | Rescan(container: string)
    | InstallCall(container: string, name: string)
    | RemoveCall(container: string, name: string)
    | ExportCall(container: string, name: string, delete: bool)
    | CreateContainer(image: string, name: string)
    | RemoveContainer(name: string)

  /** The calls that change the container or what it exports. */
  predicate Mutating(c: Call) {
    c.InstallCall? || c.RemoveCall? || c.ExportCall? || c.CreateContainer? || c.RemoveContainer?
  }

  /** `after` extends `before` by calls that change nothing in any container. */
  predicate NoMutation(before: seq<Call>, after: seq<Call>) {
    |before| <= |after| && after[..|before|] == before
    && forall k :: |before| <= k < |after| ==> !Mutating(after[k])
  }

  lemma NoMutationAppend(before: seq<Call>, after: seq<Call>, c: Call)
    requires NoMutation(before, after) && !Mutating(c)
    ensures NoMutation(before, after + [c])
  {
    assert (after + [c])[..|before|] == after[..|before|];
  }

  datatype Failure =
    | BlankContainer
    | BlankPackage
    | BlankImage
    | BlankName
    | OsInfoFailed(message: string)
    | ScanFailed(message: string)
    | SaveFailed(error: CS.StoreError)
    | InfoFailed(error: CS.StoreError)
    | InstallFailed(message: string)
    | RemoveFailed(message: string)
    | ExportFailed(message: string)
    | CreateFailed(message: string)
    | RemoveContainerFailed(message: string)

  /** Whether storing the scan of a rescan succeeds. */
  predicate Rescans(svc: Services) {
    svc.scan.Ok?
    && (svc.saveFault == CS.SaveClean
        || (svc.saveFault.FailBatch? && svc.saveFault.batch >= Batches(|svc.scan.value|)))
  }

  // ---------------------------------------------------------------------
  // Input checks
  // ---------------------------------------------------------------------

  /** An argument after trimming, or None when nothing but white space was given. */
  function NonBlank(s: string): Option<string> {
    var t := TrimSpace(s);
    if t == "" then None else Some(t)
  }

  /**
   * An argument is refused exactly when it is all white space; an accepted
   * one is the input with only white space cut off both ends.
   */
  lemma NonBlankMeaning(s: string) returns (i: nat)
    ensures NonBlank(s).None? <==> forall k :: 0 <= k < |s| ==> IsSpace(s[k])
    ensures NonBlank(s).Some? ==>
      var t := NonBlank(s).value;
      t != "" && !IsSpace(t[0]) && !IsSpace(t[|t| - 1])
      && i + |t| <= |s| && s[i..i + |t|] == t
  {
    var t := TrimSpace(s);
    assert NonBlank(s) == if t == "" then None else Some(t);
    TrimSpaceEmptyIff(s);
    i := TrimSpaceIsSlice(s);
  }

  /** Checking an argument that was already checked gives it back unchanged. */
  lemma NonBlankIdempotent(s: string)
    requires NonBlank(s).Some?
    ensures NonBlank(NonBlank(s).value) == NonBlank(s)
  {
    TrimSpaceIdempotent(s);
  }

  /** The request the package listing hands to the package service. */
  datatype ListRequest = ListRequest(
    container: string,
    filters: map<string, Value>,
    sort: string,
    order: string,
    limit: int,
    offset: int,
    forceUpdate: bool)

  // ---------------------------------------------------------------------
  // The flag machine
  // ---------------------------------------------------------------------

  datatype Flags = Flags(installed: bool, exporting: bool)

  function FlagsOf(p: CS.PackageInfo): Flags {
    Flags(p.installed, p.exporting)
  }

  /** The flags the table holds for package `n` of container `c`, if it has one. */
  function Stored(rows: seq<CS.Row>, c: string, n: string): Option<Flags> {
    match CS.FirstMatch(rows, c, n)
    case None => None
    case Some(x) => Some(FlagsOf(CS.FromRow(x)))
  }

  /** The flags after an install that succeeds (exporting when asked to). */
  function AfterInstall(f: Flags, toExport: bool): Flags {
    Flags(true, f.exporting || toExport)
  }

  /** The flags after a removal that succeeds (only the export when `onlyExport`). */
  function AfterRemove(f: Flags, onlyExport: bool): Flags {
    Flags(onlyExport && f.installed, false)
  }

  /** Installing again with the same request changes nothing more. */
  lemma InstallIdempotent(f: Flags, toExport: bool)
    ensures AfterInstall(AfterInstall(f, toExport), toExport) == AfterInstall(f, toExport)
  {
  }

  /** A full removal undoes any install; removing only the export keeps the installed flag. */
  lemma RemoveAfterInstall(f: Flags, toExport: bool, onlyExport: bool)
    ensures !AfterRemove(AfterInstall(f, toExport), onlyExport).exporting
    ensures AfterRemove(AfterInstall(f, toExport), onlyExport).installed <==> onlyExport
  {
  }

  /**
   * `after` is `before` with at most the flags of the rows of package `n`
   * of container `c` changed: no row added, dropped, moved or otherwise
   * edited.
   */
  predicate TouchesOnly(before: seq<CS.Row>, after: seq<CS.Row>, c: string, n: string) {
    |before| == |after|
    && forall i :: 0 <= i < |before| ==>
      after[i] == before[i]
      || (before[i].container == c && before[i].name == n
          && after[i] == before[i].(installed := after[i].installed, exporting := after[i].exporting))
  }

  lemma TouchesOnlyTrans(a: seq<CS.Row>, b: seq<CS.Row>, d: seq<CS.Row>, c: string, n: string)
    requires TouchesOnly(a, b, c, n) && TouchesOnly(b, d, c, n)
    ensures TouchesOnly(a, d, c, n)
  {
  }

  /** A flag update touches only the package it names. */
  lemma SetFlagTouchesOnly(rows: seq<CS.Row>, c: string, n: string, field: string, value: bool)
    requires field == "installed" || field == "exporting"
    ensures TouchesOnly(rows, CS.SetFlagWhere(rows, c, n, field, value), c, n)
  {
  }

  /** Every other package of every container reads back as before. */
  lemma {:induction false} TouchesOnlyKeepsOthers(before: seq<CS.Row>, after: seq<CS.Row>, c: string, n: string,
                                                  c2: string, n2: string)
    requires TouchesOnly(before, after, c, n)
    requires c2 != c || n2 != n
    ensures CS.FirstMatch(after, c2, n2) == CS.FirstMatch(before, c2, n2)
  {
    if before != [] {
      assert TouchesOnly(before[1..], after[1..], c, n) by {
        forall i | 0 <= i < |before[1..]|
          ensures after[1..][i] == before[1..][i]
            || (before[1..][i].container == c && before[1..][i].name == n
                && after[1..][i] == before[1..][i].(installed := after[1..][i].installed, exporting := after[1..][i].exporting))
        {
          assert before[1..][i] == before[i + 1] && after[1..][i] == after[i + 1];
        }
      }
      TouchesOnlyKeepsOthers(before[1..], after[1..], c, n, c2, n2);
    }
  }

  /** The next lookup of the package updated sees the new flag and its other flag unchanged. */
  lemma StoredAfterUpdate(rows: seq<CS.Row>, c: string, n: string, field: string, value: bool)
    requires field == "installed" || field == "exporting"
    requires Stored(rows, c, n).Some?
    ensures var f := Stored(rows, c, n).value;
      Stored(CS.SetFlagWhere(rows, c, n, field, value), c, n)
        == Some(if field == "installed" then f.(installed := value) else f.(exporting := value))
  {
    CS.FlagUpdateSeen(rows, c, n, field, value, c, n);
    CS.SetFlagMeaning(CS.FirstMatch(rows, c, n).value, field, value);
  }

  /** Whether the table exists and holds a row of container `c`. */
  predicate HasRows(created: bool, rows: seq<CS.Row>, c: string) {
    created && exists x :: x in rows && x.container == c
  }

  /**
   * The case the flag-machine statements of Install and Remove are about:
   * both names are given, the table already holds rows of the container
   * (so it is not rescanned), its OS description can be read, and the
   * package is in the table. Whether flag updates reach the database is
   * stated separately, where it matters.
   */
  predicate Ready(created: bool, rows: seq<CS.Row>, container: string, packageName: string, svc: Services) {
    && NonBlank(container).Some? && NonBlank(packageName).Some?
    && HasRows(created, rows, NonBlank(container).value)
    && svc.osInfoError.None?
    && Stored(rows, NonBlank(container).value, NonBlank(packageName).value).Some?
  }

  // ---------------------------------------------------------------------
  // The commands
  // ---------------------------------------------------------------------

  class ContainerActions {
    /** The container package table. */
    const table: CS.ContainerTable
    /** The service calls made so far, oldest first. */
    var calls: seq<Call>

    constructor (table: CS.ContainerTable)
      ensures this.table == table && calls == []
    {
      this.table := table;
      calls := [];
    }

    /** The package table as it was: neither created nor any row changed. */
    predicate Kept(created: bool, rows: seq<CS.Row>)
      reads table
    {
      table.created == created && table.rows == rows
    }

    /** Rescans container `c` and replaces its rows with the scan. */
    method UpdatePackages(c: string, svc: Services) returns (err: Option<Failure>)
      requires c != ""
      modifies this, table
      ensures calls == old(calls) + [Rescan(c)]
      ensures err.None? <==> Rescans(svc)
      ensures svc.scan.Err? ==> err == Some(ScanFailed(svc.scan.error)) && Kept(old(table.created), old(table.rows))
      ensures err.None? ==> table.rows == CS.Without(old(table.rows), c) + MapSeq(svc.scan.value, p => CS.ToRow(c, p))
    {
      calls := calls + [Rescan(c)];
      if svc.scan.Err? {
        return Some(ScanFailed(svc.scan.error));
      }
      var saved := table.SavePackagesToDB(c, svc.scan.value, svc.saveFault);
      if saved.Some? {
        return Some(SaveFailed(saved.value));
      }
      err := None;
    }

    /**
     * validateContainer: the container name must be non-blank after
     * trimming; when the table holds no row of that container, the
     * container is rescanned first.
     */
    method ValidateContainer(container: string, svc: Services) returns (r: Result<string, Failure>)
      modifies this, table
      ensures NoMutation(old(calls), calls)
      ensures NonBlank(container).None? ==>
        r == Err(BlankContainer) && calls == old(calls) && Kept(old(table.created), old(table.rows))
      ensures r.Ok? ==> r.value == NonBlank(container).value
      ensures NonBlank(container).Some? && HasRows(old(table.created), old(table.rows), NonBlank(container).value) ==>
        r.Ok? && calls == old(calls) && Kept(old(table.created), old(table.rows))
      ensures NonBlank(container).Some? && !HasRows(old(table.created), old(table.rows), NonBlank(container).value) ==>
        var c := NonBlank(container).value;
        && calls == old(calls) + [OsInfo(c)] + (if svc.osInfoError.None? then [Rescan(c)] else [])
        && (r.Ok? <==> svc.osInfoError.None? && Rescans(svc))
        && (svc.osInfoError.Some? ==> r == Err(OsInfoFailed(svc.osInfoError.value)) && Kept(old(table.created), old(table.rows)))
    {
      var checked := NonBlank(container);
      if checked.None? {
        return Err(BlankContainer);
      }
      var c := checked.value;
      if table.ContainerDatabaseExist(c).Some? {
        calls := calls + [OsInfo(c)];
        if svc.osInfoError.Some? {
          return Err(OsInfoFailed(svc.osInfoError.value));
        }
        var updated := UpdatePackages(c, svc);
        if updated.Some? {
          return Err(updated.value);
        }
      }
      r := Ok(c);
    }

    /**
     * Install: validate the container and the package name, read the
     * container's OS description, look the package up, then run the flag
     * machine on it (see InstallFound).
     */
    method Install(container: string, packageName: string, toExport: bool, svc: Services)
      returns (r: Result<CS.PackageInfo, Failure>)
      modifies this, table
      ensures NonBlank(container).None? ==>
        r == Err(BlankContainer) && calls == old(calls) && Kept(old(table.created), old(table.rows))
      ensures NonBlank(container).Some? && NonBlank(packageName).None? ==> r.Err? && NoMutation(old(calls), calls)
      ensures Ready(old(table.created), old(table.rows), container, packageName, svc) ==>
        var c := NonBlank(container).value;
        var n := NonBlank(packageName).value;
        var f := old(Stored(table.rows, c, n)).value;
        && TouchesOnly(old(table.rows), table.rows, c, n)
        && (r.Ok? && !svc.fieldWriteFails ==> Stored(table.rows, c, n) == Some(AfterInstall(f, toExport)))
        && (r.Err? ==> Stored(table.rows, c, n).Some? && Stored(table.rows, c, n).value.exporting == f.exporting)
        && (AfterInstall(f, toExport) == f ==> r.Ok? && calls == old(calls) + [OsInfo(c)] && table.rows == old(table.rows))
    {
      var c := ValidateContainer(container, svc);
      if c.Err? {
        return Err(c.error);
      }
      var name := NonBlank(packageName);
      if name.None? {
        return Err(BlankPackage);
      }
      var pkg := Lookup(c.value, name.value, svc);
      if pkg.Err? {
        return Err(pkg.error);
      }
      r := InstallFound(c.value, name.value, pkg.value, toExport, svc);
    }

    /**
     * Reads the OS description of container `c` and looks package `n` up
     * in the table.
     */
    method Lookup(c: string, n: string, svc: Services) returns (r: Result<CS.PackageInfo, Failure>)
      modifies this
      ensures calls == old(calls) + [OsInfo(c)]
      ensures svc.osInfoError.Some? ==> r == Err(OsInfoFailed(svc.osInfoError.value))
      ensures svc.osInfoError.None? && table.GetPackageInfoByName(c, n).Err? ==>
        r == Err(InfoFailed(table.GetPackageInfoByName(c, n).error))
      ensures svc.osInfoError.None? && table.created && Stored(table.rows, c, n).Some? ==> r.Ok?
      ensures r.Ok? ==>
        svc.osInfoError.None? && table.created && r.value.name == n && r.value.container == c
        && Stored(table.rows, c, n) == Some(FlagsOf(r.value))
    {
      calls := calls + [OsInfo(c)];
      if svc.osInfoError.Some? {
        return Err(OsInfoFailed(svc.osInfoError.value));
      }
      var info := table.GetPackageInfoByName(c, n);
      if info.Err? {
        return Err(InfoFailed(info.error));
      }
      r := Ok(info.value);
    }

    /**
     * Install's flag machine for package `n` of container `c`, found as
     * `pkg`: install only when not installed, then export only when asked
     * to and not exporting; each flag is set in the table after its call
     * succeeds, and a failed call leaves its flag as it was.
     */
    method InstallFound(c: string, n: string, pkg: CS.PackageInfo, toExport: bool, svc: Services)
      returns (r: Result<CS.PackageInfo, Failure>)
      requires table.created && Stored(table.rows, c, n) == Some(FlagsOf(pkg))
      modifies this, table
      ensures table.created
      ensures TouchesOnly(old(table.rows), table.rows, c, n)
      ensures var f := FlagsOf(pkg);
        var installs := !f.installed;
        var exports := (f.installed || svc.installError.None?) && toExport && !f.exporting;
        && calls == old(calls)
             + (if installs then [InstallCall(c, n)] else []) + (if exports then [ExportCall(c, n, false)] else [])
        && (r.Ok? <==> (installs ==> svc.installError.None?) && (exports ==> svc.exportError.None?))
        && (installs && svc.installError.Some? ==> r == Err(InstallFailed(svc.installError.value)) && table.rows == old(table.rows))
        && (exports && svc.exportError.Some? ==> r == Err(ExportFailed(svc.exportError.value)))
      ensures r.Err? ==> Stored(table.rows, c, n).Some? && Stored(table.rows, c, n).value.exporting == pkg.exporting
      ensures r.Ok? ==> r.value.exporting == (pkg.exporting || toExport)
      ensures pkg.name == n && pkg.container == c && r.Ok? ==> r.value.name == n && r.value.container == c
      ensures r.Ok? && !svc.fieldWriteFails ==>
        Stored(table.rows, c, n) == Some(AfterInstall(FlagsOf(pkg), toExport)) && FlagsOf(r.value) == AfterInstall(FlagsOf(pkg), toExport)
      ensures AfterInstall(FlagsOf(pkg), toExport) == FlagsOf(pkg) ==>
        r == Ok(pkg) && calls == old(calls) && table.rows == old(table.rows)
    {
      var now := pkg;
      if !now.installed {
        var err;
        err, now := InstallMissing(c, n, now, svc);
        if err.Some? {
          return Err(err.value);
        }
      }
      if toExport && !now.exporting {
        var err;
        err, now := SetExport(c, n, now, true, svc);
        if err.Some? {
          return Err(err.value);
        }
      }
      r := Ok(now);
    }

    /**
     * Installs package `n`, stored as `pkg` and not installed: sets the
     * flag in the table and reads the package back.
     */
    method InstallMissing(c: string, n: string, pkg: CS.PackageInfo, svc: Services)
      returns (err: Option<Failure>, read: CS.PackageInfo)
      requires table.created && Stored(table.rows, c, n) == Some(FlagsOf(pkg)) && !pkg.installed
      modifies this, table
      ensures calls == old(calls) + [InstallCall(c, n)]
      ensures table.created
      ensures TouchesOnly(old(table.rows), table.rows, c, n)
      ensures err.None? <==> svc.installError.None?
      ensures err.Some? ==> err == Some(InstallFailed(svc.installError.value)) && table.rows == old(table.rows)
      ensures err.None? ==>
        read.name == n && read.container == c && read.exporting == pkg.exporting
        && Stored(table.rows, c, n) == Some(FlagsOf(read))
        && (read.installed <==> !svc.fieldWriteFails)
    {
      calls := calls + [InstallCall(c, n)];
      if svc.installError.Some? {
        return Some(InstallFailed(svc.installError.value)), pkg;
      }
      ghost var before := table.rows;
      table.UpdatePackageField(c, n, "installed", true, svc.fieldWriteFails);
      if !svc.fieldWriteFails {
        StoredAfterUpdate(before, c, n, "installed", true);
        SetFlagTouchesOnly(before, c, n, "installed", true);
      }
      var again := table.GetPackageInfoByName(c, n);
      assert again.Ok? by {
        assert CS.FirstMatch(table.rows, c, n).Some?;
      }
      read := again.value;
      err := None;
    }

    /**
     * Exports (`on`) or un-exports package `n`, stored as `pkg`, and sets
     * the exporting flag in the table to match.
     */
    method SetExport(c: string, n: string, pkg: CS.PackageInfo, on: bool, svc: Services)
      returns (err: Option<Failure>, after: CS.PackageInfo)
      requires table.created && Stored(table.rows, c, n).Some? && Stored(table.rows, c, n).value.exporting == pkg.exporting
      modifies this, table
      ensures calls == old(calls) + [ExportCall(c, n, !on)]
      ensures table.created
      ensures TouchesOnly(old(table.rows), table.rows, c, n)
      ensures err.None? <==> svc.exportError.None?
      ensures err.Some? ==> err == Some(ExportFailed(svc.exportError.value)) && table.rows == old(table.rows)
      ensures err.None? ==> after == pkg.(exporting := on)
      ensures err.None? && !svc.fieldWriteFails ==> Stored(table.rows, c, n) == Some(old(Stored(table.rows, c, n)).value.(exporting := on))
      ensures err.None? && svc.fieldWriteFails ==> table.rows == old(table.rows)
    {
      calls := calls + [ExportCall(c, n, !on)];
      if svc.exportError.Some? {
        return Some(ExportFailed(svc.exportError.value)), pkg;
      }
      ghost var before := table.rows;
      table.UpdatePackageField(c, n, "exporting", on, svc.fieldWriteFails);
      if !svc.fieldWriteFails {
        StoredAfterUpdate(before, c, n, "exporting", on);
        SetFlagTouchesOnly(before, c, n, "exporting", on);
      }
      return None, pkg.(exporting := on);
    }

    /**
     * Remove: validate the container and the package name, read the
     * container's OS description, look the package up, then run the flag
     * machine on it (see RemoveFound).
     */
    method Remove(container: string, packageName: string, onlyExport: bool, svc: Services)
      returns (r: Result<CS.PackageInfo, Failure>)
      modifies this, table
      ensures NonBlank(container).None? ==>
        r == Err(BlankContainer) && calls == old(calls) && Kept(old(table.created), old(table.rows))
      ensures NonBlank(container).Some? && NonBlank(packageName).None? ==> r.Err? && NoMutation(old(calls), calls)
      ensures Ready(old(table.created), old(table.rows), container, packageName, svc) ==>
        var c := NonBlank(container).value;
        var n := NonBlank(packageName).value;
        var f := old(Stored(table.rows, c, n)).value;
        && TouchesOnly(old(table.rows), table.rows, c, n)
        && (r.Ok? && !svc.fieldWriteFails ==> Stored(table.rows, c, n) == Some(AfterRemove(f, onlyExport)))
        && (r.Err? || onlyExport ==> Stored(table.rows, c, n).Some? && Stored(table.rows, c, n).value.installed == f.installed)
    {
      var c := ValidateContainer(container, svc);
      if c.Err? {
        return Err(c.error);
      }
      var name := NonBlank(packageName);
      if name.None? {
        return Err(BlankPackage);
      }
      var pkg := Lookup(c.value, name.value, svc);
      if pkg.Err? {
        return Err(pkg.error);
      }
      r := RemoveFound(c.value, name.value, pkg.value, onlyExport, svc);
    }

    /**
     * Remove's flag machine for package `n` of container `c`, found as
     * `pkg`: un-export an exporting package whatever `onlyExport` says, then
     * uninstall it only when installed and not only the export is to go;
     * each flag is cleared in the table after its call succeeds, and a
     * failed call leaves its flag as it was.
     */
    method RemoveFound(c: string, n: string, pkg: CS.PackageInfo, onlyExport: bool, svc: Services)
      returns (r: Result<CS.PackageInfo, Failure>)
      requires table.created && Stored(table.rows, c, n) == Some(FlagsOf(pkg))
      modifies this, table
      ensures table.created
      ensures TouchesOnly(old(table.rows), table.rows, c, n)
      ensures var f := FlagsOf(pkg);
        var unexports := f.exporting;
        var uninstalls := (!f.exporting || svc.exportError.None?) && !onlyExport && f.installed;
        && calls == old(calls)
             + (if unexports then [ExportCall(c, n, true)] else []) + (if uninstalls then [RemoveCall(c, n)] else [])
        && (r.Ok? <==> (unexports ==> svc.exportError.None?) && (uninstalls ==> svc.removeError.None?))
        && (unexports && svc.exportError.Some? ==> r == Err(ExportFailed(svc.exportError.value)) && table.rows == old(table.rows))
        && (uninstalls && svc.removeError.Some? ==> r == Err(RemoveFailed(svc.removeError.value)))
      ensures r.Err? || onlyExport ==>
        Stored(table.rows, c, n).Some? && Stored(table.rows, c, n).value.installed == pkg.installed
      ensures r.Ok? ==> FlagsOf(r.value) == AfterRemove(FlagsOf(pkg), onlyExport)
      ensures pkg.name == n && pkg.container == c && r.Ok? ==> r.value.name == n && r.value.container == c
      ensures r.Ok? && !svc.fieldWriteFails ==> Stored(table.rows, c, n) == Some(AfterRemove(FlagsOf(pkg), onlyExport))
    {
      var now := pkg;
      if now.exporting {
        var err;
        err, now := SetExport(c, n, now, false, svc);
        if err.Some? {
          return Err(err.value);
        }
      }
      if !onlyExport && now.installed {
        var err;
        err, now := Uninstall(c, n, now, svc);
        if err.Some? {
          return Err(err.value);
        }
      }
      r := Ok(now);
    }

    /** Uninstalls package `n`, stored as `pkg` and installed, and clears the flag in the table. */
    method Uninstall(c: string, n: string, pkg: CS.PackageInfo, svc: Services)
      returns (err: Option<Failure>, after: CS.PackageInfo)
      requires table.created && Stored(table.rows, c, n).Some? && Stored(table.rows, c, n).value.installed == pkg.installed
      modifies this, table
      ensures calls == old(calls) + [RemoveCall(c, n)]
      ensures table.created
      ensures TouchesOnly(old(table.rows), table.rows, c, n)
      ensures err.None? <==> svc.removeError.None?
      ensures err.Some? ==> err == Some(RemoveFailed(svc.removeError.value)) && table.rows == old(table.rows)
      ensures err.None? ==> after == pkg.(installed := false)
      ensures err.None? && !svc.fieldWriteFails ==> Stored(table.rows, c, n) == Some(old(Stored(table.rows, c, n)).value.(installed := false))
      ensures err.None? && svc.fieldWriteFails ==> table.rows == old(table.rows)
    {
      calls := calls + [RemoveCall(c, n)];
      if svc.removeError.Some? {
        return Some(RemoveFailed(svc.removeError.value)), pkg;
      }
      ghost var before := table.rows;
      table.UpdatePackageField(c, n, "installed", false, svc.fieldWriteFails);
      if !svc.fieldWriteFails {
        StoredAfterUpdate(before, c, n, "installed", false);
        SetFlagTouchesOnly(before, c, n, "installed", false);
      }
      return None, pkg.(installed := false);
    }

    /**
     * List, up to the request it hands to the package service: the
     * container is validated and its OS description read; the filter is
     * added only when both its field and its value are non-blank.
     */
    method List(container: string, sort: string, order: string, limit: int, offset: int,
                filterField: string, filterValue: string, forceUpdate: bool, svc: Services)
      returns (r: Result<ListRequest, Failure>)
      modifies this, table
      ensures NoMutation(old(calls), calls)
      ensures NonBlank(container).None? ==>
        r == Err(BlankContainer) && calls == old(calls) && Kept(old(table.created), old(table.rows))
      ensures r.Ok? ==>
        r.value.container == NonBlank(container).value
        && r.value.filters == OptionalFilter(filterField, filterValue)
        && r.value.sort == sort && r.value.order == order && r.value.limit == limit && r.value.offset == offset
        && r.value.forceUpdate == forceUpdate
      ensures r.Ok? ==> svc.osInfoError.None? && |calls| > 0 && calls[|calls| - 1] == OsInfo(NonBlank(container).value)
    {
      var c := ValidateContainer(container, svc);
      if c.Err? {
        return Err(c.error);
      }
      var filters := OptionalFilter(filterField, filterValue);
      NoMutationAppend(old(calls), calls, OsInfo(c.value));
      calls := calls + [OsInfo(c.value)];
      if svc.osInfoError.Some? {
        return Err(OsInfoFailed(svc.osInfoError.value));
      }
      r := Ok(ListRequest(c.value, filters, sort, order, limit, offset, forceUpdate));
    }

    /** ContainerAdd: a blank image or name fails before distrobox is called. */
    method ContainerAdd(image: string, name: string, svc: Services) returns (r: Result<string, Failure>)
      modifies this
      ensures NonBlank(image).None? ==> r == Err(BlankImage) && calls == old(calls)
      ensures NonBlank(image).Some? && NonBlank(name).None? ==> r == Err(BlankName) && calls == old(calls)
      ensures NonBlank(image).Some? && NonBlank(name).Some? ==>
        calls == old(calls) + [CreateContainer(NonBlank(image).value, NonBlank(name).value)]
        && (r.Ok? <==> svc.createError.None?)
        && (r.Ok? ==> r.value == NonBlank(name).value)
    {
      var i := NonBlank(image);
      var n := NonBlank(name);
      if i.None? {
        return Err(BlankImage);
      }
      if n.None? {
        return Err(BlankName);
      }
      calls := calls + [CreateContainer(i.value, n.value)];
      if svc.createError.Some? {
        return Err(CreateFailed(svc.createError.value));
      }
      r := Ok(n.value);
    }

    /** ContainerRemove: a blank name fails before distrobox is called. */
    method ContainerRemove(name: string, svc: Services) returns (r: Result<string, Failure>)
      modifies this
      ensures NonBlank(name).None? ==> r == Err(BlankName) && calls == old(calls)
      ensures NonBlank(name).Some? ==>
        calls == old(calls) + [RemoveContainer(NonBlank(name).value)]
        && (r.Ok? <==> svc.removeContainerError.None?)
        && (r.Ok? ==> r.value == NonBlank(name).value)
    {
      var n := NonBlank(name);
      if n.None? {
        return Err(BlankName);
      }
      calls := calls + [RemoveContainer(n.value)];
      if svc.removeContainerError.Some? {
        return Err(RemoveContainerFailed(svc.removeContainerError.value));
      }
      r := Ok(n.value);
    }
  }
}
