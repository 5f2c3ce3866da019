/**
 * The host package metadata store (`host_image_packages`): a table of
 * package rows that a full scan replaces, that reconciliation updates from
 * the authoritative installed set, and that lookups, searches and the
 * allow-listed filter/sort/paginate query read.
 */
module HostStore {
  import opened Wrappers
  import opened Text
  import opened Sql
  import opened Batch

  /** A package of the host image, as the rest of the program sees it. */
  datatype Package = Package(
    name: string,
    section: string,
    installedSize: int,
    maintainer: string,
    version: string,
    versionInstalled: string,
    depends: seq<string>,
    provided: seq<string>,
    size: int,
    filename: string,
    description: string,
    changelog: string,
    installed: bool)

  /** A stored row: both lists comma-joined into one TEXT cell, the flag stored as 1 or 0. */
  datatype Row = Row(
    name: string,
    section: string,
    installedSize: int,
    maintainer: string,
    version: string,
    versionInstalled: string,
    depends: string,
    provided: string,
    size: int,
    filename: string,
    description: string,
    changelog: string,
    installed: int)

  datatype StoreError =
    | CreateTableError
    | CleanupError
    | TransactionStartError
    | BatchInsertError(batch: nat)
    | RollbackError(batch: nat)
    | CommitError
    | TempTableError
    | TempInsertError
    | UpdateError
    | PackageNotFound(name: string)
    | InvalidFilterField(field: string)
    | InvalidSortField(field: string)
    | NoSuchTable
    | NoSuchColumn(column: string)

  // ---------------------------------------------------------------------
  // List columns
  // ---------------------------------------------------------------------

  /** How a list is written to its column: joined with commas. */
  function WriteList(xs: seq<string>): string {
    Join(xs, ',')
  }

  /** How a list column is read back: split at commas, the empty text read as the empty list. */
  function ReadList(s: string): seq<string> {
    if s == "" then [] else Split(s, ',')
  }

  /** The lists that survive a write and a read: no element holds a comma, and not the list `[""]`. */
  predicate ListStorable(xs: seq<string>) {
    xs != [""] && forall i :: 0 <= i < |xs| ==> ',' !in xs[i]
  }

  /** Round trip of a list column. */
  lemma ListRoundTrip(xs: seq<string>)
    requires ListStorable(xs)
    ensures ReadList(WriteList(xs)) == xs
  {
    if |xs| >= 1 {
      SplitJoin(xs, ',');
      if |xs| == 1 {
        assert WriteList(xs) == xs[0];
      }
    }
  }

  /** The two lists the round trip loses: `[""]` comes back empty, and an element with a comma comes back split. */
  lemma ListRoundTripLosses()
    ensures ReadList(WriteList([""])) == []
    ensures ReadList(WriteList(["a,b"])) == ["a", "b"]
  {
    assert Split("a,b", ',') == ["a", "b"] by {
      assert "a,b" == "a" + [','] + "b";
      SplitFirst("a", "b", ',');
      SplitNoSep("b", ',');
    }
  }

  /** The row a package is written as. */
  function ToRow(p: Package): Row {
    Row(p.name, p.section, p.installedSize, p.maintainer, p.version, p.versionInstalled,
        WriteList(p.depends), WriteList(p.provided), p.size, p.filename, p.description,
        p.changelog, if p.installed then 1 else 0)
  }

  /** The package a row is read back as: lists split, any non-zero flag read as installed. */
  function FromRow(r: Row): Package {
    Package(r.name, r.section, r.installedSize, r.maintainer, r.version, r.versionInstalled,
            ReadList(r.depends), ReadList(r.provided), r.size, r.filename, r.description,
            r.changelog, r.installed != 0)
  }

  predicate Storable(p: Package) {
    ListStorable(p.depends) && ListStorable(p.provided)
  }

  /** Reading back a written package gives the package, when its lists are storable. */
  lemma PackageRoundTrip(p: Package)
    requires Storable(p)
    ensures FromRow(ToRow(p)) == p
  {
    ListRoundTrip(p.depends);
    ListRoundTrip(p.provided);
  }

  function ToRows(ps: seq<Package>): (rs: seq<Row>) {
    MapSeq(ps, ToRow)
  }

  function FromRows(rs: seq<Row>): (ps: seq<Package>) {
    MapSeq(rs, FromRow)
  }

  // ---------------------------------------------------------------------
  // Columns and allow-lists
  // ---------------------------------------------------------------------

  /** The columns of `host_image_packages`. */
  const Columns: set<string> := {
    "name", "section", "installed_size", "maintainer", "version", "versionInstalled",
    "depends", "provides", "size", "filename", "description", "changelog", "installed"}

  /** The cell a row holds in a column of `host_image_packages`, or None for a column the table lacks. */
  function Column(r: Row, column: string): (c: Option<Cell>)
    ensures c.Some? <==> column in Columns
  {
    if column == "name" then Some(TextCell(r.name))
    else if column == "section" then Some(TextCell(r.section))
    else if column == "installed_size" then Some(IntCell(r.installedSize))
    else if column == "maintainer" then Some(TextCell(r.maintainer))
    else if column == "version" then Some(TextCell(r.version))
    else if column == "versionInstalled" then Some(TextCell(r.versionInstalled))
    else if column == "depends" then Some(TextCell(r.depends))
    else if column == "provides" then Some(TextCell(r.provided))
    else if column == "size" then Some(IntCell(r.size))
    else if column == "filename" then Some(TextCell(r.filename))
    else if column == "description" then Some(TextCell(r.description))
    else if column == "changelog" then Some(TextCell(r.changelog))
    else if column == "installed" then Some(IntCell(r.installed))
    else None
  }

  const AllowedSortFields: seq<string> := [
    "name", "section", "installedSize", "maintainer", "version", "versionInstalled",
    "depends", "provides", "size", "filename", "description", "changelog", "installed"]

  const AllowedFilterFields: seq<string> := [
    "name", "section", "installedSize", "maintainer", "version", "versionInstalled",
    "depends", "provides", "size", "filename", "description", "changelog", "installed"]

  /** The column meant by an allowed field: the API's "installedSize" is the column `installed_size`. */
  function ColumnOf(field: string): string {
    if field == "installedSize" then "installed_size" else field
  }

  /** With the mapping, every allowed filter or sort field names a column of the table. */
  lemma AllowedFieldsAreColumns(field: string)
    requires IsAllowedField(field, AllowedFilterFields) || IsAllowedField(field, AllowedSortFields)
    ensures ColumnOf(field) in Columns
  {
    assert AllowedSortFields == AllowedFilterFields;
    var i :| 0 <= i < |AllowedFilterFields| && AllowedFilterFields[i] == field;
    AllowedColumnAt(i);
  }

  lemma AllowedColumnAt(i: nat)
    requires i < |AllowedFilterFields|
    ensures ColumnOf(AllowedFilterFields[i]) in Columns
  {
    var f := AllowedFilterFields[i];
    if i == 0 { assert f == "name"; }
    else if i == 1 { assert f == "section"; }
    else if i == 2 { assert f == "installedSize"; }
    else if i == 3 { assert f == "maintainer"; }
    else if i == 4 { assert f == "version"; }
    else if i == 5 { assert f == "versionInstalled"; }
    else if i == 6 { assert f == "depends"; }
    else if i == 7 { assert f == "provides"; }
    else if i == 8 { assert f == "size"; }
    else if i == 9 { assert f == "filename"; }
    else if i == 10 { assert f == "description"; }
    else if i == 11 { assert f == "changelog"; }
    else { assert f == "installed"; }
  }

  // ---------------------------------------------------------------------
  // WHERE: the conditions one filter contributes
  // ---------------------------------------------------------------------

  /**
   * The condition the builder emits for one allowed filter, on the field
   * name as given: `installed` compares with 1 or 0 when the value parses
   * as a boolean and is skipped otherwise; `depends`/`provides` test a
   * whole comma-separated token; any other string is a LIKE containment;
   * any other value an equality.
   */
  function CondOf(field: string, v: Value, parseBool: Value -> Option<bool>): (r: Option<Cond>)
    ensures r.Some? ==> r.value.field == field
    ensures r.None? <==> field == "installed" && parseBool(v).None?
  {
    if field == "installed" then
      match parseBool(v)
      case None => None
      case Some(b) => Some(FlagIs(field, b))
    else if field == "provides" || field == "depends" then
      Some(HasToken(field, Show(v)))
    else if v.Str? then
      Some(Matches(field, v.s))
    else
      Some(EqualTo(field, v))
  }

  /** The set of conditions a filter map contributes, whatever order the map is walked in. */
  function CondsFor(filters: map<string, Value>, parseBool: Value -> Option<bool>): set<Cond> {
    set f | f in filters && CondOf(f, filters[f], parseBool).Some? :: CondOf(f, filters[f], parseBool).value
  }

  /** The filter a condition of the set comes from; the condition is on that field. */
  lemma CondSource(filters: map<string, Value>, parseBool: Value -> Option<bool>, c: Cond) returns (f: string)
    requires c in CondsFor(filters, parseBool)
    ensures f in filters && CondOf(f, filters[f], parseBool) == Some(c)
    ensures c.field == f
  {
    f :| f in filters && CondOf(f, filters[f], parseBool).Some? && CondOf(f, filters[f], parseBool).value == c;
  }

  /** Of the allowed fields, "installedSize" is the only one that names no column. */
  lemma AllowedMissingColumn(field: string)
    requires IsAllowedField(field, AllowedFilterFields) || IsAllowedField(field, AllowedSortFields)
    ensures field !in Columns <==> field == "installedSize"
  {
    AllowedFieldsAreColumns(field);
    if field == "installedSize" {
      InstalledSizeIsNoColumn();
    } else {
      assert ColumnOf(field) == field;
    }
  }

  /** The API field "installedSize" is not the name of a column. */
  lemma InstalledSizeIsNoColumn()
    ensures "installedSize" !in Columns
  {
  }

  /**
   * Under the allow-list, some condition names a missing column exactly
   * when "installedSize" is filtered on, and that column is the only one.
   */
  lemma MissingColumnConds(filters: map<string, Value>, parseBool: Value -> Option<bool>)
    requires forall f :: f in filters ==> IsAllowedField(f, AllowedFilterFields)
    ensures (exists c :: c in CondsFor(filters, parseBool) && c.field !in Columns) <==> "installedSize" in filters
    ensures forall c :: c in CondsFor(filters, parseBool) && c.field !in Columns ==> c.field == "installedSize"
  {
    forall c | c in CondsFor(filters, parseBool) && c.field !in Columns
      ensures c.field == "installedSize"
    {
      var f := CondSource(filters, parseBool, c);
      AllowedMissingColumn(f);
    }
    if "installedSize" in filters {
      var c := CondOf("installedSize", filters["installedSize"], parseBool).value;
      assert c in CondsFor(filters, parseBool);
      InstalledSizeIsNoColumn();
    }
  }

  /** The column SQLite reports missing for the built conditions: "installedSize" exactly when it is filtered on. */
  lemma MissingOfBuilt(conds: seq<Cond>, filters: map<string, Value>, parseBool: Value -> Option<bool>)
    requires forall f :: f in filters ==> IsAllowedField(f, AllowedFilterFields)
    requires AsSet(conds) == CondsFor(filters, parseBool)
    ensures MissingColumn(conds, Columns) == if "installedSize" in filters then Some("installedSize") else None
  {
    MissingColumnConds(filters, parseBool);
    var m := MissingColumn(conds, Columns);
    if m.Some? {
      var c :| c in conds && c.field == m.value;
      assert c in AsSet(conds);
    }
  }

  /**
   * A query built from allowed fields fails exactly when it filters or
   * sorts on "installedSize", and the column it then reports missing is
   * "installedSize".
   */
  lemma BuiltQueriesRun(rows: seq<Row>, filters: map<string, Value>, parseBool: Value -> Option<bool>, order: Option<Order>, paging: Paging)
    requires forall f :: f in filters ==> IsAllowedField(f, AllowedFilterFields)
    requires order.Some? ==> IsAllowedField(order.value.column, AllowedSortFields)
    ensures var q := Execute(rows, Column, Columns, CondsFor(filters, parseBool), order, paging);
      && (q.Err? <==> "installedSize" in filters || (order.Some? && order.value.column == "installedSize"))
      && (q.Err? ==> q.error == "installedSize")
  {
    var conds := CondsFor(filters, parseBool);
    MissingColumnConds(filters, parseBool);
    if order.Some? {
      AllowedMissingColumn(order.value.column);
    }
    var q := Execute(rows, Column, Columns, conds, order, paging);
    if exists c :: c in conds && c.field !in Columns {
      assert q.Err? && q.error == "installedSize";
    } else if order.Some? && order.value.column !in Columns {
      assert q == Err(order.value.column);
    } else {
      assert q.Ok?;
    }
  }

  /**
   * A filter on "installedSize" passes the allow-list, and the query built
   * from it then fails: the table has no column of that name.
   */
  lemma InstalledSizeFilterFailsAsWritten(rows: seq<Row>, v: Value, parseBool: Value -> Option<bool>, order: Option<Order>, paging: Paging)
    ensures IsAllowedField("installedSize", AllowedFilterFields)
    ensures Execute(rows, Column, Columns, CondsFor(map["installedSize" := v], parseBool), order, paging) == Err("installedSize")
  {
    assert AllowedFilterFields[2] == "installedSize";
    var filters := map["installedSize" := v];
    MissingColumnConds(filters, parseBool);
  }

  /** The same for a sort on "installedSize", whatever the (allowed) filters. */
  lemma InstalledSizeSortFailsAsWritten(rows: seq<Row>, filters: map<string, Value>, parseBool: Value -> Option<bool>, dir: Direction, paging: Paging)
    requires forall f :: f in filters ==> IsAllowedField(f, AllowedFilterFields)
    ensures IsAllowedField("installedSize", AllowedSortFields)
    ensures Execute(rows, Column, Columns, CondsFor(filters, parseBool), Some(Order("installedSize", dir)), paging) == Err("installedSize")
  {
    assert AllowedSortFields[2] == "installedSize";
    BuiltQueriesRun(rows, filters, parseBool, Some(Order("installedSize", dir)), paging);
  }

  /** A condition as intended: on the column its field means. */
  function Corrected(c: Cond): (d: Cond)
    ensures d.field == ColumnOf(c.field)
  {
    c.(field := ColumnOf(c.field))
  }

  /** The conditions of the intended query. */
  function CorrectedConds(filters: map<string, Value>, parseBool: Value -> Option<bool>): set<Cond> {
    set c | c in CondsFor(filters, parseBool) :: Corrected(c)
  }

  /** The ORDER BY of the intended query. */
  function CorrectedOrder(order: Option<Order>): Option<Order> {
    if order.Some? then Some(Order(ColumnOf(order.value.column), order.value.dir)) else None
  }

  /** With the intended column mapping, no query built from allowed fields fails for a missing column. */
  lemma CorrectedQueriesRun(rows: seq<Row>, filters: map<string, Value>, parseBool: Value -> Option<bool>, order: Option<Order>, paging: Paging)
    requires forall f :: f in filters ==> IsAllowedField(f, AllowedFilterFields)
    requires order.Some? ==> IsAllowedField(order.value.column, AllowedSortFields)
    ensures Execute(rows, Column, Columns, CorrectedConds(filters, parseBool), CorrectedOrder(order), paging).Ok?
  {
    forall d | d in CorrectedConds(filters, parseBool) ensures d.field in Columns {
      var c :| c in CondsFor(filters, parseBool) && d == Corrected(c);
      var f := CondSource(filters, parseBool, c);
      AllowedFieldsAreColumns(f);
    }
    if order.Some? {
      AllowedFieldsAreColumns(order.value.column);
    }
  }

  /** The correction changes nothing for a query that does not filter on "installedSize". */
  lemma CorrectionKeepsOtherQueries(filters: map<string, Value>, parseBool: Value -> Option<bool>)
    requires "installedSize" !in filters
    ensures CorrectedConds(filters, parseBool) == CondsFor(filters, parseBool)
  {
    forall c | c in CondsFor(filters, parseBool) ensures Corrected(c) == c {
      var f := CondSource(filters, parseBool, c);
    }
  }

  /** An `installed` filter whose value does not parse as a boolean adds no condition at all. */
  lemma UnparsedInstalledIsSkipped(filters: map<string, Value>, parseBool: Value -> Option<bool>)
    requires "installed" in filters && parseBool(filters["installed"]).None?
    ensures CondsFor(filters, parseBool) == CondsFor(filters - {"installed"}, parseBool)
  {
    var rest := filters - {"installed"};
    forall c | c in CondsFor(filters, parseBool) ensures c in CondsFor(rest, parseBool) {
      var f :| f in filters && CondOf(f, filters[f], parseBool).Some? && CondOf(f, filters[f], parseBool).value == c;
      assert f != "installed";
      assert f in rest;
    }
  }

  /** An `installed` filter that parses compares the stored flag with 1 or 0. */
  lemma InstalledFilterMeaning(p: Package, v: Value, parseBool: Value -> Option<bool>)
    requires parseBool(v).Some?
    ensures CondOf("installed", v, parseBool).Some?
    ensures CondHolds(CondOf("installed", v, parseBool).value, ToRow(p), Column) <==> p.installed == parseBool(v).value
  {
  }

  /**
   * A `depends` filter with value `v` (no comma in it) matches a package
   * exactly when `v` is, up to ASCII case, one whole element of its
   * dependency list; never a part of one. (An empty list is stored as ""
   * and matches only the empty value.)
   */
  lemma DependsFilterMatchesWholeElement(p: Package, v: string, parseBool: Value -> Option<bool>)
    requires ListStorable(p.depends) && ',' !in v
    requires p.depends != [] || v != ""
    ensures CondOf("depends", Str(v), parseBool) == Some(HasToken("depends", v))
    ensures CondHolds(HasToken("depends", v), ToRow(p), Column) <==>
      exists e :: e in p.depends && Lower(e) == Lower(v)
  {
    assert Column(ToRow(p), "depends") == Some(TextCell(WriteList(p.depends)));
    TokenMatch(WriteList(p.depends), v);
    if p.depends != [] {
      SplitJoin(p.depends, ',');
    } else {
      assert Split("", ',') == [""];
    }
  }

  /** The same for `provides`. */
  lemma ProvidesFilterMatchesWholeElement(p: Package, v: string, parseBool: Value -> Option<bool>)
    requires ListStorable(p.provided) && ',' !in v
    requires p.provided != [] || v != ""
    ensures CondOf("provides", Str(v), parseBool) == Some(HasToken("provides", v))
    ensures CondHolds(HasToken("provides", v), ToRow(p), Column) <==>
      exists e :: e in p.provided && Lower(e) == Lower(v)
  {
    assert Column(ToRow(p), "provides") == Some(TextCell(WriteList(p.provided)));
    TokenMatch(WriteList(p.provided), v);
    if p.provided != [] {
      SplitJoin(p.provided, ',');
    } else {
      assert Split("", ',') == [""];
    }
  }

  /**
   * The text LIKE sees in a package's column, for the columns a string
   * filter can name: the stored text, and an INTEGER column in decimal.
   */
  function FieldText(p: Package, column: string): string {
    if column == "name" then p.name
    else if column == "section" then p.section
    else if column == "installed_size" then Decimal(p.installedSize)
    else if column == "maintainer" then p.maintainer
    else if column == "version" then p.version
    else if column == "versionInstalled" then p.versionInstalled
    else if column == "size" then Decimal(p.size)
    else if column == "filename" then p.filename
    else if column == "description" then p.description
    else if column == "changelog" then p.changelog
    else ""
  }

  /**
   * A string filter on any allowed field other than `installed`,
   * `depends` and `provides` is a LIKE containment on that field: it
   * matches exactly when the value occurs, up to ASCII case, in the field's
   * text (an integer column in decimal). On "installedSize", which names
   * no column, it holds of no row.
   */
  lemma StringFilterIsContainment(p: Package, field: string, v: string, parseBool: Value -> Option<bool>)
    requires IsAllowedField(field, AllowedFilterFields)
    requires field != "installed" && field != "depends" && field != "provides"
    ensures CondOf(field, Str(v), parseBool) == Some(Matches(field, v))
    ensures field != "installedSize" ==>
      (CondHolds(Matches(field, v), ToRow(p), Column) <==> Contains(Lower(FieldText(p, field)), Lower(v)))
    ensures field == "installedSize" ==> !CondHolds(Matches(field, v), ToRow(p), Column)
  {
    if field == "installedSize" {
      InstalledSizeIsNoColumn();
    } else {
      AllowedMissingColumn(field);
      ColumnText(p, field);
    }
  }

  /** In every column other than the lists and the flag, LIKE reads the text of the package's field. */
  lemma ColumnText(p: Package, column: string)
    requires column in Columns && column != "depends" && column != "provides" && column != "installed"
    ensures Column(ToRow(p), column).Some?
    ensures CellText(Column(ToRow(p), column).value) == FieldText(p, column)
  {
  }

  // ---------------------------------------------------------------------
  // The store
  // ---------------------------------------------------------------------

  /** Which statement of a bulk replace the database refuses, if any. */
  datatype SaveFault =
    | SaveClean
    | FailCreate
    | FailDelete
    | FailBegin
    | FailBatch(batch: nat, rollbackFails: bool)
    | FailCommit

  /** Which statement of a reconciliation the database refuses, if any. */
  datatype SyncFault = SyncClean | FailSyncBegin | FailTempCreate | FailTempInsert | FailUpdate | FailSyncCommit

  /** The row after reconciliation: installed exactly when its name is in the map, with the map's version or "". */
  function Reconciled(r: Row, installed: map<string, string>): Row {
    r.(installed := if r.name in installed then 1 else 0,
       versionInstalled := if r.name in installed then installed[r.name] else "")
  }

  function FirstNamed(rows: seq<Row>, name: string): (r: Option<nat>)
    ensures r.None? <==> forall i :: 0 <= i < |rows| ==> rows[i].name != name
    ensures r.Some? ==> (r.value < |rows| && rows[r.value].name == name
      && forall i :: 0 <= i < r.value ==> rows[i].name != name)
  {
    if rows == [] then None
    else if rows[0].name == name then Some(0)
    else match FirstNamed(rows[1..], name)
      case None => None
      case Some(k) => Some(k + 1)
  }

  /** The rows whose name contains `namePart` (case-insensitively), only installed ones when asked. */
  function Search(rows: seq<Row>, namePart: string, installedOnly: bool): (r: seq<Row>)
    ensures forall x :: x in r <==> x in rows && Like(x.name, namePart) && (installedOnly ==> x.installed == 1)
  {
    if rows == [] then []
    else
      var rest := Search(rows[1..], namePart, installedOnly);
      assert forall x :: x in rows <==> x == rows[0] || x in rows[1..];
      if Like(rows[0].name, namePart) && (installedOnly ==> rows[0].installed == 1) then [rows[0]] + rest else rest
  }

  class HostTable {
    /** Whether CREATE TABLE has run. */
    var created: bool
    /** The rows, in insertion order. */
    var rows: seq<Row>

    constructor ()
      ensures !created && rows == []
    {
      created := false;
      rows := [];
    }

    /**
     * Replaces the table with `packages`. The table is created if absent
     * and emptied BEFORE the transaction starts; the rows are then inserted
     * in batches of 1000 and committed. A refused batch or commit therefore
     * leaves the table empty, not as it was.
     */
    method SavePackagesToDB(packages: seq<Package>, fault: SaveFault) returns (err: Option<StoreError>, ghost inserts: seq<nat>)
      modifies this
      ensures created == (old(created) || fault != FailCreate)
      ensures err.None? <==> fault == SaveClean || (fault.FailBatch? && fault.batch >= Batches(|packages|))
      ensures err.None? ==> rows == ToRows(packages)
      ensures fault == FailCreate || fault == FailDelete ==> rows == old(rows)
      ensures err.Some? && fault != FailCreate && fault != FailDelete ==> rows == []
      ensures forall k :: 0 <= k < |inserts| ==> 0 < inserts[k] <= BatchSize
      ensures err.None? ==> |inserts| == Batches(|packages|) && Sum(inserts) == |packages|
    {
      inserts := [];
      if fault == FailCreate {
        return Some(CreateTableError), inserts;
      }
      created := true;
      if fault == FailDelete {
        return Some(CleanupError), inserts;
      }
      rows := [];
      if fault == FailBegin {
        return Some(TransactionStartError), inserts;
      }
      var failed, staged;
      failed, staged, inserts := InsertBatches(packages, ToRow, if fault.FailBatch? then Some(fault.batch) else None);
      if failed.Some? {
        return Some(if fault.rollbackFails then RollbackError(failed.value) else BatchInsertError(failed.value)), inserts;
      }
      if fault == FailCommit {
        return Some(CommitError), inserts;
      }
      rows := staged;
      err := None;
    }

    /** The package named `name` (the first such row), or an error when there is none. */
    function GetPackageByName(name: string): (r: Result<Package, StoreError>)
      reads this
      ensures r.Err? <==> !created || forall x :: x in rows ==> x.name != name
      ensures r.Err? ==> r.error == PackageNotFound(name)
      ensures r.Ok? ==> r.value.name == name && exists x :: x in rows && x.name == name && r.value == FromRow(x)
    {
      if !created then Err(PackageNotFound(name))
      else match FirstNamed(rows, name)
        case None => Err(PackageNotFound(name))
        case Some(k) => Ok(FromRow(rows[k]))
    }

    /**
     * Sets, inside one transaction, every row's installed flag and installed
     * version from the authoritative map of installed packages. Rows are
     * neither added nor removed; on any failure nothing changes.
     */
    method SyncPackageInstallationInfo(installed: map<string, string>, fault: SyncFault) returns (err: Option<StoreError>)
      modifies this
      ensures created == old(created)
      ensures err.None? <==> created && (fault == SyncClean || (fault == FailTempInsert && |installed| == 0))
      ensures err.Some? ==> rows == old(rows)
      ensures |rows| == |old(rows)|
      ensures err.None? ==> forall i :: 0 <= i < |rows| ==> rows[i] == Reconciled(old(rows)[i], installed)
    {
      if fault == FailSyncBegin {
        return Some(TransactionStartError);
      }
      if fault == FailTempCreate {
        return Some(TempTableError);
      }
      if |installed| > 0 && fault == FailTempInsert {
        return Some(TempInsertError);
      }
      if !created {
        return Some(NoSuchTable);
      }
      if fault == FailUpdate {
        return Some(UpdateError);
      }
      var updated := rows;
      var i := 0;
      while i < |updated|
        invariant 0 <= i <= |updated| == |rows|
        invariant forall k :: 0 <= k < i ==> updated[k] == Reconciled(rows[k], installed)
        invariant forall k :: i <= k < |updated| ==> updated[k] == rows[k]
      {
        updated := updated[i := Reconciled(updated[i], installed)];
        i := i + 1;
      }
      if fault == FailSyncCommit {
        return Some(CommitError);
      }
      rows := updated;
      err := None;
    }

    /** Packages whose name contains `namePart`, only installed ones when `installed` is set. */
    function SearchPackagesByName(namePart: string, installed: bool): (r: Result<seq<Package>, StoreError>)
      reads this
      ensures r.Err? <==> !created
      ensures r.Ok? ==> forall p :: p in r.value ==> Like(p.name, namePart) && (installed ==> p.installed)
      ensures r.Ok? ==> forall p :: p in r.value ==>
        exists x :: x in rows && Like(x.name, namePart) && (installed ==> x.installed == 1) && p == FromRow(x)
      ensures r.Ok? ==> forall x :: x in rows && Like(x.name, namePart) && (installed ==> x.installed == 1) ==> FromRow(x) in r.value
    {
      if !created then Err(NoSuchTable)
      else
        var found := Search(rows, namePart, installed);
        var ps := FromRows(found);
        assert forall p :: p in ps ==> exists x :: x in found && p == FromRow(x);
        assert forall x :: x in found ==> FromRow(x) in ps by {
          forall x | x in found ensures FromRow(x) in ps {
            var k :| 0 <= k < |found| && found[k] == x;
            assert ps[k] == FromRow(x);
          }
        }
        Ok(ps)
    }

    /**
     * The WHERE conditions for a filter map, built one filter at a time in
     * whatever order the map yields them. The first field outside the
     * allow-list stops the build with an error.
     */
    static method BuildConditions(filters: map<string, Value>, parseBool: Value -> Option<bool>) returns (r: Result<seq<Cond>, StoreError>)
      ensures r.Ok? <==> forall f :: f in filters ==> IsAllowedField(f, AllowedFilterFields)
      ensures r.Err? ==> (r.error.InvalidFilterField? && r.error.field in filters
        && !IsAllowedField(r.error.field, AllowedFilterFields))
      ensures r.Ok? ==> AsSet(r.value) == CondsFor(filters, parseBool)
    {
      var conds: seq<Cond> := [];
      var remaining := filters.Keys;
      while remaining != {}
        invariant remaining <= filters.Keys
        invariant forall f :: f in filters && f !in remaining ==> IsAllowedField(f, AllowedFilterFields)
        invariant AsSet(conds) == CondsFor(filters - remaining, parseBool)
        decreases remaining
      {
        var field :| field in remaining;
        var value := filters[field];
        if !IsAllowedField(field, AllowedFilterFields) {
          return Err(InvalidFilterField(field));
        }
        ghost var before := conds;
        ghost var wasRemaining := remaining;
        remaining := remaining - {field};
        assert remaining + {field} == wasRemaining;
        var added := CondOf(field, value, parseBool);
        if added.Some? {
          AsSetAppend(conds, added.value);
          conds := conds + [added.value];
        }
        CondsForAdd(filters, remaining, field, parseBool);
      }
      assert filters - remaining == filters;
      r := Ok(conds);
    }

    /**
     * Packages matching every filter, ordered by `sortField` when one is
     * given, then paged. A filter field outside the allow-list fails first,
     * then a sort field outside it; no query runs in either case. The field
     * names go into the SQL as they are, so SQLite refuses a filter or a
     * sort on the allowed field "installedSize", which names no column.
     */
    method QueryHostImagePackages(filters: map<string, Value>, parseBool: Value -> Option<bool>,
                                  sortField: string, sortOrder: string, limit: int, offset: int)
      returns (r: Result<seq<Package>, StoreError>)
      ensures (exists f :: f in filters && !IsAllowedField(f, AllowedFilterFields)) ==>
        r.Err? && r.error.InvalidFilterField? && r.error.field in filters
      ensures ((forall f :: f in filters ==> IsAllowedField(f, AllowedFilterFields)) && sortField != ""
        && !IsAllowedField(sortField, AllowedSortFields)) ==> r == Err(InvalidSortField(sortField))
      ensures ((forall f :: f in filters ==> IsAllowedField(f, AllowedFilterFields))
        && (sortField == "" || IsAllowedField(sortField, AllowedSortFields))) ==>
        r == if !created then Err(NoSuchTable) else
          match Execute(rows, Column, Columns, CondsFor(filters, parseBool),
                        if sortField == "" then None else Some(Order(sortField, DirectionOf(sortOrder))),
                        PagingOf(limit, offset))
          case Err(e) => Err(NoSuchColumn(e))
          case Ok(found) => Ok(FromRows(found))
      ensures ((forall f :: f in filters ==> IsAllowedField(f, AllowedFilterFields))
        && (sortField == "" || IsAllowedField(sortField, AllowedSortFields)) && created) ==>
        if "installedSize" in filters || sortField == "installedSize" then r == Err(NoSuchColumn("installedSize")) else r.Ok?
    {
      var built := BuildConditions(filters, parseBool);
      if built.Err? {
        return Err(built.error);
      }
      var order: Option<Order> := None;
      if sortField != "" {
        if !IsAllowedField(sortField, AllowedSortFields) {
          return Err(InvalidSortField(sortField));
        }
        order := Some(Order(sortField, DirectionOf(sortOrder)));
      }
      var paging := PagingOf(limit, offset);
      if !created {
        return Err(NoSuchTable);
      }
      BuiltQueriesRun(rows, filters, parseBool, order, paging);
      var missing := MissingColumn(built.value, Columns);
      MissingOfBuilt(built.value, filters, parseBool);
      if missing.Some? {
        return Err(NoSuchColumn(missing.value));
      }
      if order.Some? && order.value.column !in Columns {
        return Err(NoSuchColumn(order.value.column));
      }
      var selected := Select(rows, AsSet(built.value), Column);
      var ordered := if order.Some? then SortBy(selected, KeyOf(Column, order.value.column), order.value.dir) else selected;
      r := Ok(FromRows(Page(ordered, paging)));
    }

    /**
     * The number of rows matching every filter. A filter field outside the
     * allow-list fails and nothing is counted; as in the query, a filter on
     * "installedSize" names no column and the count fails.
     */
    method CountHostImagePackages(filters: map<string, Value>, parseBool: Value -> Option<bool>) returns (r: Result<nat, StoreError>)
      ensures (exists f :: f in filters && !IsAllowedField(f, AllowedFilterFields)) ==>
        r.Err? && r.error.InvalidFilterField? && r.error.field in filters
      ensures (forall f :: f in filters ==> IsAllowedField(f, AllowedFilterFields)) ==>
        r == if !created then Err(NoSuchTable)
          else if "installedSize" in filters then Err(NoSuchColumn("installedSize"))
          else Ok(|Select(rows, CondsFor(filters, parseBool), Column)|)
    {
      var built := BuildConditions(filters, parseBool);
      if built.Err? {
        return Err(built.error);
      }
      if !created {
        return Err(NoSuchTable);
      }
      var missing := MissingColumn(built.value, Columns);
      MissingOfBuilt(built.value, filters, parseBool);
      if missing.Some? {
        return Err(NoSuchColumn(missing.value));
      }
      r := Ok(|Select(rows, AsSet(built.value), Column)|);
    }

    /**
     * AS WRITTEN: succeeds whenever the table can be counted, whatever the
     * count, although its purpose is to tell whether the table holds any
     * package at all.
     */
    function PackageDatabaseExist(): (r: Option<StoreError>)
      reads this
      ensures r.None? <==> created
    {
      if created then None else Some(NoSuchTable)
    }

    /** The check as intended: an error when the table is missing or holds no row. */
    function PackageDatabaseHasRows(): (r: Option<StoreError>)
      reads this
      ensures r.None? <==> created && |rows| > 0
    {
      if !created then Some(NoSuchTable)
      else if |rows| == 0 then Some(PackageNotFound(""))
      else None
    }
  }

  /** Adding one walked field to the walked part of the map adds exactly its condition. */
  lemma CondsForAdd(filters: map<string, Value>, remaining: set<string>, field: string, parseBool: Value -> Option<bool>)
    requires field in filters && field !in remaining
    ensures CondsFor(filters - remaining, parseBool) ==
      CondsFor(filters - (remaining + {field}), parseBool) +
      (if CondOf(field, filters[field], parseBool).Some? then {CondOf(field, filters[field], parseBool).value} else {})
  {
    var now := filters - remaining;
    var before := filters - (remaining + {field});
    assert now.Keys == before.Keys + {field};
    forall f | f in now ensures now[f] == filters[f] { }
    forall f | f in before ensures before[f] == filters[f] { }
  }

  /** After an empty table, the intended existence check fails while the as-written one passes. */
  lemma EmptyTablePassesExistenceCheck(t: HostTable)
    requires t.created && t.rows == []
    ensures t.PackageDatabaseExist().None?
    ensures t.PackageDatabaseHasRows().Some?
  {
  }

  /**
   * Reconciliation from a map whose versions are all non-empty keeps the
   * invariant "installed exactly when an installed version is recorded".
   */
  lemma ReconciledKeepsInstalledInvariant(r: Row, installed: map<string, string>)
    requires forall n :: n in installed ==> installed[n] != ""
    ensures var p := FromRow(Reconciled(r, installed));
      p.installed <==> p.versionInstalled != ""
  {
  }

  /** The two-package example: scan {A v1, B v2} not installed, reconcile with {A: v1}. */
  lemma ReconcileExample()
    ensures var a := Row("A", "", 0, "", "v1", "", "", "", 0, "", "", "", 0);
      var b := Row("B", "", 0, "", "v2", "", "", "", 0, "", "", "", 0);
      var m := map["A" := "v1"];
      && FromRow(Reconciled(a, m)).installed && FromRow(Reconciled(a, m)).versionInstalled == "v1"
      && !FromRow(Reconciled(b, m)).installed && FromRow(Reconciled(b, m)).versionInstalled == ""
  {
  }
}
