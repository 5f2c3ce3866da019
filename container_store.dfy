/**
 * The container package metadata store (`distrobox_packages`): one table
 * shared by all containers, each row tagged with its container. A scan of
 * a container replaces that container's rows only; the install and remove
 * flows flip single flags; queries may be scoped to one container or span
 * all of them.
 */
module ContainerStore {
  import opened Wrappers
  import opened Text
  import opened Sql
  import opened Batch

  /** A package as the container flows see it. */
  datatype PackageInfo = PackageInfo(
    name: string,
    version: string,
    description: string,
    container: string,
    installed: bool,
    exporting: bool,
    manager: string)

  /** A stored row: both flags as 1 or 0. */
  datatype Row = Row(
    container: string,
    name: string,
    version: string,
    description: string,
    installed: int,
    exporting: int,
    manager: string)

  datatype StoreError =
    | EmptyContainerName
    | CreateTableError
    | CleanupError
    | TransactionStartError
    | BatchInsertError(batch: nat)
    | CommitError
    | DatabaseMissing
    | DatabaseEmpty
    | NoRecordsForContainer(container: string)
    | InvalidFilterField(field: string)
    | InvalidSortField(field: string)
    | NoSuchTable
    | NoSuchColumn(column: string)
    | PackageNotFound(container: string, name: string)
    | DeleteError(container: string)

  /** Which statement of a container scan's save the database refuses, if any. */
  datatype SaveFault = SaveClean | FailCreate | FailDelete | FailBegin | FailBatch(batch: nat) | FailCommit

  /** The row a scanned package of `container` is written as: the container comes from the caller, not the package. */
  function ToRow(container: string, p: PackageInfo): Row {
    Row(container, p.name, p.version, p.description,
        if p.installed then 1 else 0, if p.exporting then 1 else 0, p.manager)
  }

  function FromRow(r: Row): PackageInfo {
    PackageInfo(r.name, r.version, r.description, r.container, r.installed != 0, r.exporting != 0, r.manager)
  }

  /** A saved package reads back as itself, tagged with the container it was saved under. */
  lemma RowRoundTrip(container: string, p: PackageInfo)
    ensures FromRow(ToRow(container, p)) == p.(container := container)
  {
  }

  function FromRows(rs: seq<Row>): seq<PackageInfo> {
    MapSeq(rs, FromRow)
  }

  // ---------------------------------------------------------------------
  // Columns, allow-lists, conditions
  // ---------------------------------------------------------------------

  const Columns: set<string> := {"container", "name", "version", "description", "installed", "exporting", "manager"}

  function Column(r: Row, column: string): (c: Option<Cell>)
    ensures c.Some? <==> column in Columns
  {
    if column == "container" then Some(TextCell(r.container))
    else if column == "name" then Some(TextCell(r.name))
    else if column == "version" then Some(TextCell(r.version))
    else if column == "description" then Some(TextCell(r.description))
    else if column == "installed" then Some(IntCell(r.installed))
    else if column == "exporting" then Some(IntCell(r.exporting))
    else if column == "manager" then Some(TextCell(r.manager))
    else None
  }

  const AllowedSortFields: seq<string> := ["name", "version", "description", "container", "installed", "exporting", "manager"]

  const AllowedFilterFields: seq<string> := ["name", "version", "description", "container", "installed", "exporting", "manager"]

  /** Every allowed filter or sort field is a column of the table. */
  lemma AllowedFieldsAreColumns(field: string)
    requires IsAllowedField(field, AllowedFilterFields) || IsAllowedField(field, AllowedSortFields)
    ensures field in Columns
  {
    assert AllowedSortFields == AllowedFilterFields;
    var i :| 0 <= i < |AllowedFilterFields| && AllowedFilterFields[i] == field;
    assert i < 4 ==> field in Columns;
  }

  /**
   * The condition the builder emits for one allowed filter: `installed`
   * and `exporting` compare with 1 or 0 when the value parses as a boolean
   * and are skipped otherwise; a string is a LIKE containment; any other
   * value an equality.
   */
  function CondOf(field: string, v: Value, parseBool: Value -> Option<bool>): (r: Option<Cond>)
    ensures r.Some? ==> r.value.field == field
    ensures r.None? <==> (field == "installed" || field == "exporting") && parseBool(v).None?
  {
    if field == "installed" || field == "exporting" then
      match parseBool(v)
      case None => None
      case Some(b) => Some(FlagIs(field, b))
    else if v.Str? then
      Some(Matches(field, v.s))
    else
      Some(EqualTo(field, v))
  }

  /** The `container = ?` conjunct, present only for a non-empty container name. */
  function ScopeConds(containerName: string): set<Cond> {
    if containerName == "" then {} else {TextIs("container", containerName)}
  }

  function FilterConds(filters: map<string, Value>, parseBool: Value -> Option<bool>): set<Cond> {
    set f | f in filters && CondOf(f, filters[f], parseBool).Some? :: CondOf(f, filters[f], parseBool).value
  }

  /** All conditions of a query scoped to `containerName` with `filters`. */
  function CondsFor(containerName: string, filters: map<string, Value>, parseBool: Value -> Option<bool>): set<Cond> {
    ScopeConds(containerName) + FilterConds(filters, parseBool)
  }

  /** A query scoped to a container returns only that container's rows; an unscoped one is not narrowed. */
  lemma ScopeMeaning(containerName: string, r: Row)
    ensures Admits(ScopeConds(containerName), r, Column) <==> containerName == "" || r.container == containerName
  {
    if containerName != "" {
      var c := TextIs("container", containerName);
      assert c in ScopeConds(containerName);
      assert CondHolds(c, r, Column) <==> r.container == containerName;
    }
  }

  /** A flag filter that parses compares the stored flag with 1 or 0. */
  lemma FlagFilterMeaning(container: string, p: PackageInfo, field: string, v: Value, parseBool: Value -> Option<bool>)
    requires field == "installed" || field == "exporting"
    requires parseBool(v).Some?
    ensures CondOf(field, v, parseBool).Some?
    ensures CondHolds(CondOf(field, v, parseBool).value, ToRow(container, p), Column) <==>
      (if field == "installed" then p.installed else p.exporting) == parseBool(v).value
  {
    assert Column(ToRow(container, p), field) == Some(IntCell(if field == "installed" then (if p.installed then 1 else 0) else (if p.exporting then 1 else 0)));
  }

  lemma CondSource(filters: map<string, Value>, parseBool: Value -> Option<bool>, c: Cond) returns (f: string)
    requires c in FilterConds(filters, parseBool)
    ensures f in filters && CondOf(f, filters[f], parseBool) == Some(c) && c.field == f
  {
    f :| f in filters && CondOf(f, filters[f], parseBool).Some? && CondOf(f, filters[f], parseBool).value == c;
  }

  /** A query built from allowed fields never fails for a missing column. */
  lemma BuiltQueriesRun(rows: seq<Row>, containerName: string, filters: map<string, Value>, parseBool: Value -> Option<bool>, order: Option<Order>, paging: Paging)
    requires forall f :: f in filters ==> IsAllowedField(f, AllowedFilterFields)
    requires order.Some? ==> IsAllowedField(order.value.column, AllowedSortFields)
    ensures Execute(rows, Column, Columns, CondsFor(containerName, filters, parseBool), order, paging).Ok?
  {
    forall c | c in CondsFor(containerName, filters, parseBool) ensures c.field in Columns {
      if c in FilterConds(filters, parseBool) {
        var f := CondSource(filters, parseBool, c);
        AllowedFieldsAreColumns(f);
      }
    }
    if order.Some? {
      AllowedFieldsAreColumns(order.value.column);
    }
  }

  lemma FilterCondsAdd(filters: map<string, Value>, remaining: set<string>, field: string, parseBool: Value -> Option<bool>)
    requires field in filters && field !in remaining
    ensures FilterConds(filters - remaining, parseBool) ==
      FilterConds(filters - (remaining + {field}), parseBool) +
      (if CondOf(field, filters[field], parseBool).Some? then {CondOf(field, filters[field], parseBool).value} else {})
  {
    var now := filters - remaining;
    var before := filters - (remaining + {field});
    assert now.Keys == before.Keys + {field};
    forall f | f in now ensures now[f] == filters[f] { }
    forall f | f in before ensures before[f] == filters[f] { }
  }

  // ---------------------------------------------------------------------
  // Row sets
  // ---------------------------------------------------------------------

  /** The rows of one container, in table order. */
  function RowsOf(rows: seq<Row>, container: string): (r: seq<Row>)
    ensures forall x :: x in r <==> x in rows && x.container == container
  {
    if rows == [] then []
    else
      var rest := RowsOf(rows[1..], container);
      assert rows == [rows[0]] + rows[1..];
      if rows[0].container == container then [rows[0]] + rest else rest
  }

  /** The rows `DELETE ... WHERE container = ?` leaves. */
  function Without(rows: seq<Row>, container: string): (r: seq<Row>)
    ensures forall x :: x in r <==> x in rows && x.container != container
  {
    if rows == [] then []
    else
      var rest := Without(rows[1..], container);
      assert rows == [rows[0]] + rows[1..];
      if rows[0].container != container then [rows[0]] + rest else rest
  }

  lemma {:induction false} RowsOfAppend(a: seq<Row>, b: seq<Row>, c: string)
    ensures RowsOf(a + b, c) == RowsOf(a, c) + RowsOf(b, c)
  {
    if a != [] {
      assert (a + b)[1..] == a[1..] + b;
      RowsOfAppend(a[1..], b, c);
    } else {
      assert a + b == b;
    }
  }

  /** Deleting one container's rows leaves every other container's rows as they were, in order. */
  lemma {:induction false} WithoutKeepsOthers(rows: seq<Row>, c: string, other: string)
    requires other != c
    ensures RowsOf(Without(rows, c), other) == RowsOf(rows, other)
  {
    if rows != [] {
      WithoutKeepsOthers(rows[1..], c, other);
    }
  }

  lemma {:induction false} WithoutEmptiesContainer(rows: seq<Row>, c: string)
    ensures RowsOf(Without(rows, c), c) == []
  {
    if rows != [] {
      WithoutEmptiesContainer(rows[1..], c);
    }
  }

  /** All rows written for a container carry that container. */
  lemma {:induction false} WrittenRowsOf(ps: seq<PackageInfo>, c: string, other: string)
    ensures RowsOf(MapSeq(ps, p => ToRow(c, p)), other) == if other == c then MapSeq(ps, p => ToRow(c, p)) else []
  {
    if ps != [] {
      var f := (p: PackageInfo) => ToRow(c, p);
      assert MapSeq(ps, f) == [f(ps[0])] + MapSeq(ps[1..], f);
      WrittenRowsOf(ps[1..], c, other);
    }
  }

  /**
   * The table after a successful save of `packages` for container `c`:
   * exactly those packages for `c`, every other container untouched.
   */
  lemma SaveScopedToContainer(rows: seq<Row>, c: string, packages: seq<PackageInfo>, other: string)
    ensures var after := Without(rows, c) + MapSeq(packages, p => ToRow(c, p));
      && RowsOf(after, c) == MapSeq(packages, p => ToRow(c, p))
      && (other != c ==> RowsOf(after, other) == RowsOf(rows, other))
  {
    var written := MapSeq(packages, p => ToRow(c, p));
    RowsOfAppend(Without(rows, c), written, c);
    WithoutEmptiesContainer(rows, c);
    WrittenRowsOf(packages, c, c);
    if other != c {
      RowsOfAppend(Without(rows, c), written, other);
      WithoutKeepsOthers(rows, c, other);
      WrittenRowsOf(packages, c, other);
    }
  }

  /** The row after `UPDATE ... SET field = ? WHERE container = ? AND name = ?` when it matches. */
  function SetFlag(r: Row, field: string, value: bool): Row
    requires field == "installed" || field == "exporting"
  {
    if field == "installed" then r.(installed := if value then 1 else 0)
    else r.(exporting := if value then 1 else 0)
  }

  /** A flag update touches only the matching rows, and only that flag. */
  lemma SetFlagMeaning(r: Row, field: string, value: bool)
    requires field == "installed" || field == "exporting"
    ensures var p := FromRow(SetFlag(r, field, value));
      && (if field == "installed" then p.installed == value else p.exporting == value)
      && p == FromRow(r).(installed := p.installed, exporting := p.exporting)
      && (field == "installed" ==> p.exporting == FromRow(r).exporting)
      && (field == "exporting" ==> p.installed == FromRow(r).installed)
  {
  }

  class ContainerTable {
    /** Whether CREATE TABLE has run. */
    var created: bool
    /** The rows of all containers, in insertion order. */
    var rows: seq<Row>

    constructor ()
      ensures !created && rows == []
    {
      created := false;
      rows := [];
    }

    /**
     * Replaces container `containerName`'s rows with `packages`. The
     * container's old rows are deleted BEFORE the transaction starts, so a
     * refused batch or commit leaves that container with no rows; other
     * containers are never touched.
     */
    method SavePackagesToDB(containerName: string, packages: seq<PackageInfo>, fault: SaveFault)
      returns (err: Option<StoreError>)
      modifies this
      ensures containerName == "" ==> err == Some(EmptyContainerName) && rows == old(rows) && created == old(created)
      ensures containerName != "" ==> created == (old(created) || fault != FailCreate)
      ensures err.None? <==> (containerName != "" &&
        (fault == SaveClean || (fault.FailBatch? && fault.batch >= Batches(|packages|))))
      ensures err.None? ==> rows == Without(old(rows), containerName) + MapSeq(packages, p => ToRow(containerName, p))
      ensures fault == FailCreate || fault == FailDelete ==> rows == old(rows)
      ensures err.Some? && containerName != "" && fault != FailCreate && fault != FailDelete ==>
        rows == Without(old(rows), containerName)
    {
      if |containerName| == 0 {
        return Some(EmptyContainerName);
      }
      if fault == FailCreate {
        return Some(CreateTableError);
      }
      created := true;
      if fault == FailDelete {
        return Some(CleanupError);
      }
      rows := Without(rows, containerName);
      if fault == FailBegin {
        return Some(TransactionStartError);
      }
      var failed, staged;
      ghost var inserts;
      failed, staged, inserts := InsertBatches(packages, p => ToRow(containerName, p),
                                               if fault.FailBatch? then Some(fault.batch) else None);
      if failed.Some? {
        return Some(BatchInsertError(failed.value));
      }
      if fault == FailCommit {
        return Some(CommitError);
      }
      rows := rows + staged;
      err := None;
    }

    /** Whether any container has been scanned: an error for a missing table and for an empty one. */
    function DatabaseExist(): (r: Option<StoreError>)
      reads this
      ensures r.None? <==> created && |rows| > 0
      ensures r == Some(DatabaseMissing) <==> !created
    {
      if !created then Some(DatabaseMissing)
      else if |rows| == 0 then Some(DatabaseEmpty)
      else None
    }

    /** Whether container `containerName` has any row. */
    function ContainerDatabaseExist(containerName: string): (r: Option<StoreError>)
      reads this
      ensures r.None? <==> created && exists x :: x in rows && x.container == containerName
      ensures created && r.Some? ==> r == Some(NoRecordsForContainer(containerName))
    {
      if !created then Some(NoSuchTable)
      else if |RowsOf(rows, containerName)| == 0 then Some(NoRecordsForContainer(containerName))
      else
        assert RowsOf(rows, containerName)[0] in rows;
        None
    }

    /**
     * The conditions for a container scope and a filter map, the filters
     * taken in whatever order the map yields them; the first field outside
     * the allow-list stops the build.
     */
    static method BuildConditions(containerName: string, filters: map<string, Value>, parseBool: Value -> Option<bool>)
      returns (r: Result<seq<Cond>, StoreError>)
      ensures r.Ok? <==> forall f :: f in filters ==> IsAllowedField(f, AllowedFilterFields)
      ensures r.Err? ==> (r.error.InvalidFilterField? && r.error.field in filters
        && !IsAllowedField(r.error.field, AllowedFilterFields))
      ensures r.Ok? ==> AsSet(r.value) == CondsFor(containerName, filters, parseBool)
    {
      var conds: seq<Cond> := [];
      if containerName != "" {
        conds := conds + [TextIs("container", containerName)];
      }
      assert AsSet(conds) == ScopeConds(containerName);
      var remaining := filters.Keys;
      assert filters - remaining == map[];
      assert FilterConds(filters - remaining, parseBool) == {};
      while remaining != {}
        invariant remaining <= filters.Keys
        invariant forall f :: f in filters && f !in remaining ==> IsAllowedField(f, AllowedFilterFields)
        invariant AsSet(conds) == ScopeConds(containerName) + FilterConds(filters - remaining, parseBool)
        decreases remaining
      {
        var field :| field in remaining;
        var value := filters[field];
        if !IsAllowedField(field, AllowedFilterFields) {
          return Err(InvalidFilterField(field));
        }
        ghost var wasRemaining := remaining;
        ghost var before := conds;
        remaining := remaining - {field};
        assert remaining + {field} == wasRemaining;
        var added := CondOf(field, value, parseBool);
        ghost var one: set<Cond> := if added.Some? then {added.value} else {};
        if added.Some? {
          AsSetAppend(conds, added.value);
          conds := conds + [added.value];
        }
        assert AsSet(conds) == AsSet(before) + one;
        assert AsSet(conds) == ScopeConds(containerName) + FilterConds(filters - remaining, parseBool) by {
          FilterCondsAdd(filters, remaining, field, parseBool);
          assert FilterConds(filters - remaining, parseBool) == FilterConds(filters - wasRemaining, parseBool) + one;
          UnionStep(AsSet(conds), AsSet(before), ScopeConds(containerName),
                    FilterConds(filters - wasRemaining, parseBool), FilterConds(filters - remaining, parseBool), one);
        }
      }
      assert filters - remaining == filters;
      r := Ok(conds);
    }

    /** The number of rows in scope matching every filter. */
    method CountTotalPackages(containerName: string, filters: map<string, Value>, parseBool: Value -> Option<bool>)
      returns (r: Result<nat, StoreError>)
      ensures (exists f :: f in filters && !IsAllowedField(f, AllowedFilterFields)) ==>
        r.Err? && r.error.InvalidFilterField? && r.error.field in filters
      ensures (forall f :: f in filters ==> IsAllowedField(f, AllowedFilterFields)) ==>
        r == if !created then Err(NoSuchTable) else Ok(|Select(rows, CondsFor(containerName, filters, parseBool), Column)|)
    {
      var built := BuildConditions(containerName, filters, parseBool);
      if built.Err? {
        return Err(built.error);
      }
      if !created {
        return Err(NoSuchTable);
      }
      r := Ok(|Select(rows, AsSet(built.value), Column)|);
    }

    /**
     * Rows in scope matching every filter, ordered by `sortField` when one
     * is given, then paged. A filter field outside the allow-list fails
     * first, then a sort field outside it.
     */
    method QueryPackages(containerName: string, filters: map<string, Value>, parseBool: Value -> Option<bool>,
                         sortField: string, sortOrder: string, limit: int, offset: int)
      returns (r: Result<seq<PackageInfo>, StoreError>)
      ensures (exists f :: f in filters && !IsAllowedField(f, AllowedFilterFields)) ==>
        r.Err? && r.error.InvalidFilterField? && r.error.field in filters
      ensures ((forall f :: f in filters ==> IsAllowedField(f, AllowedFilterFields)) && sortField != ""
        && !IsAllowedField(sortField, AllowedSortFields)) ==> r == Err(InvalidSortField(sortField))
      ensures ((forall f :: f in filters ==> IsAllowedField(f, AllowedFilterFields))
        && (sortField == "" || IsAllowedField(sortField, AllowedSortFields))) ==>
        r == if !created then Err(NoSuchTable) else
          match Execute(rows, Column, Columns, CondsFor(containerName, filters, parseBool),
                        if sortField == "" then None else Some(Order(sortField, DirectionOf(sortOrder))),
                        PagingOf(limit, offset))
          case Err(e) => Err(NoSuchColumn(e))
          case Ok(found) => Ok(FromRows(found))
    {
      var built := BuildConditions(containerName, filters, parseBool);
      if built.Err? {
        return Err(built.error);
      }
      var order: Option<Order> := None;
      if sortField != "" {
        if !IsAllowedField(sortField, AllowedSortFields) {
          return Err(InvalidSortField(sortField));
        }
        order := Some(Order(sortField, DirectionOf(sortOrder)));
      }
      var paging := PagingOf(limit, offset);
      if !created {
        return Err(NoSuchTable);
      }
      BuiltQueriesRun(rows, containerName, filters, parseBool, order, paging);
      var selected := Select(rows, AsSet(built.value), Column);
      var ordered := if order.Some? then SortBy(selected, KeyOf(Column, order.value.column), order.value.dir) else selected;
      r := Ok(FromRows(Page(ordered, paging)));
    }

    /** Rows in scope (all containers for "") whose name contains `partialName` (every row for ""). */
    function FindPackagesByName(containerName: string, partialName: string): (r: Result<seq<PackageInfo>, StoreError>)
      reads this
      ensures r.Err? <==> !created
      ensures r.Ok? ==> forall p :: p in r.value ==>
        (containerName == "" || p.container == containerName) && Like(p.name, partialName)
      ensures r.Ok? ==> forall p :: p in r.value ==>
        exists x :: x in rows && (containerName == "" || x.container == containerName)
          && Like(x.name, partialName) && p == FromRow(x)
      ensures r.Ok? ==> forall x :: (x in rows && (containerName == "" || x.container == containerName)
        && Like(x.name, partialName)) ==> FromRow(x) in r.value
    {
      if !created then Err(NoSuchTable)
      else
        var conds := ScopeConds(containerName) + (if partialName == "" then {} else {Matches("name", partialName)});
        var found := Select(rows, conds, Column);
        forall x | x in rows ensures Admits(conds, x, Column) <==>
          (containerName == "" || x.container == containerName) && Like(x.name, partialName)
        {
          ScopeMeaning(containerName, x);
          EmptyLike(x.name);
          if partialName != "" {
            assert Matches("name", partialName) in conds;
          }
        }
        var ps := FromRows(found);
        forall x | x in found ensures FromRow(x) in ps {
          var k :| 0 <= k < |found| && found[k] == x;
          assert ps[k] == FromRow(x);
        }
        Ok(ps)
    }

    /**
     * Sets one flag of the package `name` in container `containerName`.
     * Only `installed` and `exporting` may be set; anything else, and any
     * database error, is only logged and changes nothing.
     */
    method UpdatePackageField(containerName: string, name: string, fieldName: string, value: bool, dbFails: bool)
      modifies this
      ensures created == old(created)
      ensures |rows| == |old(rows)|
      ensures (fieldName != "installed" && fieldName != "exporting") || !created || dbFails ==> rows == old(rows)
      ensures (fieldName == "installed" || fieldName == "exporting") && created && !dbFails ==>
        rows == SetFlagWhere(old(rows), containerName, name, fieldName, value)
    {
      if fieldName != "installed" && fieldName != "exporting" {
        return;
      }
      if !created || dbFails {
        return;
      }
      rows := SetFlagWhere(rows, containerName, name, fieldName, value);
    }

    /** The first row of container `containerName` named `name`, or an error when there is none. */
    function GetPackageInfoByName(containerName: string, name: string): (r: Result<PackageInfo, StoreError>)
      reads this
      ensures r.Err? <==> !created || forall x :: x in rows ==> !(x.container == containerName && x.name == name)
      ensures r.Ok? ==> (r.value.container == containerName && r.value.name == name
        && exists x :: x in rows && r.value == FromRow(x))
    {
      if !created then Err(NoSuchTable)
      else match FirstMatch(rows, containerName, name)
        case None => Err(PackageNotFound(containerName, name))
        case Some(x) => Ok(FromRow(x))
    }

    /** Removes every row of container `containerName`. */
    method DeletePackagesFromContainer(containerName: string, dbFails: bool) returns (err: Option<StoreError>)
      modifies this
      ensures created == old(created)
      ensures err.None? <==> created && !dbFails
      ensures err.Some? ==> err == Some(DeleteError(containerName)) && rows == old(rows)
      ensures err.None? ==> rows == Without(old(rows), containerName)
    {
      if !created || dbFails {
        return Some(DeleteError(containerName));
      }
      rows := Without(rows, containerName);
      err := None;
    }
  }

  /** The first row of container `c` named `n`: what a single-row query keyed on both returns. */
  function FirstMatch(rows: seq<Row>, c: string, n: string): (r: Option<Row>)
    ensures r.None? <==> forall x :: x in rows ==> !(x.container == c && x.name == n)
    ensures r.Some? ==> r.value in rows && r.value.container == c && r.value.name == n
  {
    if rows == [] then None
    else if rows[0].container == c && rows[0].name == n then Some(rows[0])
    else
      assert forall x :: x in rows <==> x == rows[0] || x in rows[1..];
      FirstMatch(rows[1..], c, n)
  }

  /** The rows after `UPDATE ... SET field = value WHERE container = c AND name = n`. */
  function SetFlagWhere(rows: seq<Row>, c: string, n: string, field: string, value: bool): (r: seq<Row>)
    requires field == "installed" || field == "exporting"
    ensures |r| == |rows|
    ensures forall i :: 0 <= i < |rows| ==>
      r[i] == if rows[i].container == c && rows[i].name == n then SetFlag(rows[i], field, value) else rows[i]
  {
    seq(|rows|, i requires 0 <= i < |rows| =>
      if rows[i].container == c && rows[i].name == n then SetFlag(rows[i], field, value) else rows[i])
  }

  /**
   * A flag update is seen by the next lookup of that package, and by no
   * other: the first matching row is the old one with the flag set, and
   * every other (container, name) pair finds what it found before.
   */
  lemma {:induction false} FlagUpdateSeen(rows: seq<Row>, c: string, n: string, field: string, value: bool, c2: string, n2: string)
    requires field == "installed" || field == "exporting"
    ensures FirstMatch(SetFlagWhere(rows, c, n, field, value), c2, n2) ==
      if c2 == c && n2 == n then
        (match FirstMatch(rows, c, n) case None => None case Some(x) => Some(SetFlag(x, field, value)))
      else FirstMatch(rows, c2, n2)
  {
    if rows != [] {
      var after := SetFlagWhere(rows, c, n, field, value);
      var head := rows[0];
      assert after[1..] == SetFlagWhere(rows[1..], c, n, field, value);
      assert after[0].container == head.container && after[0].name == head.name;
      FlagUpdateSeen(rows[1..], c, n, field, value, c2, n2);
    }
  }

  lemma UnionStep<T>(now: set<T>, before: set<T>, scope: set<T>, walked: set<T>, walkedNow: set<T>, one: set<T>)
    requires now == before + one && before == scope + walked && walkedNow == walked + one
    ensures now == scope + walkedNow
  {
  }

  /** `LIKE '%%'` matches every value. */
  lemma EmptyLike(x: string)
    ensures Like(x, "")
  {
  }
}
