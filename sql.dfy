/**
 * What the two package stores rely on from SQLite: stored cells, the
 * conditions their query builders put into a WHERE clause, ORDER BY on one
 * column, and LIMIT/OFFSET. A table is a sequence of rows; a query selects
 * the rows that meet every condition, orders them and cuts out a page.
 */
module Sql {
  import opened Wrappers
  import opened Text

  /** A filter value as Go passes it in a `map[string]interface{}`. */
  datatype Value = Str(s: string) | Int(n: int) | Bool(b: bool)

  /** A stored SQLite value: the tables hold only TEXT and INTEGER columns. */
  datatype Cell = TextCell(s: string) | IntCell(n: int)

  /** Decimal digits of a natural number. */
  function Digits(n: nat): (r: string)
    ensures |r| >= 1
    ensures forall i :: 0 <= i < |r| ==> '0' <= r[i] <= '9'
  {
    var d := ['0' + (n % 10) as char];
    if n < 10 then d else Digits(n / 10) + d
  }

  /** Decimal text of an integer, as SQLite and Go's `%v` both write it. */
  function Decimal(n: int): string {
    if n < 0 then "-" + Digits(-n) else Digits(n)
  }

  /** Go's `fmt.Sprintf("%v", v)`. */
  function Show(v: Value): string {
    match v
    case Str(s) => s
    case Int(n) => Decimal(n)
    case Bool(b) => if b then "true" else "false"
  }

  /** The cell a bound Go value becomes: a boolean is bound as 1 or 0. */
  function Bound(v: Value): Cell {
    match v
    case Str(s) => TextCell(s)
    case Int(n) => IntCell(n)
    case Bool(b) => IntCell(if b then 1 else 0)
  }

  /** The text of a cell, as LIKE sees it (an INTEGER is read in decimal). */
  function CellText(c: Cell): string {
    match c
    case TextCell(s) => s
    case IntCell(n) => Decimal(n)
  }

  /**
   * `column = ?`. A bound parameter has no affinity, so a TEXT column
   * compares it as text; an INTEGER column compares integers.
   */
  predicate CellEquals(column: Cell, param: Cell) {
    match (column, param)
    case (IntCell(a), IntCell(b)) => a == b
    case (IntCell(a), TextCell(t)) => Decimal(a) == t
    case (TextCell(s), _) => s == CellText(param)
  }

  /**
   * `x LIKE '%v%'`: containment with SQLite's default folding of the ASCII
   * letters. `%` and `_` inside `v` are taken as plain characters.
   */
  predicate Like(x: string, v: string) {
    Contains(Lower(x), Lower(v))
  }

  /** `',' || col || ',' LIKE '%,v,%'`: the whole-token test on a comma-joined column. */
  predicate LikeToken(col: string, v: string) {
    Like([','] + col + [','], [','] + v + [','])
  }

  /** Lower-casing leaves the comma where it is and creates no new one. */
  lemma LowerNoComma(v: string)
    requires ',' !in v
    ensures ',' !in Lower(v)
  {
    forall i | 0 <= i < |v| ensures Lower(v)[i] != ',' {
      assert v[i] != ',';
    }
  }

  lemma LowerWrapped(x: string)
    ensures Lower([','] + x + [',']) == [','] + Lower(x) + [',']
  {
    LowerAppend([','] + x, [',']);
    LowerAppend([','], x);
  }

  /**
   * A comma-joined column matches value `v` exactly when `v` is, up to
   * ASCII case, one whole element of the list; never a part of one.
   */
  lemma TokenMatch(col: string, v: string)
    requires ',' !in v
    ensures LikeToken(col, v) <==> exists e :: e in Split(col, ',') && Lower(e) == Lower(v)
  {
    LowerWrapped(col);
    LowerWrapped(v);
    LowerNoComma(v);
    WrappedContainsIffPiece(Lower(col), Lower(v), ',');
    SplitLower(col, ',');
    var pieces := Split(col, ',');
    if Lower(v) in LowerAll(pieces) {
      var i :| 0 <= i < |pieces| && LowerAll(pieces)[i] == Lower(v);
      assert pieces[i] in pieces;
    }
    if exists e :: e in pieces && Lower(e) == Lower(v) {
      var e :| e in pieces && Lower(e) == Lower(v);
      var i :| 0 <= i < |pieces| && pieces[i] == e;
      assert LowerAll(pieces)[i] == Lower(v);
    }
  }

  /** Both stores' `isAllowedField`: a linear search of an allow-list. */
  function IsAllowedField(field: string, allowed: seq<string>): (r: bool)
    ensures r <==> field in allowed
  {
    if allowed == [] then false
    else if allowed[0] == field then true
    else IsAllowedField(field, allowed[1..])
  }

  /** One conjunct of a WHERE clause, as the query builders emit it. */
  datatype Cond =
    | FlagIs(field: string, on: bool)      // field = ? bound to 1 or 0
    | Matches(field: string, v: string)    // field LIKE '%v%'
    | HasToken(field: string, v: string)   // ',' || field || ',' LIKE '%,v,%'
    | EqualTo(field: string, value: Value) // field = ? for a value that is not a string
    | TextIs(field: string, s: string)     // field = ? for a string

  /** Whether a condition holds of the cell its field holds in one row. */
  predicate HoldsOn(c: Cond, cell: Cell) {
    match c
    case FlagIs(_, on) => CellEquals(cell, IntCell(if on then 1 else 0))
    case Matches(_, v) => Like(CellText(cell), v)
    case HasToken(_, v) => LikeToken(CellText(cell), v)
    case EqualTo(_, v) => CellEquals(cell, Bound(v))
    case TextIs(_, s) => CellEquals(cell, TextCell(s))
  }

  // ---------------------------------------------------------------------
  // ORDER BY
  // ---------------------------------------------------------------------

  datatype Direction = Asc | Desc

  /**
   * The direction the builders append after ORDER BY: DESC when the
   * upper-cased order is "DESC", ASC for every other order.
   */
  function DirectionOf(order: string): (d: Direction)
    ensures d == Desc <==> ToUpper(order) == "DESC"
  {
    if ToUpper(order) == "DESC" then Desc else Asc
  }

  /**
   * The orders that sort descending are exactly the four-letter spellings
   * of "desc" in any case, where the s may also be the long s (U+017F),
   * since Go upper-cases it to S.
   */
  lemma DescSpellings(order: string)
    ensures DirectionOf(order) == Desc <==>
      && |order| == 4
      && (order[0] == 'd' || order[0] == 'D')
      && (order[1] == 'e' || order[1] == 'E')
      && (order[2] == 's' || order[2] == 'S' || order[2] == '\U{017F}')
      && (order[3] == 'c' || order[3] == 'C')
  {
    if |order| == 4 {
      var u := ToUpper(order);
      assert u == [UpperChar(order[0]), UpperChar(order[1]), UpperChar(order[2]), UpperChar(order[3])];
    }
  }

  /** Text order of SQLite's BINARY collation (code point order, as UTF-8 bytes compare). */
  predicate TextLess(a: string, b: string) {
    if a == [] then b != []
    else if b == [] then false
    else if a[0] != b[0] then a[0] < b[0]
    else TextLess(a[1..], b[1..])
  }

  lemma {:induction false} TextLessAsymmetric(a: string, b: string)
    ensures TextLess(a, b) ==> !TextLess(b, a)
  {
    if a != [] && b != [] && a[0] == b[0] {
      TextLessAsymmetric(a[1..], b[1..]);
    }
  }

  /** SQLite's order of values: every INTEGER before every TEXT. */
  predicate CellLess(a: Cell, b: Cell) {
    match (a, b)
    case (IntCell(x), IntCell(y)) => x < y
    case (IntCell(_), TextCell(_)) => true
    case (TextCell(_), IntCell(_)) => false
    case (TextCell(x), TextCell(y)) => TextLess(x, y)
  }

  /** `a` strictly comes before `b` in direction `dir`. */
  predicate Before(a: Cell, b: Cell, dir: Direction) {
    if dir == Asc then CellLess(a, b) else CellLess(b, a)
  }

  lemma BeforeAsymmetric(a: Cell, b: Cell, dir: Direction)
    ensures Before(a, b, dir) ==> !Before(b, a, dir)
  {
    if a.TextCell? && b.TextCell? {
      TextLessAsymmetric(a.s, b.s);
      TextLessAsymmetric(b.s, a.s);
    }
  }

  /** No row is strictly out of order with the one after it. */
  ghost predicate SortedBy<T>(rows: seq<T>, key: T -> Cell, dir: Direction) {
    forall i :: 0 < i < |rows| ==> !Before(key(rows[i]), key(rows[i - 1]), dir)
  }

  /** Puts `x` in front of the first row that does not strictly precede it. */
  function Insert<T>(x: T, rows: seq<T>, key: T -> Cell, dir: Direction): (r: seq<T>)
    requires SortedBy(rows, key, dir)
    ensures multiset(r) == multiset(rows) + multiset{x}
    ensures SortedBy(r, key, dir)
    ensures |r| == |rows| + 1
    ensures r[0] == x || (rows != [] && r[0] == rows[0])
  {
    if rows == [] || !Before(key(rows[0]), key(x), dir) then
      [x] + rows
    else
      var rest := Insert(x, rows[1..], key, dir);
      assert rows == [rows[0]] + rows[1..];
      BeforeAsymmetric(key(rows[0]), key(x), dir);
      [rows[0]] + rest
  }

  /**
   * The ORDER BY of the model's engine: a stable insertion sort. SQLite
   * leaves the order of equal keys open; the model keeps table order.
   */
  function SortBy<T>(rows: seq<T>, key: T -> Cell, dir: Direction): (r: seq<T>)
    ensures multiset(r) == multiset(rows)
    ensures SortedBy(r, key, dir)
  {
    if rows == [] then []
    else
      assert rows == [rows[0]] + rows[1..];
      Insert(rows[0], SortBy(rows[1..], key, dir), key, dir)
  }

  // ---------------------------------------------------------------------
  // LIMIT / OFFSET
  // ---------------------------------------------------------------------

  /** The LIMIT and OFFSET clauses a builder appended, if any. */
  datatype Paging = Paging(limit: Option<int>, offset: Option<int>)

  /** LIMIT only for a positive limit; OFFSET only beside a LIMIT and for a positive offset. */
  function PagingOf(limit: int, offset: int): (p: Paging)
    ensures p.limit.Some? <==> limit > 0
    ensures p.offset.Some? <==> limit > 0 && offset > 0
    ensures p.limit.Some? ==> p.limit.value == limit
    ensures p.offset.Some? ==> p.offset.value == offset
  {
    if limit <= 0 then Paging(None, None)
    else if offset <= 0 then Paging(Some(limit), None)
    else Paging(Some(limit), Some(offset))
  }

  /** The rows a LIMIT/OFFSET lets through: skip `offset`, then keep at most `limit`. */
  function Page<T>(rows: seq<T>, p: Paging): (r: seq<T>)
    ensures p.limit.None? ==> r == rows
    ensures p.limit.Some? && p.limit.value >= 0 ==> |r| <= p.limit.value
  {
    var start := if p.limit.Some? && p.offset.Some? && p.offset.value > 0 then
      (if p.offset.value < |rows| then p.offset.value else |rows|) else 0;
    var rest := rows[start..];
    if p.limit.Some? && 0 <= p.limit.value < |rest| then rest[..p.limit.value] else rest
  }

  /** Without a positive limit, paging keeps every row whatever the offset. */
  lemma NoLimitKeepsAll<T>(rows: seq<T>, limit: int, offset: int)
    requires limit <= 0
    ensures Page(rows, PagingOf(limit, offset)) == rows
  {
  }

  /** With a positive limit, the page is the window `[offset, offset + limit)` (offset 0 when not positive). */
  lemma PageWindow<T>(rows: seq<T>, limit: int, offset: int)
    requires limit > 0
    ensures var start := if offset > 0 then offset else 0;
      Page(rows, PagingOf(limit, offset)) ==
        if start >= |rows| then []
        else if start + limit >= |rows| then rows[start..]
        else rows[start..start + limit]
  {
  }

  // ---------------------------------------------------------------------
  // Running a query over a table
  // ---------------------------------------------------------------------

  /** Whether one condition holds of a row, given how the table reads a row's cell in a named column. */
  predicate CondHolds<R>(c: Cond, r: R, col: (R, string) -> Option<Cell>) {
    match col(r, c.field)
    case None => false
    case Some(cell) => HoldsOn(c, cell)
  }

  /** The conditions of a WHERE clause are ANDed; their order does not matter. */
  predicate Admits<R>(conds: set<Cond>, r: R, col: (R, string) -> Option<Cell>) {
    forall c :: c in conds ==> CondHolds(c, r, col)
  }

  function AsSet(conds: seq<Cond>): set<Cond> {
    set c | c in conds
  }

  lemma AsSetAppend(conds: seq<Cond>, c: Cond)
    ensures AsSet(conds + [c]) == AsSet(conds) + {c}
  {
  }

  /** The column of the first condition that names a column outside `columns`, as SQLite reports it, if any. */
  function MissingColumn(conds: seq<Cond>, columns: set<string>): (m: Option<string>)
    ensures m.None? <==> forall c :: c in conds ==> c.field in columns
    ensures m.Some? ==> m.value !in columns && exists c :: c in conds && c.field == m.value
  {
    if conds == [] then None
    else if conds[0].field !in columns then Some(conds[0].field)
    else
      var m := MissingColumn(conds[1..], columns);
      assert forall c :: c in conds[1..] ==> c in conds;
      m
  }

  /** The rows meeting all conditions, in table order. */
  function Select<R(!new)>(rows: seq<R>, conds: set<Cond>, col: (R, string) -> Option<Cell>): (r: seq<R>)
    ensures forall x :: x in r <==> x in rows && Admits(conds, x, col)
    ensures multiset(r) <= multiset(rows)
  {
    if rows == [] then []
    else
      var rest := Select(rows[1..], conds, col);
      assert rows == [rows[0]] + rows[1..];
      if Admits(conds, rows[0], col) then [rows[0]] + rest else rest
  }

  /** The ORDER BY clause: a column and a direction. */
  datatype Order = Order(column: string, dir: Direction)

  function KeyOf<R>(col: (R, string) -> Option<Cell>, column: string): R -> Cell {
    (r: R) => match col(r, column) case Some(c) => c case None => IntCell(0)
  }

  /**
   * What SQLite returns for a query over a table with the given column
   * names: the name of a column the WHERE clause or ORDER BY mentions but
   * the table lacks, or the selected rows, ordered, then paged.
   */
  ghost function Execute<R(!new)>(rows: seq<R>, col: (R, string) -> Option<Cell>, columns: set<string>,
                            conds: set<Cond>, order: Option<Order>, paging: Paging): Result<seq<R>, string>
  {
    if exists c :: c in conds && c.field !in columns then
      var c :| c in conds && c.field !in columns;
      Err(c.field)
    else if order.Some? && order.value.column !in columns then
      Err(order.value.column)
    else
      var selected := Select(rows, conds, col);
      var ordered := if order.Some? then SortBy(selected, KeyOf(col, order.value.column), order.value.dir) else selected;
      Ok(Page(ordered, paging))
  }

  /**
   * Every row a query returns meets every condition, at most `limit` come
   * back when the limit is positive, and without LIMIT and ORDER BY the
   * answer is the selection itself.
   */
  lemma ExecuteSound<R(!new)>(rows: seq<R>, col: (R, string) -> Option<Cell>, columns: set<string>,
                        conds: set<Cond>, order: Option<Order>, limit: int, offset: int)
    ensures var r := Execute(rows, col, columns, conds, order, PagingOf(limit, offset));
      r.Ok? ==> ((forall x :: x in r.value ==> x in rows && Admits(conds, x, col))
             && (limit > 0 ==> |r.value| <= limit)
             && (limit <= 0 && order.None? ==> r.value == Select(rows, conds, col)))
  {
    var r := Execute(rows, col, columns, conds, order, PagingOf(limit, offset));
    if r.Ok? {
      var selected := Select(rows, conds, col);
      var ordered := if order.Some? then SortBy(selected, KeyOf(col, order.value.column), order.value.dir) else selected;
      assert r.value == Page(ordered, PagingOf(limit, offset));
      forall x | x in r.value ensures x in rows && Admits(conds, x, col) {
        PageInRows(ordered, PagingOf(limit, offset), x);
        assert x in multiset(ordered);
        assert x in multiset(selected);
      }
    }
  }

  lemma PageInRows<T>(rows: seq<T>, p: Paging, x: T)
    requires x in Page(rows, p)
    ensures x in rows
  {
    var start := if p.limit.Some? && p.offset.Some? && p.offset.value > 0 then
      (if p.offset.value < |rows| then p.offset.value else |rows|) else 0;
    var rest := rows[start..];
    assert forall y :: y in rest ==> y in rows;
  }

  /**
   * The filter map a list request builds from its one optional filter: the
   * field with its untrimmed value, only when both are non-blank.
   */
  function OptionalFilter(field: string, value: string): (r: map<string, Value>)
    ensures |r| <= 1
    ensures r != map[] <==> TrimSpace(field) != "" && TrimSpace(value) != ""
    ensures r != map[] ==> field in r && r[field] == Str(value)
  {
    if TrimSpace(field) != "" && TrimSpace(value) != "" then map[field := Str(value)] else map[]
  }
}
