/** A catalog sync: upsert what the source reports, sweep what it does not, and report the difference
    from what was known. */
module Catalog {
  import opened CatalogModel
  import opened Common
  import opened LengthPrefix
  import Relationships

  /** A table as the source reports it now. */
  datatype Table = Table(schema: string, name: string, columns: seq<Column>)

  datatype TableKey = TableKey(schema: string, table: string)

  datatype ColumnKey = ColumnKey(schema: string, table: string, column: string)

  datatype StoredTable = StoredTable(id: nat, removedAt: Option<int>, lastSeen: int)

  /** A stored column is found by its table's row and its own name. */
  datatype ColumnId = ColumnId(tableId: nat, name: string)

  datatype StoredColumn = StoredColumn(
    sourceType: string, canonicalType: string, nullable: bool, removedAt: Option<int>, lastSeen: int)

  /** The rows of one connection. `owners` is whose each table id is. */
  datatype State = State(
    tables: map<TableKey, StoredTable>, columns: map<ColumnId, StoredColumn>, owners: map<nat, TableKey>, next: nat)

  ghost predicate Valid(s: State) {
    && (forall k :: k in s.tables ==> s.tables[k].id in s.owners && s.owners[s.tables[k].id] == k)
    && (forall id :: id in s.owners ==> id < s.next && s.owners[id] in s.tables && s.tables[s.owners[id]].id == id)
    && (forall c :: c in s.columns ==> c.tableId in s.owners)
  }

  /** The time of a sync is after every sync before it. */
  ghost predicate Older(s: State, at: int) {
    && (forall k :: k in s.tables ==> s.tables[k].lastSeen < at)
    && (forall c :: c in s.columns ==> s.columns[c].lastSeen < at)
  }

  function KeyOf(t: Table): TableKey {
    TableKey(t.schema, t.name)
  }

  function OwnerOf(key: ColumnKey): TableKey {
    TableKey(key.schema, key.table)
  }

  function TableAt(s: State, key: TableKey): Option<StoredTable> {
    if key in s.tables then Some(s.tables[key]) else None
  }

  function ColumnAt(s: State, key: ColumnKey): Option<StoredColumn> {
    if OwnerOf(key) in s.tables && ColumnId(s.tables[OwnerOf(key)].id, key.column) in s.columns
    then Some(s.columns[ColumnId(s.tables[OwnerOf(key)].id, key.column)])
    else None
  }

  predicate LiveTable(s: State, key: TableKey) {
    TableAt(s, key).Some? && TableAt(s, key).value.removedAt.None?
  }

  predicate LiveColumn(s: State, key: ColumnKey) {
    ColumnAt(s, key).Some? && ColumnAt(s, key).value.removedAt.None?
  }

  // The store.

  function RecordedTable(s: State, key: TableKey, at: int): State {
    if key in s.tables then s.(tables := s.tables[key := s.tables[key].(removedAt := None, lastSeen := at)])
    else
      s.(tables := s.tables[key := StoredTable(s.next, None, at)],
         owners := s.owners[s.next := key], next := s.next + 1)
  }

  function Seen(c: Column, at: int): StoredColumn {
    StoredColumn(c.sourceType, c.kind, c.nullable, None, at)
  }

  function RecordedColumn(s: State, id: nat, c: Column, at: int): State {
    s.(columns := s.columns[ColumnId(id, c.name) := Seen(c, at)])
  }

  function StaleTables(s: State, at: int): set<TableKey> {
    set k | k in s.tables && s.tables[k].removedAt.None? && s.tables[k].lastSeen < at
  }

  function StaleColumns(s: State, at: int): set<ColumnId> {
    set c | c in s.columns && s.columns[c].removedAt.None? && s.columns[c].lastSeen < at
  }

  function Swept(s: State, at: int): State {
    s.(tables := map k | k in s.tables ::
         if k in StaleTables(s, at) then s.tables[k].(removedAt := Some(at)) else s.tables[k],
       columns := map c | c in s.columns ::
         if c in StaleColumns(s, at) then s.columns[c].(removedAt := Some(at)) else s.columns[c])
  }

  // A sync, as what it does to the store.

  function AfterColumns(s: State, id: nat, columns: seq<Column>, at: int): State {
    if columns == [] then s
    else RecordedColumn(AfterColumns(s, id, columns[..|columns| - 1], at), id, columns[|columns| - 1], at)
  }

  function AfterTable(s: State, t: Table, at: int): State {
    var r := RecordedTable(s, KeyOf(t), at);
    AfterColumns(r, r.tables[KeyOf(t)].id, t.columns, at)
  }

  function AfterTables(s: State, tables: seq<Table>, at: int): State {
    if tables == [] then s else AfterTable(AfterTables(s, tables[..|tables| - 1], at), tables[|tables| - 1], at)
  }

  function Synced(s: State, tables: seq<Table>, at: int): State {
    Swept(AfterTables(s, tables, at), at)
  }

  // What the source reports.

  predicate Reported(tables: seq<Table>, key: TableKey) {
    exists i :: 0 <= i < |tables| && KeyOf(tables[i]) == key
  }

  /** The last of some columns with a name. */
  function Named(columns: seq<Column>, name: string): Option<Column> {
    if columns == [] then None
    else if columns[|columns| - 1].name == name then Some(columns[|columns| - 1])
    else Named(columns[..|columns| - 1], name)
  }

  function ReportedColumn(tables: seq<Table>, key: ColumnKey): Option<Column> {
    if tables == [] then None
    else
      var t := tables[|tables| - 1];
      if KeyOf(t) == OwnerOf(key) && Named(t.columns, key.column).Some? then Named(t.columns, key.column)
      else ReportedColumn(tables[..|tables| - 1], key)
  }

  // What is reported back.

  function TableChange(s: State, key: TableKey): seq<Change> {
    match TableAt(s, key)
    case None => [Change(Added, key.schema, key.table, OfTable, "")]
    case Some(before) =>
      if before.removedAt.Some? then [Change(Added, key.schema, key.table, OfTable, CAME_BACK)] else []
  }

  function Joined(detail: string, more: string): string {
    if detail == "" then more else detail + "; " + more
  }

  /** What moved about a column, or nothing. */
  function Describe(before: StoredColumn, now: Column): string {
    var d0 :=
      if before.sourceType != now.sourceType then "type " + before.sourceType + " became " + now.sourceType else "";
    var d1 :=
      if before.canonicalType != now.kind
      then Joined(d0, "Pivot reads it as " + now.kind + " where it read " + before.canonicalType) else d0;
    if before.nullable != now.nullable then Joined(d1, if now.nullable then "became nullable" else "became NOT NULL")
    else d1
  }

  function ColumnChange(s: State, key: TableKey, c: Column): seq<Change> {
    match ColumnAt(s, ColumnKey(key.schema, key.table, c.name))
    case None => [Change(Added, key.schema, key.table, OfColumn(c.name), "")]
    case Some(before) =>
      if before.removedAt.Some? then [Change(Added, key.schema, key.table, OfColumn(c.name), CAME_BACK)]
      else if Describe(before, c) == "" then []
      else [Change(Changed, key.schema, key.table, OfColumn(c.name), Describe(before, c))]
  }

  function ColumnChanges(s: State, key: TableKey, columns: seq<Column>): seq<Change> {
    if columns == [] then []
    else ColumnChanges(s, key, columns[..|columns| - 1]) + ColumnChange(s, key, columns[|columns| - 1])
  }

  function TableChanges(s: State, t: Table): seq<Change> {
    TableChange(s, KeyOf(t)) + ColumnChanges(s, KeyOf(t), t.columns)
  }

  /** Everything that differs about what the source reports, in the order reported. */
  function SourceChanges(s: State, tables: seq<Table>): seq<Change> {
    if tables == [] then [] else SourceChanges(s, tables[..|tables| - 1]) + TableChanges(s, tables[|tables| - 1])
  }

  function GoneTable(key: TableKey): Change {
    Change(Removed, key.schema, key.table, OfTable, "")
  }

  function GoneColumn(key: ColumnKey): Change {
    Change(Removed, key.schema, key.table, OfColumn(key.column), "")
  }

  /** Describing says something exactly when the source type, the canonical type or nullability moved. */
  lemma DescribesExactlyWhatMoved(before: StoredColumn, now: Column)
    ensures Describe(before, now) == "" <==>
              before.sourceType == now.sourceType && before.canonicalType == now.kind && before.nullable == now.nullable
  {
    if before.sourceType != now.sourceType {
      assert ("type " + before.sourceType + " became " + now.sourceType)[0] == 't';
    }
    if before.canonicalType != now.kind {
      assert ("Pivot reads it as " + now.kind + " where it read " + before.canonicalType)[0] == 'P';
    }
  }

  /** The phrases of what moved, with what it was and what it is, in a fixed order. */
  function Moves(before: StoredColumn, now: Column): seq<string> {
    (if before.sourceType == now.sourceType then [] else ["type " + before.sourceType + " became " + now.sourceType])
    + (if before.canonicalType == now.kind then []
       else ["Pivot reads it as " + now.kind + " where it read " + before.canonicalType])
    + (if before.nullable == now.nullable then [] else [if now.nullable then "became nullable" else "became NOT NULL"])
  }

  function Listed(phrases: seq<string>): string {
    if phrases == [] then "" else if |phrases| == 1 then phrases[0] else phrases[0] + "; " + Listed(phrases[1..])
  }

  /** A description names each thing that moved. */
  lemma DescribesEachMove(before: StoredColumn, now: Column)
    ensures Describe(before, now) == Listed(Moves(before, now))
  {
    var a := "type " + before.sourceType + " became " + now.sourceType;
    var b := "Pivot reads it as " + now.kind + " where it read " + before.canonicalType;
    var c := if now.nullable then "became nullable" else "became NOT NULL";
    assert a[0] == 't' && b[0] == 'P';
    var typeMoved, kindMoved, nullMoved :=
      before.sourceType != now.sourceType, before.canonicalType != now.kind, before.nullable != now.nullable;
    var moves := Moves(before, now);
    if typeMoved && kindMoved && nullMoved {
      assert moves == [a, b, c];
      ListedThree(a, b, c);
    } else if typeMoved && kindMoved {
      assert moves == [a, b];
      ListedTwo(a, b);
    } else if typeMoved && nullMoved {
      assert moves == [a, c];
      ListedTwo(a, c);
    } else if kindMoved && nullMoved {
      assert moves == [b, c];
      ListedTwo(b, c);
    } else {
      assert moves == if typeMoved then [a] else if kindMoved then [b] else if nullMoved then [c] else [];
    }
  }

  lemma ListedTwo(a: string, b: string)
    ensures Listed([a, b]) == a + "; " + b
  {
    assert [a, b][1..] == [b];
  }

  lemma ListedThree(a: string, b: string, c: string)
    ensures Listed([a, b, c]) == a + "; " + b + "; " + c
  {
    assert [a, b, c][1..] == [b, c];
    ListedTwo(b, c);
    assert a + "; " + (b + "; " + c) == a + "; " + b + "; " + c;
  }

  // The store and the sync itself.

  datatype TableRow = TableRow(key: TableKey, row: StoredTable)

  datatype ColumnRow = ColumnRow(id: ColumnId, row: StoredColumn)

  /** The rows of one connection, behind the interface a sync uses. */
  class Store {
    var tables: map<TableKey, StoredTable>
    var columns: map<ColumnId, StoredColumn>
    var owners: map<nat, TableKey>
    var next: nat

    ghost function Rows(): State
      reads this
    {
      State(tables, columns, owners, next)
    }

    constructor ()
      ensures Rows() == State(map[], map[], map[], 0) && Valid(Rows())
    {
      tables, columns, owners, next := map[], map[], map[], 0;
    }

    method Tables() returns (rows: seq<TableRow>)
      ensures forall r :: r in rows <==> r.key in tables && tables[r.key] == r.row
    {
      rows := [];
      var left := tables.Keys;
      while left != {}
        invariant left <= tables.Keys
        invariant forall r :: r in rows <==> r.key in tables && r.key !in left && tables[r.key] == r.row
        decreases left
      {
        var key :| key in left;
        left := left - {key};
        rows := rows + [TableRow(key, tables[key])];
      }
    }

    method Columns() returns (rows: seq<ColumnRow>)
      ensures forall r :: r in rows <==> r.id in columns && columns[r.id] == r.row
    {
      rows := [];
      var left := columns.Keys;
      while left != {}
        invariant left <= columns.Keys
        invariant forall r :: r in rows <==> r.id in columns && r.id !in left && columns[r.id] == r.row
        decreases left
      {
        var id :| id in left;
        left := left - {id};
        rows := rows + [ColumnRow(id, columns[id])];
      }
    }

    method RecordTable(key: TableKey, at: int) returns (id: nat)
      modifies this
      ensures Rows() == RecordedTable(old(Rows()), key, at) && id == tables[key].id
    {
      if key in tables {
        tables := tables[key := tables[key].(removedAt := None, lastSeen := at)];
      } else {
        tables, owners, next := tables[key := StoredTable(next, None, at)], owners[next := key], next + 1;
      }
      id := tables[key].id;
    }

    method RecordColumn(id: nat, c: Column, at: int)
      modifies this
      ensures Rows() == RecordedColumn(old(Rows()), id, c, at)
    {
      columns := columns[ColumnId(id, c.name) := Seen(c, at)];
    }

    method MarkGone(at: int) returns (goneTables: nat, goneColumns: nat)
      modifies this
      ensures Rows() == Swept(old(Rows()), at)
      ensures goneTables == |StaleTables(old(Rows()), at)| && goneColumns == |StaleColumns(old(Rows()), at)|
    {
      var s := State(tables, columns, owners, next);
      goneColumns := |StaleColumns(s, at)|;
      columns := Swept(s, at).columns;
      goneTables := |StaleTables(s, at)|;
      tables := Swept(s, at).tables;
    }
  }

  /** What was known before a sync, indexed by the names the source uses, and what has been seen since. */
  class Snapshot {
    const tables: map<TableKey, StoredTable>
    const columns: map<ColumnKey, StoredColumn>
    var seenTables: set<TableKey>
    var seenColumns: set<ColumnKey>

    ghost predicate Shows(s: State) {
      Valid(s) && tables == s.tables && columns == KnownColumns(s)
    }

    constructor (tableRows: seq<TableRow>, columnRows: seq<ColumnRow>, ghost s: State)
      requires Valid(s)
      requires forall r :: r in tableRows <==> r.key in s.tables && s.tables[r.key] == r.row
      requires forall r :: r in columnRows <==> r.id in s.columns && s.columns[r.id] == r.row
      ensures Shows(s) && seenTables == {} && seenColumns == {}
    {
      var byName, byID := IndexTables(tableRows, s);
      var known := IndexColumns(columnRows, byID, s);
      tables, columns, seenTables, seenColumns := byName, known, {}, {};
    }

    static method IndexTables(rows: seq<TableRow>, ghost s: State)
      returns (tables: map<TableKey, StoredTable>, byID: map<nat, TableKey>)
      requires Valid(s)
      requires forall r :: r in rows <==> r.key in s.tables && s.tables[r.key] == r.row
      ensures tables == s.tables && byID == s.owners
    {
      tables, byID := map[], map[];
      for i := 0 to |rows|
        invariant forall k :: k in tables ==> k in s.tables && tables[k] == s.tables[k]
        invariant forall j :: 0 <= j < i ==> rows[j].key in tables && rows[j].row.id in byID
        invariant forall id :: id in byID ==> id in s.owners && byID[id] == s.owners[id]
      {
        var row := rows[i];
        assert row in rows;
        tables := tables[row.key := row.row];
        byID := byID[row.row.id := row.key];
      }
      forall k | k in s.tables ensures k in tables {
        assert TableRow(k, s.tables[k]) in rows;
      }
      forall id | id in s.owners ensures id in byID {
        assert TableRow(s.owners[id], s.tables[s.owners[id]]) in rows;
      }
    }

    /** A column whose table is not in the same read has no name to be compared under, and is skipped. */
    static method IndexColumns(rows: seq<ColumnRow>, byID: map<nat, TableKey>, ghost s: State)
      returns (columns: map<ColumnKey, StoredColumn>)
      requires Valid(s) && byID == s.owners
      requires forall r :: r in rows <==> r.id in s.columns && s.columns[r.id] == r.row
      ensures columns == KnownColumns(s)
    {
      columns := map[];
      for i := 0 to |rows|
        invariant forall key :: key in columns ==> ColumnAt(s, key) == Some(columns[key])
        invariant forall j :: 0 <= j < i ==> rows[j].id in s.columns && NameOf(s, rows[j].id) in columns
      {
        var row := rows[i];
        assert row in rows;
        if row.id.tableId in byID {
          var owner := byID[row.id.tableId];
          columns := columns[ColumnKey(owner.schema, owner.table, row.id.name) := row.row];
        }
      }
      forall key ensures key in columns <==> key in KnownColumns(s) {
        KnownByName(s, key);
        if key in KnownColumns(s) {
          var id := ColumnId(s.tables[OwnerOf(key)].id, key.column);
          assert ColumnRow(id, s.columns[id]) in rows;
          assert NameOf(s, id) == key;
        }
      }
      forall key | key in columns ensures columns[key] == KnownColumns(s)[key] {
        KnownByName(s, key);
      }
    }

    method SeeTable(key: TableKey) returns (before: Option<StoredTable>)
      modifies this`seenTables
      ensures seenTables == old(seenTables) + {key}
      ensures before == if key in tables then Some(tables[key]) else None
    {
      seenTables := seenTables + {key};
      before := if key in tables then Some(tables[key]) else None;
    }

    method SeeColumn(key: ColumnKey) returns (before: Option<StoredColumn>)
      modifies this`seenColumns
      ensures seenColumns == old(seenColumns) + {key}
      ensures before == if key in columns then Some(columns[key]) else None
    {
      seenColumns := seenColumns + {key};
      before := if key in columns then Some(columns[key]) else None;
    }

    /** What was known and live and was not seen, in order. */
    method ListMissing() returns (gone: seq<Change>)
      ensures Lists(gone, MissingTables(tables, seenTables) + MissingColumns(columns, seenColumns))
    {
      var goneTables := ListMissingTables();
      var goneColumns := ListMissingColumns();
      assert MissingTables(tables, seenTables) !! MissingColumns(columns, seenColumns);
      OrderedSorts(goneTables + goneColumns);
      gone := Ordered(goneTables + goneColumns);
    }

    method ListMissingTables() returns (gone: seq<Change>)
      ensures multiset(gone) == multiset(MissingTables(tables, seenTables))
    {
      gone := [];
      var left := tables.Keys;
      ghost var done: set<Change> := {};
      while left != {}
        invariant left <= tables.Keys
        invariant done ==
                  set k | k in tables && k !in left && tables[k].removedAt.None? && k !in seenTables :: GoneTable(k)
        invariant multiset(gone) == multiset(done)
        decreases left
      {
        var key :| key in left;
        left := left - {key};
        if key !in seenTables && tables[key].removedAt.None? {
          assert GoneTable(key) !in done;
          gone := gone + [GoneTable(key)];
          done := done + {GoneTable(key)};
        }
      }
      assert done == MissingTables(tables, seenTables);
    }

    method ListMissingColumns() returns (gone: seq<Change>)
      ensures multiset(gone) == multiset(MissingColumns(columns, seenColumns))
    {
      gone := [];
      var left := columns.Keys;
      ghost var done: set<Change> := {};
      while left != {}
        invariant left <= columns.Keys
        invariant done ==
                  set c | c in columns && c !in left && columns[c].removedAt.None? && c !in seenColumns :: GoneColumn(c)
        invariant multiset(gone) == multiset(done)
        decreases left
      {
        var key :| key in left;
        left := left - {key};
        if key !in seenColumns && columns[key].removedAt.None? {
          assert GoneColumn(key) !in done;
          gone := gone + [GoneColumn(key)];
          done := done + {GoneColumn(key)};
        }
      }
      assert done == MissingColumns(columns, seenColumns);
    }
  }

  // What recording does, row by row.

  lemma {:induction false} ColumnsRecorded(s: State, id: nat, columns: seq<Column>, at: int)
    ensures var t := AfterColumns(s, id, columns, at);
            && t.tables == s.tables && t.owners == s.owners && t.next == s.next
            && (forall c :: c in t.columns <==> c in s.columns || (c.tableId == id && Named(columns, c.name).Some?))
            && (forall c :: c in t.columns ==>
                  (t.columns[c] ==
                   if c.tableId == id && Named(columns, c.name).Some? then Seen(Named(columns, c.name).value, at)
                   else s.columns[c]))
  {
    if columns != [] {
      ColumnsRecorded(s, id, columns[..|columns| - 1], at);
    }
  }

  /** Recording one table keeps ids, and gives it and the columns it was reported with a fresh stamp. */
  lemma TableRecorded(s: State, t: Table, at: int)
    requires Valid(s)
    ensures var u := AfterTable(s, t, at);
            && Valid(u)
            && (forall k :: k in s.tables && k != KeyOf(t) ==> k in u.tables && u.tables[k] == s.tables[k])
            && (forall k :: k in u.tables ==> k in s.tables || k == KeyOf(t))
            && KeyOf(t) in u.tables && u.tables[KeyOf(t)].removedAt.None? && u.tables[KeyOf(t)].lastSeen == at
            && (KeyOf(t) in s.tables ==> u.tables[KeyOf(t)].id == s.tables[KeyOf(t)].id)
  {
    var r := RecordedTable(s, KeyOf(t), at);
    RecordingTableIsValid(s, KeyOf(t), at);
    ColumnsRecorded(r, r.tables[KeyOf(t)].id, t.columns, at);
    hide AfterColumns, Named, Seen, RecordedTable;
    assert r.tables[KeyOf(t)].id in r.owners;
  }

  lemma RecordingTableIsValid(s: State, key: TableKey, at: int)
    requires Valid(s)
    ensures var r := RecordedTable(s, key, at);
            && Valid(r) && r.columns == s.columns
            && (forall k :: k in s.tables && k != key ==> k in r.tables && r.tables[k] == s.tables[k])
            && (forall k :: k in r.tables ==> k in s.tables || k == key)
            && key in r.tables && r.tables[key].removedAt.None? && r.tables[key].lastSeen == at
            && (key in s.tables ==> r.tables[key].id == s.tables[key].id)
  {
  }

  lemma TableRecordedColumns(s: State, t: Table, at: int, key: ColumnKey)
    requires Valid(s)
    ensures ColumnAt(AfterTable(s, t, at), key) ==
            if KeyOf(t) == OwnerOf(key) && Named(t.columns, key.column).Some?
            then Some(Seen(Named(t.columns, key.column).value, at)) else ColumnAt(s, key)
  {
    var r := RecordedTable(s, KeyOf(t), at);
    RecordingTableKeepsColumns(s, KeyOf(t), at, key);
    ColumnsRecorded(r, r.tables[KeyOf(t)].id, t.columns, at);
    hide Valid, RecordedTable, AfterColumns, Named;
  }

  lemma RecordingTableKeepsColumns(s: State, table: TableKey, at: int, key: ColumnKey)
    requires Valid(s)
    ensures var r := RecordedTable(s, table, at);
            && ColumnAt(r, key) == ColumnAt(s, key)
            && (OwnerOf(key) in r.tables && OwnerOf(key) != table ==>
                  r.tables[OwnerOf(key)].id != r.tables[table].id)
  {
  }

  /** Recording stamps exactly the tables reported, keeps the rest, and never loses a row. */
  lemma {:induction false} TablesRecorded(s: State, tables: seq<Table>, at: int, key: TableKey)
    requires Valid(s)
    ensures var u := AfterTables(s, tables, at);
            && Valid(u)
            && (Reported(tables, key) ==>
                  key in u.tables && u.tables[key].removedAt.None? && u.tables[key].lastSeen == at)
            && (!Reported(tables, key) ==> TableAt(u, key) == TableAt(s, key))
            && (key in s.tables ==> key in u.tables && u.tables[key].id == s.tables[key].id)
  {
    if tables != [] {
      var init, last := tables[..|tables| - 1], tables[|tables| - 1];
      hide Valid, AfterTable, Reported;
      TablesRecorded(s, init, at, key);
      TableRecorded(AfterTables(s, init, at), last, at);
      ReportedGrows(tables, key);
    }
  }

  /** The same of columns: what is kept is the last report of each. */
  lemma {:induction false} ColumnsOfTablesRecorded(s: State, tables: seq<Table>, at: int, key: ColumnKey)
    requires Valid(s)
    ensures ColumnAt(AfterTables(s, tables, at), key) ==
            if ReportedColumn(tables, key).Some? then Some(Seen(ReportedColumn(tables, key).value, at))
            else ColumnAt(s, key)
  {
    if tables != [] {
      var init, last := tables[..|tables| - 1], tables[|tables| - 1];
      ColumnsOfTablesRecorded(s, init, at, key);
      TablesRecorded(s, init, at, OwnerOf(key));
      TableRecordedColumns(AfterTables(s, init, at), last, at, key);
    }
  }

  lemma SweptColumns(s: State, at: int, key: ColumnKey)
    ensures ColumnAt(Swept(s, at), key) ==
            match ColumnAt(s, key)
            case None => None
            case Some(c) => Some(if c.removedAt.None? && c.lastSeen < at then c.(removedAt := Some(at)) else c)
  {
  }

  /** A sync forgets no row. A table keeps its id, gone and come back or not; and what is not reported keeps what was
      known of it, marked with the time of the sync if it had been live. */
  lemma RowsStay(s: State, tables: seq<Table>, at: int)
    requires Valid(s) && Older(s, at)
    ensures var t := Synced(s, tables, at);
            && (forall key :: key in s.tables ==> key in t.tables && t.tables[key].id == s.tables[key].id)
            && (forall key :: key in s.tables && !Reported(tables, key) ==>
                  t.tables[key] ==
                  if s.tables[key].removedAt.None? then s.tables[key].(removedAt := Some(at)) else s.tables[key])
            && (forall key :: ColumnAt(s, key).Some? && ReportedColumn(tables, key).None? ==>
                  var c := ColumnAt(s, key).value;
                  ColumnAt(t, key) == Some(if c.removedAt.None? then c.(removedAt := Some(at)) else c))
  {
    var u := AfterTables(s, tables, at);
    forall key | key in s.tables
      ensures key in u.tables && u.tables[key].id == s.tables[key].id
      ensures !Reported(tables, key) ==> u.tables[key] == s.tables[key]
    {
      TablesRecorded(s, tables, at, key);
      assert TableAt(s, key) == Some(s.tables[key]);
    }
    forall key | ColumnAt(s, key).Some? && ReportedColumn(tables, key).None?
      ensures var c := ColumnAt(s, key).value;
              ColumnAt(Synced(s, tables, at), key) == Some(if c.removedAt.None? then c.(removedAt := Some(at)) else c)
    {
      ColumnsOfTablesRecorded(s, tables, at, key);
      SweptColumns(u, at, key);
      assert ColumnAt(s, key).value.lastSeen < at;
    }
    hide AfterTables, Valid, ColumnAt, ReportedColumn;
  }

  /** After a sync the live tables and columns are exactly those the source reported, and each live column
      has the shape it was last reported with. */
  lemma LiveIsWhatTheSourceReports(s: State, tables: seq<Table>, at: int)
    requires Valid(s) && Older(s, at)
    ensures Valid(Synced(s, tables, at))
    ensures forall key :: LiveTable(Synced(s, tables, at), key) <==> Reported(tables, key)
    ensures forall key :: LiveColumn(Synced(s, tables, at), key) <==> ReportedColumn(tables, key).Some?
    ensures forall key :: ReportedColumn(tables, key).Some? ==>
              ColumnAt(Synced(s, tables, at), key) == Some(Seen(ReportedColumn(tables, key).value, at))
  {
    var u := AfterTables(s, tables, at);
    TablesRecorded(s, tables, at, TableKey("", ""));
    forall key ensures LiveTable(Swept(u, at), key) <==> Reported(tables, key) {
      TablesRecorded(s, tables, at, key);
    }
    forall key
      ensures LiveColumn(Swept(u, at), key) <==> ReportedColumn(tables, key).Some?
      ensures ReportedColumn(tables, key).Some? ==>
                ColumnAt(Swept(u, at), key) == Some(Seen(ReportedColumn(tables, key).value, at))
    {
      ColumnsOfTablesRecorded(s, tables, at, key);
      SweptColumns(u, at, key);
    }
  }

  // What was known, by name.

  /** The name a stored column has in the source. */
  function NameOf(s: State, c: ColumnId): ColumnKey
    requires c.tableId in s.owners
  {
    ColumnKey(s.owners[c.tableId].schema, s.owners[c.tableId].table, c.name)
  }

  lemma NamesAreUnique(s: State, c: ColumnId, d: ColumnId)
    requires Valid(s) && c in s.columns && d in s.columns && NameOf(s, c) == NameOf(s, d)
    ensures c == d
  {
    assert s.tables[s.owners[c.tableId]].id == c.tableId;
  }

  /** Every stored column under the name it has in the source. */
  ghost function KnownColumns(s: State): map<ColumnKey, StoredColumn>
    requires Valid(s)
  {
    map key | key in (set c | c in s.columns :: NameOf(s, c)) :: ColumnAt(s, key).value
  }

  lemma KnownByName(s: State, key: ColumnKey)
    requires Valid(s)
    ensures key in KnownColumns(s) <==> ColumnAt(s, key).Some?
    ensures key in KnownColumns(s) ==> KnownColumns(s)[key] == ColumnAt(s, key).value
  {
    if ColumnAt(s, key).Some? {
      assert NameOf(s, ColumnId(s.tables[OwnerOf(key)].id, key.column)) == key;
    }
  }

  function MissingTables(tables: map<TableKey, StoredTable>, seen: set<TableKey>): set<Change> {
    set k | k in tables && tables[k].removedAt.None? && k !in seen :: GoneTable(k)
  }

  function MissingColumns(columns: map<ColumnKey, StoredColumn>, seen: set<ColumnKey>): set<Change> {
    set c | c in columns && columns[c].removedAt.None? && c !in seen :: GoneColumn(c)
  }

  function ReportedTables(tables: seq<Table>): set<TableKey> {
    set t | t in tables :: KeyOf(t)
  }

  function NamesIn(key: TableKey, columns: seq<Column>): set<ColumnKey> {
    set c | c in columns :: ColumnKey(key.schema, key.table, c.name)
  }

  function ReportedColumns(tables: seq<Table>): set<ColumnKey> {
    if tables == [] then {}
    else ReportedColumns(tables[..|tables| - 1]) + NamesIn(KeyOf(tables[|tables| - 1]), tables[|tables| - 1].columns)
  }

  /** Every removal a sync has to report. */
  ghost function GoneChanges(s: State, tables: seq<Table>): set<Change>
    requires Valid(s)
  {
    MissingTables(s.tables, ReportedTables(tables)) + MissingColumns(KnownColumns(s), ReportedColumns(tables))
  }

  lemma {:induction false} NamedIsThere(columns: seq<Column>, name: string)
    ensures Named(columns, name).Some? <==> exists c :: c in columns && c.name == name
    ensures Named(columns, name).Some? ==>
              Named(columns, name).value in columns && Named(columns, name).value.name == name
  {
    if columns != [] {
      NamedIsThere(columns[..|columns| - 1], name);
      assert columns == columns[..|columns| - 1] + [columns[|columns| - 1]];
    }
  }

  lemma {:induction false} ReportedByName(tables: seq<Table>, key: ColumnKey)
    ensures key in ReportedColumns(tables) <==> ReportedColumn(tables, key).Some?
  {
    if tables != [] {
      ReportedByName(tables[..|tables| - 1], key);
      var t := tables[|tables| - 1];
      NamedIsThere(t.columns, key.column);
      assert key in NamesIn(KeyOf(t), t.columns) <==>
             KeyOf(t) == OwnerOf(key) && Named(t.columns, key.column).Some? by {
        if key in NamesIn(KeyOf(t), t.columns) {
          var c :| c in t.columns && ColumnKey(t.schema, t.name, c.name) == key;
        }
      }
    }
  }

  /** A removal to report: the object was live and the source no longer has it. */
  ghost predicate DueRemoval(s: State, tables: seq<Table>, change: Change) {
    && change.kind == Removed && change.detail == ""
    && match change.place
       case OfTable =>
         LiveTable(s, TableKey(change.schema, change.table)) && !Reported(tables, TableKey(change.schema, change.table))
       case OfColumn(column) =>
         && LiveColumn(s, ColumnKey(change.schema, change.table, column))
         && ReportedColumn(tables, ColumnKey(change.schema, change.table, column)).None?
       case _ => false
  }

  lemma GoneMeans(s: State, tables: seq<Table>, change: Change)
    requires Valid(s)
    ensures change in GoneChanges(s, tables) <==> DueRemoval(s, tables, change)
  {
    match change.place {
      case OfTable =>
        var key := TableKey(change.schema, change.table);
        assert key in ReportedTables(tables) <==> Reported(tables, key);
        assert change.kind == Removed && change.detail == "" ==> GoneTable(key) == change;
      case OfColumn(column) =>
        var key := ColumnKey(change.schema, change.table, column);
        KnownByName(s, key);
        ReportedByName(tables, key);
        assert change.kind == Removed && change.detail == "" ==> GoneColumn(key) == change;
      case _ =>
    }
  }

  // The two counts.

  lemma StaleTablesAreTheUnreported(s: State, tables: seq<Table>, at: int)
    requires Valid(s) && Older(s, at)
    ensures StaleTables(AfterTables(s, tables, at), at) ==
            set k | k in s.tables && s.tables[k].removedAt.None? && k !in ReportedTables(tables)
  {
    forall key
      ensures key in StaleTables(AfterTables(s, tables, at), at) <==>
                key in s.tables && s.tables[key].removedAt.None? && key !in ReportedTables(tables)
    {
      TablesRecorded(s, tables, at, key);
      assert key in ReportedTables(tables) <==> Reported(tables, key);
    }
  }

  lemma StaleColumnIsUnreported(s: State, tables: seq<Table>, at: int, c: ColumnId)
    requires Valid(s) && Older(s, at)
    ensures var u := AfterTables(s, tables, at);
            Valid(u) && (c in StaleColumns(u, at) ==>
                           var key := NameOf(u, c);
                           && key in KnownColumns(s) && KnownColumns(s)[key].removedAt.None?
                           && key !in ReportedColumns(tables))
  {
    var u := AfterTables(s, tables, at);
    TablesRecorded(s, tables, at, TableKey("", ""));
    if c in StaleColumns(u, at) {
      var key := NameOf(u, c);
      assert ColumnAt(u, key) == Some(u.columns[c]);
      ColumnsOfTablesRecorded(s, tables, at, key);
      KnownByName(s, key);
      ReportedByName(tables, key);
    }
  }

  lemma UnreportedColumnIsStale(s: State, tables: seq<Table>, at: int, key: ColumnKey)
    requires Valid(s) && Older(s, at)
    requires key in KnownColumns(s) && KnownColumns(s)[key].removedAt.None? && key !in ReportedColumns(tables)
    ensures var u := AfterTables(s, tables, at);
            && OwnerOf(key) in u.tables
            && var c := ColumnId(u.tables[OwnerOf(key)].id, key.column);
               Valid(u) && c in StaleColumns(u, at) && NameOf(u, c) == key
  {
    var u := AfterTables(s, tables, at);
    TablesRecorded(s, tables, at, OwnerOf(key));
    KnownByName(s, key);
    ReportedByName(tables, key);
    ColumnsOfTablesRecorded(s, tables, at, key);
    assert ColumnAt(s, key).value in s.columns.Values;
    var was := ColumnId(s.tables[OwnerOf(key)].id, key.column);
    assert s.columns[was].lastSeen < at;
  }

  function NamesOfTables(keys: set<TableKey>): map<TableKey, Change> {
    map k | k in keys :: GoneTable(k)
  }

  function NamesOfColumns(u: State, ids: set<ColumnId>): map<ColumnId, Change>
    requires forall c :: c in ids ==> c.tableId in u.owners
  {
    map c | c in ids :: GoneColumn(NameOf(u, c))
  }

  lemma TableNamesCount(keys: set<TableKey>)
    ensures |set k | k in keys :: GoneTable(k)| == |keys|
  {
    var names := NamesOfTables(keys);
    NamesCount(names);
    assert names.Keys == keys;
    assert names.Values == set k | k in keys :: GoneTable(k);
  }

  lemma MissingTablesCount(s: State, tables: seq<Table>, at: int)
    requires Valid(s) && Older(s, at)
    ensures |MissingTables(s.tables, ReportedTables(tables))| == |StaleTables(AfterTables(s, tables, at), at)|
  {
    var stale := StaleTables(AfterTables(s, tables, at), at);
    StaleTablesAreTheUnreported(s, tables, at);
    TableNamesCount(stale);
    assert MissingTables(s.tables, ReportedTables(tables)) == set k | k in stale :: GoneTable(k);
  }

  lemma MissingColumnsAreTheStale(s: State, tables: seq<Table>, at: int)
    requires Valid(s) && Older(s, at)
    ensures var u := AfterTables(s, tables, at);
            && Valid(u)
            && NamesOfColumns(u, StaleColumns(u, at)).Values == MissingColumns(KnownColumns(s), ReportedColumns(tables))
  {
    var u := AfterTables(s, tables, at);
    TablesRecorded(s, tables, at, TableKey("", ""));
    var names := NamesOfColumns(u, StaleColumns(u, at));
    var gone := MissingColumns(KnownColumns(s), ReportedColumns(tables));
    forall change | change in names.Values ensures change in gone {
      var c :| c in names && names[c] == change;
      StaleColumnIsUnreported(s, tables, at, c);
    }
    forall change | change in gone ensures change in names.Values {
      var key :| key in KnownColumns(s) && KnownColumns(s)[key].removedAt.None? && key !in ReportedColumns(tables)
                 && GoneColumn(key) == change;
      UnreportedColumnIsStale(s, tables, at, key);
      var c := ColumnId(u.tables[OwnerOf(key)].id, key.column);
      assert c in names && names[c] == change;
    }
  }

  lemma MissingColumnsCount(s: State, tables: seq<Table>, at: int)
    requires Valid(s) && Older(s, at)
    ensures |MissingColumns(KnownColumns(s), ReportedColumns(tables))| == |StaleColumns(AfterTables(s, tables, at), at)|
  {
    var u := AfterTables(s, tables, at);
    MissingColumnsAreTheStale(s, tables, at);
    var names := NamesOfColumns(u, StaleColumns(u, at));
    forall c, d | c in names && d in names && names[c] == names[d] ensures c == d {
      NamesAreUnique(u, c, d);
    }
    NamesCount(names);
    assert names.Keys == StaleColumns(u, at);
  }

  /** With nobody else syncing, the sweep marks as many rows as are named: the disagreement a sync checks
      for never shows. */
  lemma SweepAndSnapshotAgree(s: State, tables: seq<Table>, at: int)
    requires Valid(s) && Older(s, at)
    ensures var u := AfterTables(s, tables, at);
            |GoneChanges(s, tables)| == |StaleTables(u, at)| + |StaleColumns(u, at)|
  {
    MissingTablesCount(s, tables, at);
    MissingColumnsCount(s, tables, at);
    assert MissingTables(s.tables, ReportedTables(tables)) !! MissingColumns(KnownColumns(s), ReportedColumns(tables));
  }

  // What the report says.

  ghost predicate DistinctTables(tables: seq<Table>) {
    forall i, j :: 0 <= i < j < |tables| ==> KeyOf(tables[i]) != KeyOf(tables[j])
  }

  /** What a source can hold: no two tables of one name, and no two columns of one name in a table. */
  ghost predicate Distinct(tables: seq<Table>) {
    && DistinctTables(tables)
    && (forall i :: 0 <= i < |tables| ==> DistinctNames(tables[i].columns))
  }

  ghost predicate DistinctNames(columns: seq<Column>) {
    forall i, j :: 0 <= i < j < |columns| ==> columns[i].name != columns[j].name
  }

  lemma {:induction false} ChangesAboutColumns(s: State, key: TableKey, columns: seq<Column>, change: Change)
    requires DistinctNames(columns)
    ensures change in ColumnChanges(s, key, columns) <==>
              && change.place.OfColumn? && change.schema == key.schema && change.table == key.table
              && Named(columns, change.place.column).Some?
              && change in ColumnChange(s, key, Named(columns, change.place.column).value)
  {
    if columns != [] {
      var init, last := columns[..|columns| - 1], columns[|columns| - 1];
      ChangesAboutColumns(s, key, init, change);
      NamedIsThere(init, last.name);
      if change.place.OfColumn? {
        NamedIsThere(columns, change.place.column);
      }
    }
  }

  lemma {:induction false} ChangesAboutTables(s: State, tables: seq<Table>, change: Change)
    requires Distinct(tables) && change.place.OfTable?
    ensures change in SourceChanges(s, tables) <==>
              && Reported(tables, TableKey(change.schema, change.table))
              && change in TableChange(s, TableKey(change.schema, change.table))
  {
    if tables != [] {
      var init, last := tables[..|tables| - 1], tables[|tables| - 1];
      var key := TableKey(change.schema, change.table);
      ChangesAboutTables(s, init, change);
      ChangesAboutColumns(s, KeyOf(last), last.columns, change);
      ReportedGrows(tables, key);
    }
  }

  lemma ReportedGrows(tables: seq<Table>, key: TableKey)
    requires tables != []
    ensures Reported(tables, key) <==> Reported(tables[..|tables| - 1], key) || KeyOf(tables[|tables| - 1]) == key
  {
    var init := tables[..|tables| - 1];
    if Reported(init, key) {
      var i :| 0 <= i < |init| && KeyOf(init[i]) == key;
      assert KeyOf(tables[i]) == key;
    }
    assert KeyOf(tables[|tables| - 1]) == key ==> Reported(tables, key);
  }

  /** A column is only reported with its table. */
  lemma {:induction false} ColumnNeedsTable(tables: seq<Table>, key: ColumnKey)
    ensures ReportedColumn(tables, key).Some? ==> Reported(tables, OwnerOf(key))
  {
    if tables != [] {
      ColumnNeedsTable(tables[..|tables| - 1], key);
      ReportedGrows(tables, OwnerOf(key));
    }
  }

  lemma {:induction false} ChangesAboutColumnsOfTables(s: State, tables: seq<Table>, change: Change)
    requires Distinct(tables) && change.place.OfColumn?
    ensures var key := ColumnKey(change.schema, change.table, change.place.column);
            change in SourceChanges(s, tables) <==>
              ReportedColumn(tables, key).Some?
              && change in ColumnChange(s, OwnerOf(key), ReportedColumn(tables, key).value)
  {
    if tables != [] {
      var init, last := tables[..|tables| - 1], tables[|tables| - 1];
      var key := ColumnKey(change.schema, change.table, change.place.column);
      ChangesAboutColumnsOfTables(s, init, change);
      ChangesAboutColumns(s, KeyOf(last), last.columns, change);
      ColumnNeedsTable(init, key);
    }
  }

  /** Some change of this kind is reported there. */
  ghost predicate Says(changes: seq<Change>, kind: Kind, schema: string, table: string, place: Place) {
    exists detail: string :: Change(kind, schema, table, place, detail) in changes
  }

  /** A report of tables and columns: what differs about the reported ones, and what is gone. */
  ghost predicate TellsOf(changes: seq<Change>, s: State, tables: seq<Table>)
    requires Valid(s)
  {
    forall c :: c in changes && (c.place.OfTable? || c.place.OfColumn?) <==>
      c in SourceChanges(s, tables) || c in GoneChanges(s, tables)
  }

  /** A column's shape moved: its source type, its canonical type or its nullability. */
  predicate ShapeMoved(before: StoredColumn, now: Column) {
    before.sourceType != now.sourceType || before.canonicalType != now.kind || before.nullable != now.nullable
  }

  lemma TableSaid(s: State, tables: seq<Table>, changes: seq<Change>, change: Change)
    requires Valid(s) && Distinct(tables) && TellsOf(changes, s, tables) && change.place == OfTable
    ensures var key := TableKey(change.schema, change.table);
            change in changes <==>
              || (Reported(tables, key) && change in TableChange(s, key))
              || (change == GoneTable(key) && LiveTable(s, key) && !Reported(tables, key))
  {
    ChangesAboutTables(s, tables, change);
    GoneMeans(s, tables, change);
    assert change in changes <==> change in SourceChanges(s, tables) || change in GoneChanges(s, tables);
  }

  /** Of tables, a report says exactly which were not live and are reported, and which were live and are
      not; nothing else about them moves. */
  lemma TablesSaidExactly(s: State, tables: seq<Table>, changes: seq<Change>, key: TableKey)
    requires Valid(s) && Distinct(tables) && TellsOf(changes, s, tables)
    ensures Says(changes, Added, key.schema, key.table, OfTable) <==> Reported(tables, key) && !LiveTable(s, key)
    ensures Says(changes, Removed, key.schema, key.table, OfTable) <==> LiveTable(s, key) && !Reported(tables, key)
    ensures !Says(changes, Changed, key.schema, key.table, OfTable)
  {
    forall kind | Says(changes, kind, key.schema, key.table, OfTable)
      ensures kind == (if Reported(tables, key) then Added else Removed) && Reported(tables, key) == !LiveTable(s, key)
    {
      var detail :| Change(kind, key.schema, key.table, OfTable, detail) in changes;
      TableSaid(s, tables, changes, Change(kind, key.schema, key.table, OfTable, detail));
    }
    TableSaid(s, tables, changes, GoneTable(key));
    if Reported(tables, key) && !LiveTable(s, key) {
      TableSaid(s, tables, changes, TableChange(s, key)[0]);
    }
  }

  lemma ColumnSaid(s: State, tables: seq<Table>, changes: seq<Change>, change: Change)
    requires Valid(s) && Distinct(tables) && TellsOf(changes, s, tables) && change.place.OfColumn?
    ensures var key := ColumnKey(change.schema, change.table, change.place.column);
            change in changes <==>
              || (ReportedColumn(tables, key).Some?
                  && change in ColumnChange(s, OwnerOf(key), ReportedColumn(tables, key).value))
              || (change == GoneColumn(key) && LiveColumn(s, key) && ReportedColumn(tables, key).None?)
  {
    ChangesAboutColumnsOfTables(s, tables, change);
    GoneMeans(s, tables, change);
    assert change in changes <==> change in SourceChanges(s, tables) || change in GoneChanges(s, tables);
  }

  /** What is said of a reported column, if anything. */
  lemma ColumnChangeMeans(s: State, key: ColumnKey, now: Column)
    requires now.name == key.column
    ensures var said := ColumnChange(s, OwnerOf(key), now);
            && |said| <= 1
            && (said != [] ==>
                  said[0] == Change(said[0].kind, key.schema, key.table, OfColumn(key.column), said[0].detail))
            && (said != [] ==> said[0].kind == if LiveColumn(s, key) then Changed else Added)
            && (said != [] <==> LiveColumn(s, key) ==> ShapeMoved(ColumnAt(s, key).value, now))
  {
    assert ColumnKey(OwnerOf(key).schema, OwnerOf(key).table, now.name) == key;
    if LiveColumn(s, key) {
      DescribesExactlyWhatMoved(ColumnAt(s, key).value, now);
    }
  }

  /** The kind of change a report has to say of a column, if any. */
  ghost function Due(s: State, tables: seq<Table>, key: ColumnKey): Option<Kind> {
    match ReportedColumn(tables, key)
    case None => if LiveColumn(s, key) then Some(Removed) else None
    case Some(now) =>
      if !LiveColumn(s, key) then Some(Added)
      else if ShapeMoved(ColumnAt(s, key).value, now) then Some(Changed)
      else None
  }

  /** Of columns, a report says exactly which were not live and are reported, which were live and are
      not, and which are both and had their source type, canonical type or nullability moved. */
  lemma ColumnsSaidExactly(s: State, tables: seq<Table>, changes: seq<Change>, kind: Kind, key: ColumnKey)
    requires Valid(s) && Distinct(tables) && TellsOf(changes, s, tables)
    ensures Says(changes, kind, key.schema, key.table, OfColumn(key.column)) <==> Due(s, tables, key) == Some(kind)
  {
    ReportedHasName(tables, key);
    if ReportedColumn(tables, key).Some? {
      ColumnChangeMeans(s, key, ReportedColumn(tables, key).value);
    }
    if Says(changes, kind, key.schema, key.table, OfColumn(key.column)) {
      var detail :| Change(kind, key.schema, key.table, OfColumn(key.column), detail) in changes;
      ColumnSaid(s, tables, changes, Change(kind, key.schema, key.table, OfColumn(key.column), detail));
    }
    if Due(s, tables, key) == Some(kind) {
      var change :=
        if kind == Removed then GoneColumn(key)
        else ColumnChange(s, OwnerOf(key), ReportedColumn(tables, key).value)[0];
      ColumnSaid(s, tables, changes, change);
      assert change == Change(kind, key.schema, key.table, OfColumn(key.column), change.detail);
    }
  }

  /** No two of the changes are about the same thing. */
  ghost predicate Once(changes: seq<Change>) {
    forall i, j :: 0 <= i < j < |changes| ==>
      changes[i].schema != changes[j].schema || changes[i].table != changes[j].table
      || changes[i].place != changes[j].place
  }

  lemma OnceTogether(a: seq<Change>, b: seq<Change>)
    requires Once(a) && Once(b)
    requires forall x, y :: x in a && y in b ==> x.schema != y.schema || x.table != y.table || x.place != y.place
    ensures Once(a + b)
  {
    assert forall i :: 0 <= i < |a| ==> a[i] in a;
    assert forall i :: 0 <= i < |b| ==> b[i] in b;
  }

  lemma {:induction false} ColumnsSaidOnce(s: State, key: TableKey, columns: seq<Column>)
    requires DistinctNames(columns)
    ensures Once(ColumnChanges(s, key, columns))
    ensures forall c :: c in ColumnChanges(s, key, columns) ==>
              c.schema == key.schema && c.table == key.table && c.place.OfColumn?
              && exists k :: 0 <= k < |columns| && columns[k].name == c.place.column
  {
    if columns != [] {
      var init, last := columns[..|columns| - 1], columns[|columns| - 1];
      ColumnsSaidOnce(s, key, init);
      OnceTogether(ColumnChanges(s, key, init), ColumnChange(s, key, last));
      forall c | c in ColumnChanges(s, key, columns)
        ensures exists k :: 0 <= k < |columns| && columns[k].name == c.place.column
      {
        if c in ColumnChanges(s, key, init) {
          var k :| 0 <= k < |init| && init[k].name == c.place.column;
          assert columns[k].name == c.place.column;
        } else {
          assert columns[|columns| - 1].name == c.place.column;
        }
      }
    }
  }

  lemma TableSaidOnce(s: State, t: Table)
    requires DistinctNames(t.columns)
    ensures Once(TableChanges(s, t))
    ensures forall c :: c in TableChanges(s, t) ==> c.schema == t.schema && c.table == t.name
  {
    ColumnsSaidOnce(s, KeyOf(t), t.columns);
    OnceTogether(TableChange(s, KeyOf(t)), ColumnChanges(s, KeyOf(t), t.columns));
    hide ColumnChanges;
  }

  /** Each difference is reported once. */
  lemma {:induction false} EachIsSaidOnce(s: State, tables: seq<Table>)
    requires Distinct(tables)
    ensures Once(SourceChanges(s, tables))
    ensures forall c :: c in SourceChanges(s, tables) ==> Reported(tables, TableKey(c.schema, c.table))
  {
    if tables != [] {
      var init, last := tables[..|tables| - 1], tables[|tables| - 1];
      EachIsSaidOnce(s, init);
      TableSaidOnce(s, last);
      ReportedGrows(tables, KeyOf(last));
      forall c | c in SourceChanges(s, tables) ensures Reported(tables, TableKey(c.schema, c.table)) {
        ReportedGrows(tables, TableKey(c.schema, c.table));
      }
      OnceTogether(SourceChanges(s, init), TableChanges(s, last));
    }
  }

  /** What the detail of a change is to say: of an addition, whether it came back; of a change, what moved. */
  ghost function DetailDue(s: State, tables: seq<Table>, change: Change): string
    requires change.place.OfTable? || change.place.OfColumn?
  {
    if change.kind == Removed then ""
    else if change.place.OfTable? then (if TableKey(change.schema, change.table) in s.tables then CAME_BACK else "")
    else
      var key := ColumnKey(change.schema, change.table, change.place.column);
      if ColumnAt(s, key).None? || ReportedColumn(tables, key).None? then ""
      else if change.kind == Added then CAME_BACK
      else Listed(Moves(ColumnAt(s, key).value, ReportedColumn(tables, key).value))
  }

  lemma DetailsSaidExactly(s: State, tables: seq<Table>, changes: seq<Change>, change: Change)
    requires Valid(s) && Distinct(tables) && TellsOf(changes, s, tables)
    requires change in changes && (change.place.OfTable? || change.place.OfColumn?)
    ensures change.detail == DetailDue(s, tables, change)
  {
    hide Valid, Distinct, TellsOf, Moves, Listed;
    if change.place.OfTable? {
      TableSaid(s, tables, changes, change);
    } else {
      var key := ColumnKey(change.schema, change.table, change.place.column);
      ColumnSaid(s, tables, changes, change);
      ReportedHasName(tables, key);
      if ColumnAt(s, key).Some? && ReportedColumn(tables, key).Some? {
        DescribesEachMove(ColumnAt(s, key).value, ReportedColumn(tables, key).value);
      }
    }
  }

  lemma {:induction false} ReportedHasName(tables: seq<Table>, key: ColumnKey)
    ensures ReportedColumn(tables, key).Some? ==> ReportedColumn(tables, key).value.name == key.column
  {
    if tables != [] {
      ReportedHasName(tables[..|tables| - 1], key);
      NamedIsThere(tables[|tables| - 1].columns, key.column);
    }
  }

  /** Applying the additions and removals a sync reports to what was live gives what is live. */
  lemma ReportAccountsForTheDifference(s: State, tables: seq<Table>, at: int, changes: seq<Change>)
    requires Valid(s) && Older(s, at) && Distinct(tables) && TellsOf(changes, s, tables)
    ensures forall key: TableKey ::
              LiveTable(Synced(s, tables, at), key) <==>
                && (LiveTable(s, key) || Says(changes, Added, key.schema, key.table, OfTable))
                && !Says(changes, Removed, key.schema, key.table, OfTable)
    ensures forall key: ColumnKey ::
              LiveColumn(Synced(s, tables, at), key) <==>
                && (LiveColumn(s, key) || Says(changes, Added, key.schema, key.table, OfColumn(key.column)))
                && !Says(changes, Removed, key.schema, key.table, OfColumn(key.column))
  {
    LiveIsWhatTheSourceReports(s, tables, at);
    forall key: TableKey
      ensures LiveTable(Synced(s, tables, at), key) <==>
                && (LiveTable(s, key) || Says(changes, Added, key.schema, key.table, OfTable))
                && !Says(changes, Removed, key.schema, key.table, OfTable)
    {
      TablesSaidExactly(s, tables, changes, key);
    }
    forall key: ColumnKey
      ensures LiveColumn(Synced(s, tables, at), key) <==>
                && (LiveColumn(s, key) || Says(changes, Added, key.schema, key.table, OfColumn(key.column)))
                && !Says(changes, Removed, key.schema, key.table, OfColumn(key.column))
    {
      ColumnsSaidExactly(s, tables, changes, Added, key);
      ColumnsSaidExactly(s, tables, changes, Removed, key);
    }
  }

  /** A sync of a source that has not moved since the last one reports nothing. */
  lemma SecondSyncReportsNothing(s: State, tables: seq<Table>, at: int, later: int)
    requires Valid(s) && Older(s, at) && Distinct(tables) && at < later
    ensures var t := Synced(s, tables, at);
            Valid(t) && Older(t, later) && SourceChanges(t, tables) == [] && GoneChanges(t, tables) == {}
  {
    var t := Synced(s, tables, at);
    LiveIsWhatTheSourceReports(s, tables, at);
    assert Older(t, later) by {
      forall k | k in t.tables ensures t.tables[k].lastSeen < later {
        TablesRecorded(s, tables, at, k);
      }
      forall c | c in t.columns ensures t.columns[c].lastSeen < later {
        ColumnsOfTablesRecorded(s, tables, at, NameOf(t, c));
        SweptColumns(AfterTables(s, tables, at), at, NameOf(t, c));
        assert ColumnAt(t, NameOf(t, c)) == Some(t.columns[c]);
      }
    }
    forall change ensures change !in GoneChanges(t, tables) {
      GoneMeans(t, tables, change);
    }
    var said := SourceChanges(t, tables);
    if said != [] {
      NothingMoved(s, tables, at, said[0]);
    }
  }

  lemma {:induction false} SourceChangesAreOfObjects(s: State, tables: seq<Table>, change: Change)
    requires change in SourceChanges(s, tables)
    ensures change.place.OfTable? || change.place.OfColumn?
  {
    var init, last := tables[..|tables| - 1], tables[|tables| - 1];
    if change in SourceChanges(s, init) {
      SourceChangesAreOfObjects(s, init, change);
    } else if change in ColumnChanges(s, KeyOf(last), last.columns) {
      ColumnChangesAreOfColumns(s, KeyOf(last), last.columns, change);
    }
  }

  lemma {:induction false} ColumnChangesAreOfColumns(s: State, key: TableKey, columns: seq<Column>, change: Change)
    requires change in ColumnChanges(s, key, columns)
    ensures change.place.OfColumn?
  {
    if change in ColumnChanges(s, key, columns[..|columns| - 1]) {
      ColumnChangesAreOfColumns(s, key, columns[..|columns| - 1], change);
    }
  }

  lemma NothingMoved(s: State, tables: seq<Table>, at: int, change: Change)
    requires Valid(s) && Older(s, at) && Distinct(tables)
    ensures change !in SourceChanges(Synced(s, tables, at), tables)
  {
    var t := Synced(s, tables, at);
    LiveIsWhatTheSourceReports(s, tables, at);
    if change in SourceChanges(t, tables) {
      SourceChangesAreOfObjects(t, tables, change);
      if change.place.OfTable? {
        ChangesAboutTables(t, tables, change);
      } else {
        var key := ColumnKey(change.schema, change.table, change.place.column);
        ChangesAboutColumnsOfTables(t, tables, change);
        ReportedHasName(tables, key);
        DescribesExactlyWhatMoved(ColumnAt(t, key).value, ReportedColumn(tables, key).value);
      }
    }
  }

  // The sync.

  datatype Report = Report(
    tablesSeen: nat, columnsSeen: nat, relationshipsSeen: nat, foreignKeysUnavailable: bool, changes: seq<Change>)

  method ReconcileColumn(store: Store, previous: Snapshot, id: nat, key: TableKey, c: Column, at: int, ghost s: State)
    returns (change: seq<Change>)
    requires previous.Shows(s)
    modifies store, previous`seenColumns
    ensures store.Rows() == RecordedColumn(old(store.Rows()), id, c, at)
    ensures previous.seenColumns == old(previous.seenColumns) + {ColumnKey(key.schema, key.table, c.name)}
    ensures change == ColumnChange(s, key, c)
  {
    KnownByName(s, ColumnKey(key.schema, key.table, c.name));
    var before := previous.SeeColumn(ColumnKey(key.schema, key.table, c.name));
    store.RecordColumn(id, c, at);
    if before.None? {
      return [Change(Added, key.schema, key.table, OfColumn(c.name), "")];
    }
    if before.value.removedAt.Some? {
      return [Change(Added, key.schema, key.table, OfColumn(c.name), CAME_BACK)];
    }
    var detail := Describe(before.value, c);
    if detail == "" {
      return [];
    }
    return [Change(Changed, key.schema, key.table, OfColumn(c.name), detail)];
  }

  method ReconcileColumns(store: Store, previous: Snapshot, id: nat, t: Table, at: int, ghost s: State)
    returns (changes: seq<Change>)
    requires previous.Shows(s)
    modifies store, previous`seenColumns
    ensures store.Rows() == AfterColumns(old(store.Rows()), id, t.columns, at)
    ensures previous.seenColumns == old(previous.seenColumns) + NamesIn(KeyOf(t), t.columns)
    ensures changes == ColumnChanges(s, KeyOf(t), t.columns)
  {
    hide KnownColumns, Valid, ColumnChange, NamesIn;
    NamesNone(KeyOf(t));
    changes := [];
    ghost var was, seen := store.Rows(), previous.seenColumns;
    for i := 0 to |t.columns|
      invariant store.Rows() == AfterColumns(was, id, t.columns[..i], at)
      invariant previous.seenColumns == seen + NamesIn(KeyOf(t), t.columns[..i])
      invariant changes == ColumnChanges(s, KeyOf(t), t.columns[..i])
    {
      var change := ReconcileColumn(store, previous, id, KeyOf(t), t.columns[i], at, s);
      changes := changes + change;
      assert t.columns[..i + 1] == t.columns[..i] + [t.columns[i]];
      assert t.columns[..i + 1][..i] == t.columns[..i];
      NamesGrow(KeyOf(t), t.columns[..i], t.columns[i]);
    }
    assert t.columns[..|t.columns|] == t.columns;
  }

  lemma NamesNone(key: TableKey)
    ensures NamesIn(key, []) == {}
  {
  }

  lemma NamesGrow(key: TableKey, columns: seq<Column>, c: Column)
    ensures NamesIn(key, columns + [c]) == NamesIn(key, columns) + {ColumnKey(key.schema, key.table, c.name)}
  {
  }

  /** Stores one table and its columns, and says what differs. */
  method ReconcileTable(store: Store, previous: Snapshot, t: Table, at: int, ghost s: State)
    returns (changes: seq<Change>)
    requires previous.Shows(s)
    modifies store, previous`seenTables, previous`seenColumns
    ensures store.Rows() == AfterTable(old(store.Rows()), t, at)
    ensures previous.seenTables == old(previous.seenTables) + {KeyOf(t)}
    ensures previous.seenColumns == old(previous.seenColumns) + NamesIn(KeyOf(t), t.columns)
    ensures changes == TableChanges(s, t)
  {
    var before := previous.SeeTable(KeyOf(t));
    var id := store.RecordTable(KeyOf(t), at);
    changes := [];
    if before.None? {
      changes := [Change(Added, t.schema, t.name, OfTable, "")];
    } else if before.value.removedAt.Some? {
      changes := [Change(Added, t.schema, t.name, OfTable, CAME_BACK)];
    }
    var more := ReconcileColumns(store, previous, id, t, at, s);
    changes := changes + more;
  }

  method ReconcileTables(store: Store, previous: Snapshot, tables: seq<Table>, at: int, ghost s: State)
    returns (changes: seq<Change>, columnsSeen: nat)
    requires previous.Shows(s) && previous.seenTables == {} && previous.seenColumns == {}
    modifies store, previous`seenTables, previous`seenColumns
    ensures store.Rows() == AfterTables(old(store.Rows()), tables, at)
    ensures previous.seenTables == ReportedTables(tables) && previous.seenColumns == ReportedColumns(tables)
    ensures changes == SourceChanges(s, tables) && columnsSeen == TotalColumns(tables)
  {
    hide AfterTable, TableChanges, KnownColumns, Valid;
    changes, columnsSeen := [], 0;
    ghost var was := store.Rows();
    for i := 0 to |tables|
      invariant store.Rows() == AfterTables(was, tables[..i], at)
      invariant previous.seenTables == ReportedTables(tables[..i])
      invariant previous.seenColumns == ReportedColumns(tables[..i])
      invariant changes == SourceChanges(s, tables[..i])
      invariant columnsSeen == TotalColumns(tables[..i])
    {
      var more := ReconcileTable(store, previous, tables[i], at, s);
      changes := changes + more;
      columnsSeen := columnsSeen + |tables[i].columns|;
      assert tables[..i + 1] == tables[..i] + [tables[i]];
      assert tables[..i + 1][..i] == tables[..i];
    }
    assert tables[..|tables|] == tables;
  }

  function SweepDisagreement(marked: nat, named: nat): Change {
    Change(Changed, "", "", OfSweep,
           "the sweep marked " + Decimal(marked) + " objects gone and " + Decimal(named)
           + " were named; another sync may be running against this connection")
  }

  function SweepCheck(marked: nat, named: nat): seq<Change> {
    if named != marked then [SweepDisagreement(marked, named)] else []
  }

  function TotalColumns(tables: seq<Table>): nat {
    if tables == [] then 0 else TotalColumns(tables[..|tables| - 1]) + |tables[|tables| - 1].columns|
  }

  /** A whole report: every table and column that differs, then relationships, then everything gone, then
      a disagreement if the sweep marked another number than were named. */
  ghost predicate ReportsOn(
    changes: seq<Change>, s: State, tables: seq<Table>, related: seq<Change>, gone: seq<Change>, marked: nat)
    requires Valid(s)
  {
    && Lists(gone, GoneChanges(s, tables))
    && changes == SourceChanges(s, tables) + related + gone
                  + SweepCheck(marked, |gone|)
  }

  /** The sweep, then the names of what it marked, then whether the two agree. */
  method Sweep(store: Store, previous: Snapshot, at: int, ghost s: State, ghost tables: seq<Table>)
    returns (changes: seq<Change>, ghost gone: seq<Change>)
    requires previous.Shows(s)
    requires previous.seenTables == ReportedTables(tables) && previous.seenColumns == ReportedColumns(tables)
    modifies store
    ensures store.Rows() == Swept(old(store.Rows()), at)
    ensures Lists(gone, GoneChanges(s, tables))
    ensures var was := old(store.Rows());
            changes == gone + SweepCheck(|StaleTables(was, at)| + |StaleColumns(was, at)|, |gone|)
  {
    hide Swept, StaleTables, StaleColumns, MissingTables, MissingColumns, KnownColumns, Lists;
    var goneTables, goneColumns := store.MarkGone(at);
    changes := previous.ListMissing();
    gone := changes;
    if |changes| != goneTables + goneColumns {
      changes := changes + [SweepDisagreement(goneTables + goneColumns, |changes|)];
    }
  }

  /** Everything stored for one connection. */
  datatype Stored = Stored(catalog: State, keys: Relationships.Keys)

  type Source = Result<seq<Table>, string>

  type KeySource = Result<seq<Relationships.ForeignKey>, Relationships.KeyError>

  predicate Completes(source: Source, keys: KeySource) {
    source.Ok? && (keys.Ok? || keys.error.NoForeignKeys?)
  }

  /** What a sync leaves stored: nothing new if the source could not be read, what it reported but no sweep
      if its relationships could not, and otherwise the whole reconciliation. */
  ghost function AfterSync(was: Stored, source: Source, keys: KeySource, at: int): Stored {
    if source.Err? then was
    else if !Completes(source, keys) then was.(catalog := AfterTables(was.catalog, source.value, at))
    else
      Stored(Synced(was.catalog, source.value, at),
             if keys.Ok? then Relationships.Reconciled(was.keys, keys.value, at) else was.keys)
  }

  /** What a completed sync reports. */
  ghost predicate Told(report: Report, related: Relationships.RelationReport, gone: seq<Change>,
                       was: Stored, tables: seq<Table>, keys: KeySource, at: int)
    requires Valid(was.catalog)
  {
    && report.tablesSeen == |tables| && report.columnsSeen == TotalColumns(tables)
    && report.relationshipsSeen == related.seen && report.foreignKeysUnavailable == related.unavailable
    && (if keys.Ok? then Relationships.Reports(related, was.keys, keys.value, at)
        else related == Relationships.RelationReport(0, true, []))
    && var u := AfterTables(was.catalog, tables, at);
       ReportsOn(report.changes, was.catalog, tables, related.changes, gone,
                 |StaleTables(u, at)| + |StaleColumns(u, at)|)
  }

  /** Reconciles a connection's catalog with what its source reports. */
  method Sync(store: Store, relations: Relationships.Store, source: Source, keys: KeySource, at: int)
    returns (report: Result<Report, string>, ghost related: Relationships.RelationReport, ghost gone: seq<Change>)
    requires Valid(store.Rows())
    modifies store, relations
    ensures report.Ok? <==> Completes(source, keys)
    ensures Stored(store.Rows(), relations.keys) ==
              AfterSync(old(Stored(store.Rows(), relations.keys)), source, keys, at)
    ensures report.Ok? ==>
              Told(report.value, related, gone, old(Stored(store.Rows(), relations.keys)), source.value, keys, at)
  {
    hide Swept, StaleTables, StaleColumns, GoneChanges, KnownColumns, Lists, AfterTables, SourceChanges, Valid,
         TotalColumns, ReportedTables, ReportedColumns, SweepCheck, Relationships.Reports, Relationships.Reconciled;
    related, gone := Relationships.RelationReport(0, true, []), [];
    ghost var was := Stored(store.Rows(), relations.keys);
    var tableRows := store.Tables();
    var columnRows := store.Columns();
    var previous := new Snapshot(tableRows, columnRows, was.catalog);
    if source.Err? {
      report := Err(source.error);
      return;
    }
    var tables := source.value;
    var changes, columnsSeen := ReconcileTables(store, previous, tables, at, was.catalog);
    var reconciled := Relationships.Reconcile(relations, keys, at);
    if reconciled.Err? {
      report := Err(reconciled.error.message);
      return;
    }
    related := reconciled.value;
    var swept;
    swept, gone := Sweep(store, previous, at, was.catalog, tables);
    report := Ok(Report(|tables|, columnsSeen, reconciled.value.seen, reconciled.value.unavailable,
                        changes + reconciled.value.changes + swept));
    assert changes + related.changes + swept == changes + related.changes + gone + swept[|gone|..];
  }

  /** Alone on its connection, a sync's report tells of tables and columns exactly, and no disagreement is
      in it. */
  lemma AloneReportsTell(
    s: State, tables: seq<Table>, at: int, changes: seq<Change>, related: seq<Change>, gone: seq<Change>)
    requires Valid(s) && Older(s, at)
    requires forall c :: c in related ==> c.place.OfRelationship? || c.place.OfSweep?
    requires ReportsOn(changes, s, tables, related, gone,
                       |StaleTables(AfterTables(s, tables, at), at)| + |StaleColumns(AfterTables(s, tables, at), at)|)
    ensures TellsOf(changes, s, tables)
    ensures changes == SourceChanges(s, tables) + related + gone
  {
    SweepAndSnapshotAgree(s, tables, at);
    ListsExactly(gone, GoneChanges(s, tables));
    assert |gone| == |GoneChanges(s, tables)|;
    assert changes == SourceChanges(s, tables) + related + gone;
    forall c ensures c in changes && (c.place.OfTable? || c.place.OfColumn?) <==>
                       c in SourceChanges(s, tables) || c in GoneChanges(s, tables) {
      if c in SourceChanges(s, tables) {
        SourceChangesAreOfObjects(s, tables, c);
      }
      GoneMeans(s, tables, c);
    }
  }

  lemma OneRemovalPerPlace(s: State, tables: seq<Table>, a: Change, b: Change)
    requires Valid(s) && a in GoneChanges(s, tables) && b in GoneChanges(s, tables) && SamePlace(a, b)
    ensures a == b
  {
    GoneMeans(s, tables, a);
    GoneMeans(s, tables, b);
    hide GoneChanges, Valid, LiveTable, LiveColumn;
    assert a.place.OfColumn? ==> Label(a.place)[1..] == a.place.column;
    assert b.place.OfColumn? ==> Label(b.place)[1..] == b.place.column;
  }

  /** The removals a sync lists are a function of what was stored and what is reported: no two are at one
      place, so the order the snapshot's maps are walked in does not show. */
  lemma RemovalsAreListedOneWay(s: State, tables: seq<Table>, gone: seq<Change>, other: seq<Change>)
    requires Valid(s) && Lists(gone, GoneChanges(s, tables)) && Lists(other, GoneChanges(s, tables))
    ensures gone == other
  {
    hide GoneChanges, Valid, SamePlace;
    ListsExactly(gone, GoneChanges(s, tables));
    forall a, b | a in gone && b in gone && SamePlace(a, b) ensures a == b {
      OneRemovalPerPlace(s, tables, a, b);
    }
    ListingIsUnique(gone, other);
  }

  /** A second sync of a source that has not moved reports no changes at all: of tables, of columns, of
      relationships, or of a disagreement; whether the source declares relationships or cannot be asked. */
  lemma SecondReportIsEmpty(was: Stored, tables: seq<Table>, keys: KeySource, at: int, later: int, report: Report,
                            related: Relationships.RelationReport, gone: seq<Change>)
    requires Valid(was.catalog) && Older(was.catalog, at) && Relationships.Older(was.keys, at) && at < later
    requires Distinct(tables) && Completes(Ok(tables), keys)
    requires Valid(AfterSync(was, Ok(tables), keys, at).catalog)
    requires Told(report, related, gone, AfterSync(was, Ok(tables), keys, at), tables, keys, later)
    ensures report.changes == []
  {
    var t := AfterSync(was, Ok(tables), keys, at);
    SecondSyncReportsNothing(was.catalog, tables, at, later);
    ListsExactly(gone, GoneChanges(t.catalog, tables));
    assert gone == [];
    SweepAndSnapshotAgree(t.catalog, tables, later);
    if keys.Ok? {
      QuietRelationships(was.keys, keys.value, at, later, related);
    }
    assert related.changes == [];
  }

  lemma QuietRelationships(was: Relationships.Keys, keys: seq<Relationships.ForeignKey>, at: int, later: int,
                           related: Relationships.RelationReport)
    requires Relationships.Older(was, at) && at < later
    requires Relationships.Reports(related, Relationships.Reconciled(was, keys, at), keys, later)
    ensures related.changes == []
  {
    var t := Relationships.Reconciled(was, keys, at);
    Relationships.SecondSyncIsQuiet(was, keys, at, later);
    var none := Relationships.RelationChanges({}, {});
    assert none == {};
    ListsExactly(related.changes[0..], none);
    assert related.changes[0..] == related.changes;
  }
}
