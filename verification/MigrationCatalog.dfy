// A flat catalog that remembers where each entry was written last. Here every
// operation is total: it tells what becomes of an occupied name, and that an
// operation without its base changes nothing.
module MigrationCatalog {
  import opened Outcomes
  import opened Sorting
  import opened SourceRanges
  import opened TextOrder
  import opened MigrationSchema
  import opened StrictDdl

  datatype Stored<T> = Stored(value: T, at: Location)
  datatype Catalog = Catalog(
    tables: map<ObjectId, Location>, columns: map<ColumnId, Stored<Column>>, enums: map<ObjectId, Stored<seq<string>>>)

  const EMPTY_CATALOG := Catalog(map[], map[], map[])

  // The statement works on something the catalog does not list.
  predicate Lacks(c: Catalog, id: ObjectId, action: Action) {
    || (id !in c.tables && (action.DropTable? || action.RenameTable? || action.AddColumn?))
    || (id !in c.enums && (action.AddEnumValue? || action.RenameEnum? || action.DropEnum?))
    || (action.AlterColumn? && ColumnId(id, action.column.name) !in c.columns)
    || (action.DropColumn? && ColumnId(id, action.columnName) !in c.columns)
    || (action.RenameColumn? && ColumnId(id, action.columnName) !in c.columns)
    || (action.SetColumnNullability? && ColumnId(id, action.columnName) !in c.columns)
  }

  predicate Names(columns: seq<Column>, name: string) {
    exists i :: 0 <= i < |columns| && columns[i].name == name
  }

  // Of several columns with one name the last counts.
  function LastNamed(columns: seq<Column>, name: string): Column
    requires Names(columns, name)
  {
    var n := |columns| - 1;
    if columns[n].name == name then columns[n] else LastNamed(columns[..n], name)
  }

  function Declared(id: ObjectId, columns: seq<Column>, at: Location): map<ColumnId, Stored<Column>> {
    map k | k in (set i | 0 <= i < |columns| :: ColumnId(id, columns[i].name)) ::
      Stored(if Names(columns, k.column) then LastNamed(columns, k.column) else Column("", "", Unknown), at)
  }

  function OutsideTable(columns: map<ColumnId, Stored<Column>>, id: ObjectId): map<ColumnId, Stored<Column>> {
    map k | k in columns && k.table != id :: columns[k]
  }

  // The columns of one table under the name of another.
  function MovedTo(columns: map<ColumnId, Stored<Column>>, id: ObjectId, newId: ObjectId, at: Location)
      : map<ColumnId, Stored<Column>>
  {
    map k | k in (set j | j in columns && j.table == id :: ColumnId(newId, j.column))
            && ColumnId(id, k.column) in columns ::
      Stored(columns[ColumnId(id, k.column)].value, at)
  }

  function Perform(c: Catalog, id: ObjectId, action: Action, at: Location): Catalog {
    if Lacks(c, id, action) then c
    else
      match action
      case CreateTable(columns) =>
        Catalog(c.tables[id := at], c.columns + Declared(id, columns, at), c.enums)
      case DropTable =>
        Catalog(c.tables - {id}, OutsideTable(c.columns, id), c.enums)
      case RenameTable(newTarget) =>
        var newId := ObjectId(id.namespace, newTarget);
        Catalog((c.tables - {id})[newId := at],
                OutsideTable(c.columns, id) + MovedTo(c.columns, id, newId, at), c.enums)
      case AddColumn(column) =>
        c.(columns := c.columns[ColumnId(id, column.name) := Stored(column, at)])
      case AlterColumn(Column(name, dataType, nullable)) =>
        var kept := c.columns[ColumnId(id, name)].value.nullable;
        var altered := Column(name, dataType, if nullable == Unknown then kept else nullable);
        c.(columns := c.columns[ColumnId(id, name) := Stored(altered, at)])
      case DropColumn(name) =>
        c.(columns := c.columns - {ColumnId(id, name)})
      case RenameColumn(name, newName) =>
        var Column(_, dataType, nullable) := c.columns[ColumnId(id, name)].value;
        var renamed := Stored(Column(newName, dataType, nullable), at);
        c.(columns := (c.columns - {ColumnId(id, name)})[ColumnId(id, newName) := renamed])
      case SetColumnNullability(name, nullable) =>
        var altered := Column(name, c.columns[ColumnId(id, name)].value.dataType,
                              if nullable then Nullable else NotNull);
        c.(columns := c.columns[ColumnId(id, name) := Stored(altered, at)])
      case CreateEnum(values) =>
        c.(enums := c.enums[id := Stored(Sort(values, TextLeq), at)])
      case AddEnumValue(value) =>
        c.(enums := c.enums[id := Stored(Sort(Distinct(c.enums[id].value + [value]), TextLeq), at)])
      case RenameEnum(newTarget) =>
        c.(enums := (c.enums - {id})[ObjectId(id.namespace, newTarget) := Stored(c.enums[id].value, at)])
      case DropEnum =>
        c.(enums := c.enums - {id})
  }

  // --- the nested schema as a catalog -----------------------------------------

  function CatalogOf(s: Schema): Catalog {
    Catalog(map id | id in s.tables :: s.tables[id].state.at,
            map k | k in (set id, c | id in s.tables && c in s.tables[id].columns :: ColumnId(id, c))
                    && HasColumn(s, k.table, k.column) ::
              Stored(s.tables[k.table].columns[k.column].column, s.tables[k.table].columns[k.column].at),
            map id | id in s.enums :: Stored(s.enums[id].values, s.enums[id].at))
  }

  lemma CatalogLists(s: Schema, k: ColumnId)
    ensures k.table in CatalogOf(s).tables <==> k.table in s.tables
    ensures k in CatalogOf(s).columns <==> HasColumn(s, k.table, k.column)
    ensures k in CatalogOf(s).columns ==>
              CatalogOf(s).columns[k] == StoredColumn(s.tables[k.table].columns[k.column])
    ensures k.table in CatalogOf(s).enums <==> k.table in s.enums
  {
    if HasColumn(s, k.table, k.column) {
      assert ColumnId(k.table, k.column) == k;
    }
  }

  function StoredColumn(c: ColumnState): Stored<Column> {
    Stored(c.column, c.at)
  }

  lemma LacksIsMissing(s: Schema, d: Document, op: Operation)
    ensures Lacks(CatalogOf(s), ObjectId(d.namespace, op.target), op.action) <==> MissesBase(s, d, op)
  {
    hide CatalogOf, HasColumn;
    var id := ObjectId(d.namespace, op.target);
    CatalogLists(s, ColumnId(id, ""));
    match op.action
    case AlterColumn(column) => CatalogLists(s, ColumnId(id, column.name));
    case DropColumn(name) => CatalogLists(s, ColumnId(id, name));
    case RenameColumn(name, _) => CatalogLists(s, ColumnId(id, name));
    case SetColumnNullability(name, _) => CatalogLists(s, ColumnId(id, name));
    case _ =>
  }

  lemma PutIsPut(s: Schema, id: ObjectId, c: ColumnState)
    requires id in s.tables
    ensures CatalogOf(PutColumn(s, id, c))
            == CatalogOf(s).(columns := CatalogOf(s).columns[ColumnId(id, c.column.name) := Stored(c.column, c.at)])
  {
    hide CatalogOf;
    var after := PutColumn(s, id, c);
    var put := CatalogOf(s).columns[ColumnId(id, c.column.name) := Stored(c.column, c.at)];
    forall k: ColumnId
      ensures k in CatalogOf(after).columns <==> k in put
      ensures k in put ==> CatalogOf(after).columns[k] == put[k]
    {
      CatalogLists(s, k);
      CatalogLists(after, k);
    }
    assert CatalogOf(after).columns == put;
    SameTablesAndEnums(s, after);
  }

  lemma TakeIsTake(s: Schema, id: ObjectId, c: string)
    requires id in s.tables
    ensures CatalogOf(TakeColumn(s, id, c))
            == CatalogOf(s).(columns := CatalogOf(s).columns - {ColumnId(id, c)})
  {
    hide CatalogOf;
    var after := TakeColumn(s, id, c);
    var left := CatalogOf(s).columns - {ColumnId(id, c)};
    forall k: ColumnId
      ensures k in CatalogOf(after).columns <==> k in left
      ensures k in left ==> CatalogOf(after).columns[k] == left[k]
    {
      CatalogLists(s, k);
      CatalogLists(after, k);
    }
    assert CatalogOf(after).columns == left;
    SameTablesAndEnums(s, after);
  }

  lemma SameTablesAndEnums(s: Schema, s': Schema)
    requires s'.tables.Keys == s.tables.Keys && s'.enums == s.enums
    requires forall id :: id in s.tables ==> s'.tables[id].state == s.tables[id].state
    ensures CatalogOf(s').tables == CatalogOf(s).tables && CatalogOf(s').enums == CatalogOf(s).enums
  {
  }

  // Each column of a `create table` statement replaces an older one of its name.
  lemma {:induction false} CreatedColumnsAre(d: Document, op: Operation, kept: map<string, ColumnState>,
      columns: seq<Column>, c: string)
    requires d.lineStarts != []
    ensures c in WithColumns(d, op, kept, columns) <==> Names(columns, c) || c in kept
    ensures c in WithColumns(d, op, kept, columns) ==>
              StoredColumn(WithColumns(d, op, kept, columns)[c])
              == if Names(columns, c) then Stored(LastNamed(columns, c), Locate(d, op)) else StoredColumn(kept[c])
  {
    hide Locate;
    if columns != [] {
      var n := |columns| - 1;
      assert columns == columns[..n] + [columns[n]];
      CreatedColumnsAre(d, op, kept, columns[..n], c);
      assert Names(columns, c) <==> Names(columns[..n], c) || columns[n].name == c by {
        if Names(columns[..n], c) {
          var i :| 0 <= i < n && columns[..n][i].name == c;
          assert columns[i].name == c;
        }
        if Names(columns, c) && columns[n].name != c {
          var i :| 0 <= i < |columns| && columns[i].name == c;
          assert columns[..n][i].name == c;
        }
      }
    }
  }

  lemma CreateIsPerformed(s: Schema, d: Document, op: Operation)
    requires d.lineStarts != [] && op.action.CreateTable?
    ensures CatalogOf(Effect(s, d, op))
            == Perform(CatalogOf(s), ObjectId(d.namespace, op.target), op.action, Locate(d, op))
  {
    hide CatalogOf, Locate, WithColumns, LastNamed;
    var id, after := ObjectId(d.namespace, op.target), Effect(s, d, op);
    var performed := Perform(CatalogOf(s), id, op.action, Locate(d, op));
    var kept := if id in s.tables then s.tables[id].columns else map[];
    forall k: ColumnId
      ensures k in CatalogOf(after).columns <==> k in performed.columns
      ensures k in performed.columns ==> CatalogOf(after).columns[k] == performed.columns[k]
    {
      CatalogLists(s, k);
      CatalogLists(after, k);
      CreatedColumnsAre(d, op, kept, op.action.columns, k.column);
      DeclaredIs(id, op.action.columns, Locate(d, op), k);
    }
    CreatedTables(s, d, op);
  }

  lemma CreatedTables(s: Schema, d: Document, op: Operation)
    requires d.lineStarts != [] && op.action.CreateTable?
    ensures var id := ObjectId(d.namespace, op.target);
            CatalogOf(Effect(s, d, op)).tables == CatalogOf(s).tables[id := Locate(d, op)]
    ensures CatalogOf(Effect(s, d, op)).enums == CatalogOf(s).enums
  {
    hide Locate, WithColumns;
  }

  lemma DeclaredIs(id: ObjectId, columns: seq<Column>, at: Location, k: ColumnId)
    ensures k in Declared(id, columns, at) <==> k.table == id && Names(columns, k.column)
    ensures k in Declared(id, columns, at) ==> Declared(id, columns, at)[k] == Stored(LastNamed(columns, k.column), at)
  {
    hide LastNamed;
    if k.table == id && Names(columns, k.column) {
      var i :| 0 <= i < |columns| && columns[i].name == k.column;
      assert ColumnId(id, columns[i].name) == k;
    }
  }

  lemma DropIsPerformed(s: Schema, d: Document, op: Operation)
    requires d.lineStarts != [] && op.action.DropTable? && !MissesBase(s, d, op)
    ensures CatalogOf(Effect(s, d, op))
            == Perform(CatalogOf(s), ObjectId(d.namespace, op.target), op.action, Locate(d, op))
  {
    hide CatalogOf, Locate;
    var id, after := ObjectId(d.namespace, op.target), Effect(s, d, op);
    var performed := Perform(CatalogOf(s), id, op.action, Locate(d, op));
    LacksIsMissing(s, d, op);
    forall k: ColumnId
      ensures k in CatalogOf(after).columns <==> k in performed.columns
      ensures k in performed.columns ==> CatalogOf(after).columns[k] == performed.columns[k]
    {
      CatalogLists(s, k);
      CatalogLists(after, k);
    }
    DroppedTables(s, d, op);
  }

  lemma DroppedTables(s: Schema, d: Document, op: Operation)
    requires d.lineStarts != [] && op.action.DropTable? && !MissesBase(s, d, op)
    ensures var id := ObjectId(d.namespace, op.target);
            CatalogOf(Effect(s, d, op)).tables == CatalogOf(s).tables - {id}
    ensures CatalogOf(Effect(s, d, op)).enums == CatalogOf(s).enums
  {
    hide Locate;
  }

  lemma RenameIsPerformed(s: Schema, d: Document, op: Operation)
    requires d.lineStarts != [] && op.action.RenameTable? && !MissesBase(s, d, op)
    ensures CatalogOf(Effect(s, d, op))
            == Perform(CatalogOf(s), ObjectId(d.namespace, op.target), op.action, Locate(d, op))
  {
    hide CatalogOf, Locate, OutsideTable, MovedTo, Effect, MissesBase;
    var id, newId := ObjectId(d.namespace, op.target), ObjectId(d.namespace, op.action.newTarget);
    var after := Effect(s, d, op);
    var performed := Perform(CatalogOf(s), id, op.action, Locate(d, op));
    LacksIsMissing(s, d, op);
    forall k: ColumnId
      ensures k in CatalogOf(after).columns <==> k in performed.columns
      ensures k in performed.columns ==> CatalogOf(after).columns[k] == performed.columns[k]
    {
      CatalogLists(s, k);
      CatalogLists(s, ColumnId(id, k.column));
      CatalogLists(after, k);
      RenamedColumnIs(s, d, op, k);
      MovedIs(CatalogOf(s).columns, id, newId, Locate(d, op), k);
    }
    RenamedTablesAre(s, d, op);
  }

  lemma MovedIs(columns: map<ColumnId, Stored<Column>>, id: ObjectId, newId: ObjectId, at: Location, k: ColumnId)
    ensures k in OutsideTable(columns, id) <==> k in columns && k.table != id
    ensures k in OutsideTable(columns, id) ==> OutsideTable(columns, id)[k] == columns[k]
    ensures k in MovedTo(columns, id, newId, at) <==> k.table == newId && ColumnId(id, k.column) in columns
    ensures k in MovedTo(columns, id, newId, at) ==>
              MovedTo(columns, id, newId, at)[k] == Stored(columns[ColumnId(id, k.column)].value, at)
  {
    var j := ColumnId(id, k.column);
    if k.table == newId && j in columns {
      assert j.table == id && ColumnId(newId, j.column) == k;
    }
  }

  lemma RenamedColumnIs(s: Schema, d: Document, op: Operation, k: ColumnId)
    requires d.lineStarts != [] && op.action.RenameTable? && !MissesBase(s, d, op)
    ensures var id, newId := ObjectId(d.namespace, op.target), ObjectId(d.namespace, op.action.newTarget);
            var after := Effect(s, d, op);
            && (HasColumn(after, k.table, k.column) <==>
                  || (k.table == newId && HasColumn(s, id, k.column))
                  || (k.table != id && HasColumn(s, k.table, k.column)))
            && (HasColumn(after, k.table, k.column) ==>
                  StoredColumn(after.tables[k.table].columns[k.column])
                  == if k.table == newId && HasColumn(s, id, k.column)
                     then Stored(s.tables[id].columns[k.column].column, Locate(d, op))
                     else StoredColumn(s.tables[k.table].columns[k.column]))
  {
    hide Locate;
  }

  lemma RenamedTablesAre(s: Schema, d: Document, op: Operation)
    requires d.lineStarts != [] && op.action.RenameTable? && !MissesBase(s, d, op)
    ensures var id, newId := ObjectId(d.namespace, op.target), ObjectId(d.namespace, op.action.newTarget);
            CatalogOf(Effect(s, d, op)).tables == (CatalogOf(s).tables - {id})[newId := Locate(d, op)]
    ensures CatalogOf(Effect(s, d, op)).enums == CatalogOf(s).enums
  {
    hide Locate;
  }

  lemma ColumnStepIsPerformed(s: Schema, d: Document, op: Operation)
    requires d.lineStarts != [] && NamesKept(s) && !MissesBase(s, d, op)
    requires op.action.AddColumn? || op.action.AlterColumn? || op.action.DropColumn? || op.action.RenameColumn?
             || op.action.SetColumnNullability?
    ensures CatalogOf(Effect(s, d, op))
            == Perform(CatalogOf(s), ObjectId(d.namespace, op.target), op.action, Locate(d, op))
  {
    hide CatalogOf, Locate, PutColumn, TakeColumn;
    var id := ObjectId(d.namespace, op.target);
    LacksIsMissing(s, d, op);
    match op.action
    case AddColumn(column) =>
      PutIsPut(s, id, ColumnAt(d, op, op.target, column));
    case AlterColumn(column) =>
      CatalogLists(s, ColumnId(id, column.name));
      var prior := s.tables[id].columns[column.name].column.nullable;
      var altered := column.(nullable := if column.nullable == Unknown then prior else column.nullable);
      PutIsPut(s, id, ColumnAt(d, op, op.target, altered));
    case DropColumn(name) =>
      TakeIsTake(s, id, name);
    case RenameColumn(name, newName) =>
      CatalogLists(s, ColumnId(id, name));
      TakeIsTake(s, id, name);
      var renamed := s.tables[id].columns[name].column.(name := newName);
      TakenTables(s, id, name);
      PutIsPut(TakeColumn(s, id, name), id, ColumnAt(d, op, op.target, renamed));
    case SetColumnNullability(name, nullable) =>
      CatalogLists(s, ColumnId(id, name));
      assert s.tables[id].columns[name].column.name == name by { assert HasColumn(s, id, name); }
      var altered := s.tables[id].columns[name].column.(nullable := if nullable then Nullable else NotNull);
      PutIsPut(s, id, ColumnAt(d, op, op.target, altered));
  }

  lemma TakenTables(s: Schema, id: ObjectId, c: string)
    requires id in s.tables
    ensures id in TakeColumn(s, id, c).tables
  {
  }

  lemma EnumStepIsPerformed(s: Schema, d: Document, op: Operation)
    requires d.lineStarts != [] && !MissesBase(s, d, op)
    requires op.action.CreateEnum? || op.action.AddEnumValue? || op.action.RenameEnum? || op.action.DropEnum?
    ensures CatalogOf(Effect(s, d, op))
            == Perform(CatalogOf(s), ObjectId(d.namespace, op.target), op.action, Locate(d, op))
  {
    hide Locate, Sort, Distinct, CatalogOf;
    LacksIsMissing(s, d, op);
    var id, after := ObjectId(d.namespace, op.target), Effect(s, d, op);
    SameTables(s, after);
    EnumsListed(s, id);
    var performed := Perform(CatalogOf(s), id, op.action, Locate(d, op));
    forall j
      ensures j in CatalogOf(after).enums <==> j in performed.enums
      ensures j in performed.enums ==> CatalogOf(after).enums[j] == performed.enums[j]
    {
      EnumsListed(s, j);
      EnumsListed(after, j);
    }
    assert CatalogOf(after).enums == performed.enums;
  }

  lemma SameTables(s: Schema, s': Schema)
    requires s'.tables == s.tables
    ensures CatalogOf(s').tables == CatalogOf(s).tables && CatalogOf(s').columns == CatalogOf(s).columns
  {
  }

  lemma EnumsListed(s: Schema, id: ObjectId)
    ensures id in CatalogOf(s).enums <==> id in s.enums
    ensures id in s.enums ==> CatalogOf(s).enums[id] == Stored(s.enums[id].values, s.enums[id].at)
  {
  }

  // One operation of the replay does to the catalog what `Perform` says, under
  // its own path, range and content hash, and is reported when its base is absent.
  lemma StepIsPerformed(s: Schema, d: Document, op: Operation)
    requires d.lineStarts != [] && NamesKept(s)
    ensures CatalogOf(Step(s, d, op))
            == Perform(CatalogOf(s), ObjectId(d.namespace, op.target), op.action,
                       Location(d.path, RangeOf(d.lineStarts, op.offset, op.length), d.contentHash))
    ensures MissesBase(s, d, op) <==> Lacks(CatalogOf(s), ObjectId(d.namespace, op.target), op.action)
  {
    hide CatalogOf, NamesKept, Effect, Lacks;
    LacksIsMissing(s, d, op);
    var a := op.action;
    if !MissesBase(s, d, op) {
      if a.CreateTable? {
        CreateIsPerformed(s, d, op);
      } else if a.DropTable? {
        DropIsPerformed(s, d, op);
      } else if a.RenameTable? {
        RenameIsPerformed(s, d, op);
      } else if a.CreateEnum? || a.AddEnumValue? || a.RenameEnum? || a.DropEnum? {
        EnumStepIsPerformed(s, d, op);
      } else {
        ColumnStepIsPerformed(s, d, op);
      }
    }
  }

  // --- whole logs ---------------------------------------------------------------

  datatype Entry = Entry(document: Document, operation: Operation)

  function OwnerOf(e: Entry): ObjectId {
    ObjectId(e.document.namespace, e.operation.target)
  }

  function WrittenAt(e: Entry): Location
    requires e.document.lineStarts != []
  {
    Location(e.document.path, RangeOf(e.document.lineStarts, e.operation.offset, e.operation.length),
             e.document.contentHash)
  }

  predicate Located(log: seq<Entry>) {
    forall i :: 0 <= i < |log| ==> log[i].document.lineStarts != []
  }

  function EntriesOf(d: Document, operations: seq<Operation>): seq<Entry> {
    if operations == [] then []
    else EntriesOf(d, operations[..|operations| - 1]) + [Entry(d, operations[|operations| - 1])]
  }

  // The operations of all documents, in the order in which they are replayed.
  function Log(documents: seq<Document>): seq<Entry> {
    if documents == [] then []
    else
      var last := documents[|documents| - 1];
      Log(documents[..|documents| - 1]) + EntriesOf(last, InOffsetOrder(last.operations))
  }

  function CatalogAfter(log: seq<Entry>): Catalog
    requires Located(log)
  {
    if log == [] then EMPTY_CATALOG
    else
      var e := log[|log| - 1];
      Perform(CatalogAfter(log[..|log| - 1]), OwnerOf(e), e.operation.action, WrittenAt(e))
  }

  // The paths of the operations that did not find their base, in order.
  function ReportedBy(log: seq<Entry>): seq<string>
    requires Located(log)
  {
    if log == [] then []
    else
      var e := log[|log| - 1];
      ReportedBy(log[..|log| - 1])
      + if Lacks(CatalogAfter(log[..|log| - 1]), OwnerOf(e), e.operation.action) then [e.document.path] else []
  }

  lemma {:induction false} OperationsArePerformed(r: Run, log: seq<Entry>, d: Document, operations: seq<Operation>)
    requires d.lineStarts != [] && Located(log) && NamesKept(r.schema)
    requires CatalogOf(r.schema) == CatalogAfter(log) && r.limitations == ReportedBy(log)
    ensures var after, more := RunOperations(r, d, operations), log + EntriesOf(d, operations);
            && NamesKept(after.schema) && Located(more)
            && CatalogOf(after.schema) == CatalogAfter(more) && after.limitations == ReportedBy(more)
  {
    hide NamesKept, CatalogOf, Perform, Step, MissesBase, Lacks, CatalogAfter, ReportedBy, RangeOf;
    if operations == [] {
      assert log + EntriesOf(d, operations) == log;
    } else {
      var n := |operations| - 1;
      OperationsArePerformed(r, log, d, operations[..n]);
      var before := RunOperations(r, d, operations[..n]);
      var front := log + EntriesOf(d, operations[..n]);
      assert log + EntriesOf(d, operations) == front + [Entry(d, operations[n])];
      OneMoreEntry(front, Entry(d, operations[n]));
      StepIsPerformed(before.schema, d, operations[n]);
      NamesStay(before.schema, d, operations[n]);
    }
  }

  lemma NamesStay(s: Schema, d: Document, op: Operation)
    requires d.lineStarts != [] && NamesKept(s)
    ensures NamesKept(Step(s, d, op))
  {
    hide *;
    StepMatches(s, d, op);
  }

  lemma OneMoreEntry(log: seq<Entry>, e: Entry)
    requires Located(log) && e.document.lineStarts != []
    ensures Located(log + [e])
    ensures CatalogAfter(log + [e]) == Perform(CatalogAfter(log), OwnerOf(e), e.operation.action, WrittenAt(e))
    ensures ReportedBy(log + [e])
            == ReportedBy(log)
               + if Lacks(CatalogAfter(log), OwnerOf(e), e.operation.action) then [e.document.path] else []
  {
    hide Perform, Lacks, RangeOf;
    assert (log + [e])[..|log + [e]| - 1] == log;
  }

  // The replay of all documents leaves the catalog of the log, and reports
  // exactly the operations of the log that lack their base.
  lemma {:induction false} ReplayIsPerformed(documents: seq<Document>)
    requires forall d :: d in documents ==> d.lineStarts != []
    ensures Located(Log(documents)) && NamesKept(RunDocuments(documents).schema)
    ensures CatalogOf(RunDocuments(documents).schema) == CatalogAfter(Log(documents))
    ensures RunDocuments(documents).limitations == ReportedBy(Log(documents))
  {
    hide NamesKept, CatalogOf, RunOperations, Perform;
    if documents == [] {
      NothingIsListed();
    } else {
      var n := |documents| - 1;
      ReplayIsPerformed(documents[..n]);
      OperationsArePerformed(RunDocuments(documents[..n]), Log(documents[..n]), documents[n],
                             InOffsetOrder(documents[n].operations));
    }
  }

  lemma NothingIsListed()
    ensures NamesKept(EMPTY_RUN.schema) && CatalogOf(EMPTY_RUN.schema) == EMPTY_CATALOG
  {
  }

  // --- who wrote an entry last ---------------------------------------------------

  datatype Item = TableItem(id: ObjectId) | ColumnItem(key: ColumnId) | EnumItem(id: ObjectId)

  // Where the catalog says an item was written.
  function CitedFor(c: Catalog, item: Item): Option<Location> {
    match item
    case TableItem(id) => if id in c.tables then Some(c.tables[id]) else None
    case ColumnItem(k) => if k in c.columns then Some(c.columns[k].at) else None
    case EnumItem(id) => if id in c.enums then Some(c.enums[id].at) else None
  }

  // The operation gives the item a value.
  predicate Writes(c: Catalog, e: Entry, item: Item) {
    var id, a := OwnerOf(e), e.operation.action;
    match item
    case TableItem(table) =>
      || (a.CreateTable? && table == id)
      || (a.RenameTable? && id in c.tables && table == ObjectId(id.namespace, a.newTarget))
    case ColumnItem(k) =>
      || (a.CreateTable? && k.table == id && Names(a.columns, k.column))
      || (a.RenameTable? && id in c.tables && k.table == ObjectId(id.namespace, a.newTarget)
          && ColumnId(id, k.column) in c.columns)
      || (a.AddColumn? && id in c.tables && k == ColumnId(id, a.column.name))
      || (a.AlterColumn? && k in c.columns && k == ColumnId(id, a.column.name))
      || (a.RenameColumn? && ColumnId(id, a.columnName) in c.columns && k == ColumnId(id, a.newColumnName))
      || (a.SetColumnNullability? && k in c.columns && k == ColumnId(id, a.columnName))
    case EnumItem(name) =>
      || (a.CreateEnum? && name == id)
      || (a.AddEnumValue? && id in c.enums && name == id)
      || (a.RenameEnum? && id in c.enums && name == ObjectId(id.namespace, a.newTarget))
  }

  // What is written cites its operation, and what is kept cites what it did.
  lemma WritingIsCited(c: Catalog, e: Entry, item: Item, at: Location)
    ensures var after := Perform(c, OwnerOf(e), e.operation.action, at);
            if Writes(c, e, item) then CitedFor(after, item) == Some(at)
            else CitedFor(after, item) == CitedFor(c, item) || CitedFor(after, item).None?
  {
    hide LastNamed, OutsideTable, MovedTo, Declared, Sort, Distinct;
    var id, a := OwnerOf(e), e.operation.action;
    if item.ColumnItem? {
      if a.CreateTable? {
        DeclaredIs(id, a.columns, at, item.key);
      } else if a.RenameTable? {
        MovedIs(c.columns, id, ObjectId(id.namespace, a.newTarget), at, item.key);
      } else if a.DropTable? {
        MovedIs(c.columns, id, id, at, item.key);
      }
    }
  }

  // Entry `i` of the log writes the item and no later one does.
  predicate LastWrite(log: seq<Entry>, i: nat, item: Item)
    requires Located(log)
  {
    && i < |log| && Writes(CatalogAfter(log[..i]), log[i], item)
    && forall j :: i < j < |log| ==> !Writes(CatalogAfter(log[..j]), log[j], item)
  }

  // Every table, column and enum a log leaves behind cites the path, the range
  // and the content hash of the last operation that wrote it.
  lemma {:induction false} LastWriterIsCited(log: seq<Entry>, item: Item) returns (i: nat)
    requires Located(log) && CitedFor(CatalogAfter(log), item).Some?
    ensures LastWrite(log, i, item)
    ensures CitedFor(CatalogAfter(log), item) == Some(WrittenAt(log[i]))
  {
    hide Writes, Perform, CitedFor, WrittenAt, CatalogAfter, LastWrite;
    if log == [] {
      NothingIsCited(item);
      assert false;
    } else {
      var n := |log| - 1;
      var front := log[..n];
      assert log == front + [log[n]];
      OneMoreEntry(front, log[n]);
      WritingIsCited(CatalogAfter(front), log[n], item, WrittenAt(log[n]));
      if Writes(CatalogAfter(front), log[n], item) {
        i := n;
        LastIsLast(log, item);
      } else {
        i := LastWriterIsCited(front, item);
        LastBefore(log, i, item);
      }
    }
  }

  lemma LastIsLast(log: seq<Entry>, item: Item)
    requires Located(log) && log != [] && Located(log[..|log| - 1])
    requires Writes(CatalogAfter(log[..|log| - 1]), log[|log| - 1], item)
    ensures LastWrite(log, |log| - 1, item)
  {
  }

  lemma LastBefore(log: seq<Entry>, i: nat, item: Item)
    requires Located(log) && log != [] && Located(log[..|log| - 1])
    requires LastWrite(log[..|log| - 1], i, item)
    requires !Writes(CatalogAfter(log[..|log| - 1]), log[|log| - 1], item)
    ensures LastWrite(log, i, item) && log[i] == log[..|log| - 1][i]
  {
    hide Writes, CatalogAfter;
    var front := log[..|log| - 1];
    assert log[..i] == front[..i];
    forall j | i < j < |log| ensures !Writes(CatalogAfter(log[..j]), log[j], item) {
      if j < |front| {
        assert log[..j] == front[..j];
      }
    }
  }

  lemma NothingIsCited(item: Item)
    ensures CitedFor(CatalogAfter([]), item).None?
  {
  }
}
