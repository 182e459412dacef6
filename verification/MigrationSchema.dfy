// What replaying migration files means: a nested schema of tables that hold
// their columns, the effect of each DDL operation on it, and whole runs.
module MigrationSchema {
  import opened Sorting
  import opened SourceRanges
  import opened TextOrder

  datatype Name = Name(schemaName: string, objectName: string)
  datatype Nullability = Nullable | NotNull | Unknown
  datatype Column = Column(name: string, dataType: string, nullable: Nullability)

  datatype Action =
    | CreateTable(columns: seq<Column>)
    | DropTable
    | RenameTable(newTarget: Name)
    | AddColumn(column: Column)
    | AlterColumn(column: Column)
    | DropColumn(columnName: string)
    | RenameColumn(columnName: string, newColumnName: string)
    | SetColumnNullability(columnName: string, nullable: bool)
    | CreateEnum(values: seq<string>)
    | AddEnumValue(value: string)
    | RenameEnum(newTarget: Name)
    | DropEnum

  datatype Operation = Operation(offset: nat, length: nat, target: Name, action: Action)

  datatype Document = Document(
    path: string, contentHash: string, namespace: string, lineStarts: seq<nat>, operations: seq<Operation>)

  datatype Location = Location(path: string, range: SourceRange, contentHash: string)
  datatype TableState = TableState(namespace: string, target: Name, at: Location)
  datatype ColumnState = ColumnState(namespace: string, target: Name, column: Column, at: Location)
  datatype EnumState = EnumState(namespace: string, target: Name, values: seq<string>, at: Location)

  datatype ObjectId = ObjectId(namespace: string, name: Name)
  datatype ColumnId = ColumnId(table: ObjectId, column: string)

  function TableOwner(t: TableState): ObjectId { ObjectId(t.namespace, t.target) }
  function EnumOwner(e: EnumState): ObjectId { ObjectId(e.namespace, e.target) }
  function ColumnOwner(c: ColumnState): ColumnId { ColumnId(ObjectId(c.namespace, c.target), c.column.name) }

  // --- the nested schema and the effect of one operation ---------------------

  datatype Table = Table(state: TableState, columns: map<string, ColumnState>)
  datatype Schema = Schema(tables: map<ObjectId, Table>, enums: map<ObjectId, EnumState>)

  function Locate(d: Document, op: Operation): Location
    requires d.lineStarts != []
  {
    Location(d.path, RangeOf(d.lineStarts, op.offset, op.length), d.contentHash)
  }

  function ColumnAt(d: Document, op: Operation, target: Name, column: Column): ColumnState
    requires d.lineStarts != []
  {
    ColumnState(d.namespace, target, column, Locate(d, op))
  }

  function WithColumns(d: Document, op: Operation, kept: map<string, ColumnState>, columns: seq<Column>)
      : map<string, ColumnState>
    requires d.lineStarts != []
  {
    if columns == [] then kept
    else
      var n := |columns| - 1;
      WithColumns(d, op, kept, columns[..n])[columns[n].name := ColumnAt(d, op, op.target, columns[n])]
  }

  predicate HasColumn(s: Schema, id: ObjectId, column: string) {
    id in s.tables && column in s.tables[id].columns
  }

  // The object an operation needs and does not find.
  predicate MissesBase(s: Schema, d: Document, op: Operation) {
    var id := ObjectId(d.namespace, op.target);
    match op.action
    case CreateTable(_) => false
    case DropTable => id !in s.tables
    case RenameTable(_) => id !in s.tables
    case AddColumn(_) => id !in s.tables
    case AlterColumn(column) => !HasColumn(s, id, column.name)
    case DropColumn(name) => !HasColumn(s, id, name)
    case RenameColumn(name, _) => !HasColumn(s, id, name)
    case SetColumnNullability(name, _) => !HasColumn(s, id, name)
    case CreateEnum(_) => false
    case AddEnumValue(_) => id !in s.enums
    case RenameEnum(_) => id !in s.enums
    case DropEnum => id !in s.enums
  }

  function Step(s: Schema, d: Document, op: Operation): Schema
    requires d.lineStarts != []
  {
    if MissesBase(s, d, op) then s else Effect(s, d, op)
  }

  // What an operation does to a schema that holds the object it needs.
  function Effect(s: Schema, d: Document, op: Operation): Schema
    requires d.lineStarts != [] && !MissesBase(s, d, op)
  {
    var id := ObjectId(d.namespace, op.target);
    var at := Locate(d, op);
    match op.action
    case CreateTable(columns) =>
      var kept := if id in s.tables then s.tables[id].columns else map[];
      s.(tables := s.tables[id := Table(TableState(d.namespace, op.target, at), WithColumns(d, op, kept, columns))])
    case DropTable =>
      s.(tables := s.tables - {id})
    case RenameTable(newTarget) =>
      var newId := ObjectId(d.namespace, newTarget);
      var moved := map c | c in s.tables[id].columns :: ColumnAt(d, op, newTarget, s.tables[id].columns[c].column);
      var others := s.tables - {id};
      var kept := if newId in others then others[newId].columns else map[];
      s.(tables := others[newId := Table(TableState(d.namespace, newTarget, at), kept + moved)])
    case AddColumn(column) =>
      PutColumn(s, id, ColumnAt(d, op, op.target, column))
    case AlterColumn(column) =>
      var prior := s.tables[id].columns[column.name].column.nullable;
      var nullable := if column.nullable == Unknown then prior else column.nullable;
      PutColumn(s, id, ColumnAt(d, op, op.target, column.(nullable := nullable)))
    case DropColumn(name) =>
      TakeColumn(s, id, name)
    case RenameColumn(name, newName) =>
      var column := s.tables[id].columns[name].column.(name := newName);
      PutColumn(TakeColumn(s, id, name), id, ColumnAt(d, op, op.target, column))
    case SetColumnNullability(name, nullable) =>
      var column := s.tables[id].columns[name].column.(nullable := if nullable then Nullable else NotNull);
      PutColumn(s, id, ColumnAt(d, op, op.target, column))
    case CreateEnum(values) =>
      s.(enums := s.enums[id := EnumState(d.namespace, op.target, Sort(values, TextLeq), at)])
    case AddEnumValue(value) =>
      var values := Sort(Distinct(s.enums[id].values + [value]), TextLeq);
      s.(enums := s.enums[id := EnumState(d.namespace, op.target, values, at)])
    case RenameEnum(newTarget) =>
      var renamed := EnumState(d.namespace, newTarget, s.enums[id].values, at);
      s.(enums := (s.enums - {id})[ObjectId(d.namespace, newTarget) := renamed])
    case DropEnum =>
      s.(enums := s.enums - {id})
  }

  function PutColumn(s: Schema, id: ObjectId, c: ColumnState): Schema
    requires id in s.tables
  {
    s.(tables := s.tables[id := s.tables[id].(columns := s.tables[id].columns[c.column.name := c])])
  }

  function TakeColumn(s: Schema, id: ObjectId, column: string): Schema
    requires id in s.tables
  {
    s.(tables := s.tables[id := s.tables[id].(columns := s.tables[id].columns - {column})])
  }

  // --- whole runs -----------------------------------------------------------

  datatype Run = Run(schema: Schema, limitations: seq<string>)

  const EMPTY_RUN := Run(Schema(map[], map[]), [])

  function ByOffset(): (Operation, Operation) -> bool {
    (l: Operation, r: Operation) => l.offset <= r.offset
  }

  function InOffsetOrder(operations: seq<Operation>): seq<Operation> {
    Sort(operations, ByOffset())
  }

  function SameOffset(op: Operation): Operation -> bool {
    (other: Operation) => other.offset == op.offset
  }

  // Operations run by offset, and those that share one in their listed order.
  lemma OffsetOrderIsStable(operations: seq<Operation>, op: Operation)
    ensures var s := InOffsetOrder(operations); forall i, j :: 0 <= i < j < |s| ==> s[i].offset <= s[j].offset
    ensures multiset(InOffsetOrder(operations)) == multiset(operations)
    ensures Keep(InOffsetOrder(operations), SameOffset(op)) == Keep(operations, SameOffset(op))
  {
    hide Sort, Keep;
    SortSorts(operations, ByOffset());
    SortIsStable(operations, ByOffset(), op, SameOffset(op));
  }

  function RunOperations(r: Run, d: Document, operations: seq<Operation>): Run
    requires d.lineStarts != []
  {
    if operations == [] then r
    else
      var n := |operations| - 1;
      var before := RunOperations(r, d, operations[..n]);
      Run(Step(before.schema, d, operations[n]),
          before.limitations + if MissesBase(before.schema, d, operations[n]) then [d.path] else [])
  }

  function RunDocuments(documents: seq<Document>): Run
    requires forall d :: d in documents ==> d.lineStarts != []
  {
    if documents == [] then EMPTY_RUN
    else
      var n := |documents| - 1;
      RunOperations(RunDocuments(documents[..n]), documents[n], InOffsetOrder(documents[n].operations))
  }

  // An operation leaves every table it does not name exactly as it was.
  lemma OtherTablesUntouched(s: Schema, d: Document, op: Operation, id: ObjectId)
    requires d.lineStarts != [] && id != ObjectId(d.namespace, op.target)
    requires op.action.RenameTable? ==> id != ObjectId(d.namespace, op.action.newTarget)
    ensures id in Step(s, d, op).tables <==> id in s.tables
    ensures id in s.tables ==> Step(s, d, op).tables[id] == s.tables[id]
  {
    hide Locate;
  }

  // --- a schema without source locations -------------------------------------

  // Columns by name under each table, and the values of each enum.
  datatype Database = Database(tables: map<ObjectId, map<string, Column>>, enums: map<ObjectId, set<string>>)

  function ColumnShapes(columns: map<string, ColumnState>): map<string, Column> {
    map c | c in columns :: columns[c].column
  }

  function Shape(s: Schema): Database {
    Database(map id | id in s.tables :: ColumnShapes(s.tables[id].columns),
             map id | id in s.enums :: (set v | v in s.enums[id].values))
  }

  // Renaming to an unused name moves the table's entry and nothing else.
  lemma RenameToUnusedName(s: Schema, d: Document, op: Operation, newTarget: Name)
    requires d.lineStarts != [] && op.action == RenameTable(newTarget)
    requires ObjectId(d.namespace, op.target) in s.tables && ObjectId(d.namespace, newTarget) !in s.tables
    ensures var id, newId := ObjectId(d.namespace, op.target), ObjectId(d.namespace, newTarget);
            Shape(Step(s, d, op))
            == Shape(s).(tables := (Shape(s).tables - {id})[newId := Shape(s).tables[id]])
  {
    hide Step;
    var id, newId := ObjectId(d.namespace, op.target), ObjectId(d.namespace, newTarget);
    var after := Step(s, d, op);
    var moved := RenamedEntry(s, d, op, newTarget);
    forall j | j in s.tables && j != id ensures Shape(after).tables[j] == Shape(s).tables[j] {
      assert after.tables[j] == s.tables[j];
    }
    assert Shape(after).tables == (Shape(s).tables - {id})[newId := Shape(s).tables[id]];
  }

  lemma RenamedEntry(s: Schema, d: Document, op: Operation, newTarget: Name) returns (moved: Table)
    requires d.lineStarts != [] && op.action == RenameTable(newTarget)
    requires ObjectId(d.namespace, op.target) in s.tables && ObjectId(d.namespace, newTarget) !in s.tables
    ensures var id, newId := ObjectId(d.namespace, op.target), ObjectId(d.namespace, newTarget);
            && Step(s, d, op) == s.(tables := (s.tables - {id})[newId := moved])
            && ColumnShapes(moved.columns) == ColumnShapes(s.tables[id].columns)
  {
    hide Locate;
    var id, newId := ObjectId(d.namespace, op.target), ObjectId(d.namespace, newTarget);
    moved := Effect(s, d, op).tables[newId];
  }

  lemma RenameRoundTrip(s: Schema, d: Document, there: Operation, back: Operation, from: Name, to: Name)
    requires d.lineStarts != []
    requires there.target == from && there.action == RenameTable(to)
    requires back.target == to && back.action == RenameTable(from)
    requires ObjectId(d.namespace, from) in s.tables && ObjectId(d.namespace, to) !in s.tables
    ensures Shape(Step(Step(s, d, there), d, back)) == Shape(s)
  {
    hide Step, Shape;
    var mid := Step(s, d, there);
    RenameToUnusedName(s, d, there, to);
    ShapeKeys(s);
    ShapeKeys(mid);
    RenameToUnusedName(mid, d, back, from);
    var id, newId, tables := ObjectId(d.namespace, from), ObjectId(d.namespace, to), Shape(s).tables;
    assert ((tables - {id})[newId := tables[id]] - {newId})[id := tables[id]] == tables;
  }

  lemma ShapeKeys(s: Schema)
    ensures Shape(s).tables.Keys == s.tables.Keys
  {
  }
}
