// A database that knows no source locations and refuses what a migration tool
// should refuse, and the replay measured against it.
module StrictDdl {
  import opened Outcomes
  import opened Sorting
  import opened TextOrder
  import opened MigrationSchema

  function ColumnNames(columns: seq<Column>): seq<string> {
    seq(|columns|, i requires 0 <= i < |columns| => columns[i].name)
  }

  function ColumnsByName(columns: seq<Column>): map<string, Column> {
    if columns == [] then map[]
    else
      var n := |columns| - 1;
      ColumnsByName(columns[..n])[columns[n].name := columns[n]]
  }

  predicate Has(db: Database, id: ObjectId, column: string) {
    id in db.tables && column in db.tables[id]
  }

  // Every object the statement works on exists.
  predicate Finds(db: Database, id: ObjectId, action: Action) {
    match action
    case CreateTable(_) => true
    case CreateEnum(_) => true
    case DropTable => id in db.tables
    case RenameTable(_) => id in db.tables
    case AddColumn(_) => id in db.tables
    case AlterColumn(column) => Has(db, id, column.name)
    case DropColumn(name) => Has(db, id, name)
    case RenameColumn(name, _) => Has(db, id, name)
    case SetColumnNullability(name, _) => Has(db, id, name)
    case AddEnumValue(_) => id in db.enums
    case RenameEnum(_) => id in db.enums
    case DropEnum => id in db.enums
  }

  // Every name the statement introduces is new, and it introduces none twice.
  predicate Introduces(db: Database, id: ObjectId, action: Action) {
    match action
    case CreateTable(columns) => id !in db.tables && NoDuplicates(ColumnNames(columns))
    case RenameTable(newTarget) => ObjectId(id.namespace, newTarget) !in db.tables
    case AddColumn(column) => !Has(db, id, column.name)
    case RenameColumn(_, newName) => !Has(db, id, newName)
    case CreateEnum(values) => id !in db.enums && NoDuplicates(values)
    case AddEnumValue(value) => id in db.enums ==> value !in db.enums[id]
    case RenameEnum(newTarget) => ObjectId(id.namespace, newTarget) !in db.enums
    case _ => true
  }

  function WithTable(db: Database, id: ObjectId, columns: map<string, Column>): Database {
    db.(tables := db.tables[id := columns])
  }

  // One statement; refused when an object is absent or a name is taken.
  function Execute(db: Database, id: ObjectId, action: Action): Option<Database> {
    if !Finds(db, id, action) || !Introduces(db, id, action) then None
    else
      match action
      case CreateTable(columns) => Some(WithTable(db, id, ColumnsByName(columns)))
      case DropTable => Some(db.(tables := db.tables - {id}))
      case RenameTable(newTarget) =>
        Some(db.(tables := (db.tables - {id})[ObjectId(id.namespace, newTarget) := db.tables[id]]))
      case AddColumn(column) => Some(WithTable(db, id, db.tables[id][column.name := column]))
      case AlterColumn(column) =>
        var kept := db.tables[id][column.name].nullable;
        var altered := if column.nullable == Unknown then column.(nullable := kept) else column;
        Some(WithTable(db, id, db.tables[id][column.name := altered]))
      case DropColumn(name) => Some(WithTable(db, id, db.tables[id] - {name}))
      case RenameColumn(name, newName) =>
        var renamed := db.tables[id][name].(name := newName);
        Some(WithTable(db, id, (db.tables[id] - {name})[newName := renamed]))
      case SetColumnNullability(name, nullable) =>
        var column := db.tables[id][name].(nullable := if nullable then Nullable else NotNull);
        Some(WithTable(db, id, db.tables[id][name := column]))
      case CreateEnum(values) => Some(db.(enums := db.enums[id := (set v | v in values)]))
      case AddEnumValue(value) => Some(db.(enums := db.enums[id := db.enums[id] + {value}]))
      case RenameEnum(newTarget) =>
        Some(db.(enums := (db.enums - {id})[ObjectId(id.namespace, newTarget) := db.enums[id]]))
      case DropEnum => Some(db.(enums := db.enums - {id}))
  }

  function ExecuteAll(db: Option<Database>, d: Document, operations: seq<Operation>): Option<Database> {
    if operations == [] then db
    else
      var last := operations[|operations| - 1];
      match ExecuteAll(db, d, operations[..|operations| - 1])
      case None => None
      case Some(before) => Execute(before, ObjectId(d.namespace, last.target), last.action)
  }

  const EMPTY_DATABASE := Database(map[], map[])

  // The whole log, from an empty database; nothing once a statement is refused.
  function ExecuteLog(documents: seq<Document>): Option<Database> {
    if documents == [] then Some(EMPTY_DATABASE)
    else
      var last := documents[|documents| - 1];
      ExecuteAll(ExecuteLog(documents[..|documents| - 1]), last, InOffsetOrder(last.operations))
  }

  // --- the replay against the strict database --------------------------------

  // The operation creates, adds or renames onto a name the replay already holds.
  predicate Lands(s: Schema, d: Document, op: Operation) {
    var id := ObjectId(d.namespace, op.target);
    match op.action
    case CreateTable(columns) => id in s.tables || !NoDuplicates(ColumnNames(columns))
    case RenameTable(newTarget) => ObjectId(d.namespace, newTarget) in s.tables
    case AddColumn(column) => HasColumn(s, id, column.name)
    case RenameColumn(_, newName) => HasColumn(s, id, newName)
    case CreateEnum(values) => id in s.enums || !NoDuplicates(values)
    case AddEnumValue(value) => id in s.enums && value in s.enums[id].values
    case RenameEnum(newTarget) => ObjectId(d.namespace, newTarget) in s.enums
    case _ => false
  }

  // No operation of the replay lands on an occupied name.
  predicate LandsNowhere(r: Run, d: Document, operations: seq<Operation>)
    requires d.lineStarts != []
  {
    operations == [] ||
    var n := |operations| - 1;
    LandsNowhere(r, d, operations[..n]) && !Lands(RunOperations(r, d, operations[..n]).schema, d, operations[n])
  }

  predicate LogLandsNowhere(documents: seq<Document>)
    requires forall d :: d in documents ==> d.lineStarts != []
  {
    documents == [] ||
    var n := |documents| - 1;
    && LogLandsNowhere(documents[..n])
    && LandsNowhere(RunDocuments(documents[..n]), documents[n], InOffsetOrder(documents[n].operations))
  }

  // Columns are filed under their own names.
  ghost predicate NamesKept(s: Schema) {
    forall id, c :: HasColumn(s, id, c) ==> s.tables[id].columns[c].column.name == c
  }

  ghost predicate Filed(columns: map<string, ColumnState>) {
    forall c :: c in columns ==> columns[c].column.name == c
  }

  lemma {:induction false} CreatedColumns(d: Document, op: Operation, kept: map<string, ColumnState>,
      columns: seq<Column>)
    requires d.lineStarts != []
    ensures ColumnShapes(WithColumns(d, op, kept, columns)) == ColumnShapes(kept) + ColumnsByName(columns)
    ensures Filed(kept) ==> Filed(WithColumns(d, op, kept, columns))
  {
    hide Locate, ColumnShapes, Filed;
    if columns == [] {
      assert ColumnShapes(kept) + map[] == ColumnShapes(kept);
    } else {
      var n := |columns| - 1;
      CreatedColumns(d, op, kept, columns[..n]);
      OneMoreShape(WithColumns(d, op, kept, columns[..n]), ColumnAt(d, op, op.target, columns[n]));
    }
  }

  lemma OneMoreShape(columns: map<string, ColumnState>, c: ColumnState)
    ensures ColumnShapes(columns[c.column.name := c]) == ColumnShapes(columns)[c.column.name := c.column]
    ensures Filed(columns) ==> Filed(columns[c.column.name := c])
  {
  }

  lemma ShapeTable(s: Schema, id: ObjectId, t: Table)
    ensures Shape(s.(tables := s.tables[id := t])) == WithTable(Shape(s), id, ColumnShapes(t.columns))
  {
    assert Shape(s.(tables := s.tables[id := t])).tables == Shape(s).tables[id := ColumnShapes(t.columns)];
  }

  lemma ShapeWithoutTable(s: Schema, id: ObjectId)
    ensures Shape(s.(tables := s.tables - {id})) == Shape(s).(tables := Shape(s).tables - {id})
  {
    assert Shape(s.(tables := s.tables - {id})).tables == Shape(s).tables - {id};
  }

  lemma ShapeEnum(s: Schema, id: ObjectId, e: EnumState, values: set<string>)
    requires forall v :: v in e.values <==> v in values
    ensures Shape(s.(enums := s.enums[id := e])) == Shape(s).(enums := Shape(s).enums[id := values])
  {
    assert (set v | v in e.values) == values;
    assert Shape(s.(enums := s.enums[id := e])).enums == Shape(s).enums[id := values];
  }

  lemma ShapeWithoutEnum(s: Schema, id: ObjectId)
    ensures Shape(s.(enums := s.enums - {id})) == Shape(s).(enums := Shape(s).enums - {id})
  {
    assert Shape(s.(enums := s.enums - {id})).enums == Shape(s).enums - {id};
  }

  lemma ShapeHas(s: Schema, id: ObjectId, c: string)
    ensures id in Shape(s).tables <==> id in s.tables
    ensures Has(Shape(s), id, c) <==> HasColumn(s, id, c)
    ensures Has(Shape(s), id, c) ==> Shape(s).tables[id][c] == s.tables[id].columns[c].column
    ensures id in Shape(s).enums <==> id in s.enums
    ensures id in s.enums ==> forall v :: v in Shape(s).enums[id] <==> v in s.enums[id].values
  {
  }

  // The two notions of absence agree, and so do the two notions of a taken name.
  lemma SameConditions(s: Schema, d: Document, op: Operation)
    ensures var id := ObjectId(d.namespace, op.target);
            && (Finds(Shape(s), id, op.action) <==> !MissesBase(s, d, op))
            && (Introduces(Shape(s), id, op.action) <==> !Lands(s, d, op))
  {
    hide Shape;
    var id := ObjectId(d.namespace, op.target);
    match op.action
    case CreateTable(_) => ShapeHas(s, id, "");
    case DropTable => ShapeHas(s, id, "");
    case RenameTable(newTarget) =>
      ShapeHas(s, id, "");
      ShapeHas(s, ObjectId(d.namespace, newTarget), "");
    case AddColumn(column) => ShapeHas(s, id, column.name);
    case AlterColumn(column) => ShapeHas(s, id, column.name);
    case DropColumn(name) => ShapeHas(s, id, name);
    case RenameColumn(name, newName) =>
      ShapeHas(s, id, name);
      ShapeHas(s, id, newName);
    case SetColumnNullability(name, _) => ShapeHas(s, id, name);
    case CreateEnum(_) => ShapeHas(s, id, "");
    case AddEnumValue(_) => ShapeHas(s, id, "");
    case RenameEnum(newTarget) =>
      ShapeHas(s, id, "");
      ShapeHas(s, ObjectId(d.namespace, newTarget), "");
    case DropEnum => ShapeHas(s, id, "");
  }

  lemma PutShape(s: Schema, id: ObjectId, c: ColumnState)
    requires id in s.tables
    ensures Shape(PutColumn(s, id, c)) == WithTable(Shape(s), id, Shape(s).tables[id][c.column.name := c.column])
    ensures NamesKept(s) ==> NamesKept(PutColumn(s, id, c))
  {
    var columns := s.tables[id].columns;
    ShapeTable(s, id, s.tables[id].(columns := columns[c.column.name := c]));
    assert ColumnShapes(columns[c.column.name := c]) == ColumnShapes(columns)[c.column.name := c.column];
    if NamesKept(s) {
      forall j, k | HasColumn(PutColumn(s, id, c), j, k)
        ensures PutColumn(s, id, c).tables[j].columns[k].column.name == k
      {
        assert (j == id && k == c.column.name) || HasColumn(s, j, k);
      }
    }
  }

  lemma TakeShape(s: Schema, id: ObjectId, c: string)
    requires id in s.tables
    ensures Shape(TakeColumn(s, id, c)) == WithTable(Shape(s), id, Shape(s).tables[id] - {c})
    ensures NamesKept(s) ==> NamesKept(TakeColumn(s, id, c))
  {
    var columns := s.tables[id].columns;
    ShapeTable(s, id, s.tables[id].(columns := columns - {c}));
    assert ColumnShapes(columns - {c}) == ColumnShapes(columns) - {c};
    if NamesKept(s) {
      forall j, k | HasColumn(TakeColumn(s, id, c), j, k)
        ensures TakeColumn(s, id, c).tables[j].columns[k].column.name == k
      {
        assert HasColumn(s, j, k);
      }
    }
  }

  lemma TableOperationMatches(s: Schema, d: Document, op: Operation)
    requires d.lineStarts != [] && NamesKept(s) && !MissesBase(s, d, op) && !Lands(s, d, op)
    requires op.action.CreateTable? || op.action.DropTable? || op.action.RenameTable?
    ensures Execute(Shape(s), ObjectId(d.namespace, op.target), op.action) == Some(Shape(Effect(s, d, op)))
  {
    hide Shape, NamesKept, Locate;
    SameConditions(s, d, op);
    var id := ObjectId(d.namespace, op.target);
    match op.action
    case CreateTable(columns) =>
      CreatedColumns(d, op, map[], columns);
      assert ColumnShapes(map[]) == map[] && map[] + ColumnsByName(columns) == ColumnsByName(columns);
      ShapeTable(s, id, Effect(s, d, op).tables[id]);
    case DropTable =>
      ShapeWithoutTable(s, id);
    case RenameTable(newTarget) =>
      var newId, columns := ObjectId(d.namespace, newTarget), s.tables[id].columns;
      ShapeWithoutTable(s, id);
      var after := Effect(s, d, op).tables[newId];
      ShapeTable(s.(tables := s.tables - {id}), newId, after);
      ShapeOf(s, id);
      assert ColumnShapes(after.columns) == ColumnShapes(columns);
  }

  lemma ShapeOf(s: Schema, id: ObjectId)
    requires id in s.tables
    ensures id in Shape(s).tables && Shape(s).tables[id] == ColumnShapes(s.tables[id].columns)
  {
  }

  lemma ColumnOperationMatches(s: Schema, d: Document, op: Operation)
    requires d.lineStarts != [] && NamesKept(s) && !MissesBase(s, d, op) && !Lands(s, d, op)
    requires op.action.AddColumn? || op.action.AlterColumn? || op.action.DropColumn? || op.action.RenameColumn?
             || op.action.SetColumnNullability?
    ensures Execute(Shape(s), ObjectId(d.namespace, op.target), op.action) == Some(Shape(Effect(s, d, op)))
  {
    hide Shape, Locate;
    SameConditions(s, d, op);
    var id := ObjectId(d.namespace, op.target);
    ShapeHas(s, id, "");
    match op.action
    case AddColumn(column) =>
      PutShape(s, id, ColumnAt(d, op, op.target, column));
    case AlterColumn(column) =>
      ShapeHas(s, id, column.name);
      var prior := s.tables[id].columns[column.name].column.nullable;
      var altered := column.(nullable := if column.nullable == Unknown then prior else column.nullable);
      PutShape(s, id, ColumnAt(d, op, op.target, altered));
    case DropColumn(name) =>
      TakeShape(s, id, name);
    case RenameColumn(name, newName) =>
      ShapeHas(s, id, name);
      TakeShape(s, id, name);
      var renamed := s.tables[id].columns[name].column.(name := newName);
      var taken := TakeColumn(s, id, name);
      PutShape(taken, id, ColumnAt(d, op, op.target, renamed));
      var tables, left := Shape(s).tables, Shape(s).tables[id] - {name};
      assert tables[id := left][id := left[newName := renamed]] == tables[id := left[newName := renamed]];
    case SetColumnNullability(name, nullable) =>
      ShapeHas(s, id, name);
      assert s.tables[id].columns[name].column.name == name;
      var column := s.tables[id].columns[name].column.(nullable := if nullable then Nullable else NotNull);
      PutShape(s, id, ColumnAt(d, op, op.target, column));
  }

  lemma EnumOperationMatches(s: Schema, d: Document, op: Operation)
    requires d.lineStarts != [] && !MissesBase(s, d, op) && !Lands(s, d, op)
    requires op.action.CreateEnum? || op.action.AddEnumValue? || op.action.RenameEnum? || op.action.DropEnum?
    ensures Execute(Shape(s), ObjectId(d.namespace, op.target), op.action) == Some(Shape(Effect(s, d, op)))
  {
    hide Shape, Locate, Sort, Distinct;
    SameConditions(s, d, op);
    var id := ObjectId(d.namespace, op.target);
    ShapeHas(s, id, "");
    match op.action
    case CreateEnum(values) =>
      SameElements(Sort(values, TextLeq), values);
      ShapeEnum(s, id, Effect(s, d, op).enums[id], set v | v in values);
    case AddEnumValue(value) =>
      var grown := Distinct(s.enums[id].values + [value]);
      SameElements(Sort(grown, TextLeq), grown);
      ShapeEnum(s, id, Effect(s, d, op).enums[id], Shape(s).enums[id] + {value});
    case RenameEnum(newTarget) =>
      var newId := ObjectId(d.namespace, newTarget);
      ShapeWithoutEnum(s, id);
      ShapeEnum(s.(enums := s.enums - {id}), newId, Effect(s, d, op).enums[newId], Shape(s).enums[id]);
    case DropEnum =>
      ShapeWithoutEnum(s, id);
  }

  lemma EffectKeepsNames(s: Schema, d: Document, op: Operation)
    requires d.lineStarts != [] && NamesKept(s) && !MissesBase(s, d, op)
    ensures NamesKept(Effect(s, d, op))
  {
    hide Locate, Shape, WithColumns;
    var id, after := ObjectId(d.namespace, op.target), Effect(s, d, op);
    match op.action
    case CreateTable(columns) =>
      var kept := if id in s.tables then s.tables[id].columns else map[];
      assert Filed(kept) by {
        forall c | c in kept ensures kept[c].column.name == c { assert HasColumn(s, id, c); }
      }
      CreatedColumns(d, op, kept, columns);
      forall j, k | HasColumn(after, j, k) ensures after.tables[j].columns[k].column.name == k {
        assert j == id || HasColumn(s, j, k);
      }
    case RenameTable(newTarget) =>
      var newId := ObjectId(d.namespace, newTarget);
      forall j, k | HasColumn(after, j, k) ensures after.tables[j].columns[k].column.name == k {
        assert HasColumn(s, j, k) || HasColumn(s, id, k);
      }
    case DropTable =>
      forall j, k | HasColumn(after, j, k) ensures after.tables[j].columns[k].column.name == k {
        assert HasColumn(s, j, k);
      }
    case AddColumn(column) => PutShape(s, id, ColumnAt(d, op, op.target, column));
    case AlterColumn(column) =>
      var prior := s.tables[id].columns[column.name].column.nullable;
      var altered := column.(nullable := if column.nullable == Unknown then prior else column.nullable);
      PutShape(s, id, ColumnAt(d, op, op.target, altered));
    case DropColumn(name) => TakeShape(s, id, name);
    case RenameColumn(name, newName) =>
      TakeShape(s, id, name);
      var renamed := s.tables[id].columns[name].column.(name := newName);
      PutShape(TakeColumn(s, id, name), id, ColumnAt(d, op, op.target, renamed));
    case SetColumnNullability(name, nullable) =>
      var column := s.tables[id].columns[name].column.(nullable := if nullable then Nullable else NotNull);
      PutShape(s, id, ColumnAt(d, op, op.target, column));
    case _ =>
      forall j, k | HasColumn(after, j, k) ensures after.tables[j].columns[k].column.name == k {
        assert HasColumn(s, j, k);
      }
  }

  // One step: the strict database refuses it exactly when the replay misses
  // something or lands on a taken name, and otherwise does what the replay does.
  lemma StepMatches(s: Schema, d: Document, op: Operation)
    requires d.lineStarts != [] && NamesKept(s)
    ensures Execute(Shape(s), ObjectId(d.namespace, op.target), op.action)
            == if MissesBase(s, d, op) || Lands(s, d, op) then None else Some(Shape(Effect(s, d, op)))
    ensures NamesKept(Step(s, d, op))
  {
    hide NamesKept, Shape, Effect;
    SameConditions(s, d, op);
    if !MissesBase(s, d, op) {
      EffectKeepsNames(s, d, op);
      if !Lands(s, d, op) {
        var a := op.action;
        if a.CreateTable? || a.DropTable? || a.RenameTable? {
          TableOperationMatches(s, d, op);
        } else if a.CreateEnum? || a.AddEnumValue? || a.RenameEnum? || a.DropEnum? {
          EnumOperationMatches(s, d, op);
        } else {
          ColumnOperationMatches(s, d, op);
        }
      }
    }
  }

  lemma {:induction false} OperationsMatch(r: Run, db: Option<Database>, d: Document, operations: seq<Operation>,
      landed: bool)
    requires d.lineStarts != [] && NamesKept(r.schema)
    requires db == if r.limitations == [] && !landed then Some(Shape(r.schema)) else None
    ensures var after := RunOperations(r, d, operations);
            && NamesKept(after.schema)
            && ExecuteAll(db, d, operations)
               == if after.limitations == [] && !landed && LandsNowhere(r, d, operations)
                  then Some(Shape(after.schema)) else None
  {
    hide NamesKept, Shape, Execute, Step, MissesBase, Lands;
    if operations != [] {
      var n := |operations| - 1;
      OperationsMatch(r, db, d, operations[..n], landed);
      var before := RunOperations(r, d, operations[..n]);
      StepMatches(before.schema, d, operations[n]);
      StepIs(before.schema, d, operations[n]);
    }
  }

  lemma StepIs(s: Schema, d: Document, op: Operation)
    requires d.lineStarts != []
    ensures Step(s, d, op) == if MissesBase(s, d, op) then s else Effect(s, d, op)
  {
  }

  // The strict database accepts the whole log exactly when the replay records
  // no missing base and never lands on a taken name; both then hold the same.
  lemma {:induction false} StrictAcceptsExactly(documents: seq<Document>)
    requires forall d :: d in documents ==> d.lineStarts != []
    ensures var after := RunDocuments(documents);
            && NamesKept(after.schema)
            && ExecuteLog(documents)
               == if after.limitations == [] && LogLandsNowhere(documents) then Some(Shape(after.schema)) else None
  {
    hide NamesKept, Shape, ExecuteAll, RunOperations, LandsNowhere;
    if documents == [] {
      NothingMatches();
    } else {
      var n := |documents| - 1;
      StrictAcceptsExactly(documents[..n]);
      OperationsMatch(RunDocuments(documents[..n]), ExecuteLog(documents[..n]), documents[n],
                      InOffsetOrder(documents[n].operations), !LogLandsNowhere(documents[..n]));
    }
  }

  lemma NothingMatches()
    ensures NamesKept(EMPTY_RUN.schema) && Shape(EMPTY_RUN.schema) == EMPTY_DATABASE
  {
  }

  // Creating a table again is not reported, and leaves its old columns in place.
  lemma RecreatedTablesKeepColumns(d: Document, first: Column, second: Column)
    requires d.lineStarts != [] && first.name != second.name
    requires d.operations == [Operation(0, 1, Name("s", "t"), CreateTable([first])),
                              Operation(1, 1, Name("s", "t"), CreateTable([second]))]
    ensures var after, id := RunDocuments([d]), ObjectId(d.namespace, Name("s", "t"));
            && after.limitations == [] && HasColumn(after.schema, id, first.name)
            && HasColumn(after.schema, id, second.name)
            && ExecuteLog([d]).None?
  {
    hide Locate;
    var ops := d.operations;
    assert [d][..0] == [] && ops[..1] == [ops[0]] && [ops[0]][..0] == [] && ops[1..] == [ops[1]];
    SortOfSorted(ops, ByOffset());
    var r0 := EMPTY_RUN;
    assert RunOperations(r0, d, [ops[0]]) == Run(Step(r0.schema, d, ops[0]), []) by {
      assert RunOperations(r0, d, []) == r0;
    }
    var r1 := RunOperations(r0, d, [ops[0]]);
    assert RunOperations(r0, d, ops) == Run(Step(r1.schema, d, ops[1]), []);
    assert RunDocuments([d]) == RunOperations(r0, d, ops);
    assert [first][..0] == [] && [second][..0] == [];
    OneColumn(d, ops[0], map[], first);
    OneColumn(d, ops[1], r1.schema.tables[ObjectId(d.namespace, Name("s", "t"))].columns, second);
    var id := ObjectId(d.namespace, Name("s", "t"));
    assert HasColumn(r1.schema, id, first.name);
    assert Lands(r1.schema, d, ops[1]);
    StrictAcceptsExactly([d]);
  }

  lemma OneColumn(d: Document, op: Operation, kept: map<string, ColumnState>, column: Column)
    requires d.lineStarts != []
    ensures WithColumns(d, op, kept, [column]) == kept[column.name := ColumnAt(d, op, op.target, column)]
  {
    assert [column][..0] == [];
    assert WithColumns(d, op, kept, []) == kept;
  }
}
