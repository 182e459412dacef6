// The replay as the program performs it: three flat maps keyed by NUL-joined
// names, changed in place, with scans over key prefixes. It is proved against
// the nested schema.
module MigrationReplay {
  import opened Sorting
  import opened StringKeys
  import opened TextOrder
  import opened MigrationSchema
  import opened StrictDdl
  import opened MigrationCatalog

  // --- keys ---------------------------------------------------------------

  function ObjectKey(id: ObjectId): string {
    id.namespace + NUL + (id.name.schemaName + NUL + id.name.objectName)
  }

  function ColumnKey(id: ColumnId): string {
    ObjectKey(id.table) + NUL + id.column
  }

  predicate NulFreeId(id: ObjectId) {
    NulFree(id.namespace) && NulFree(id.name.schemaName) && NulFree(id.name.objectName)
  }

  // The scan `startsWith(tableKey + NUL)` selects the columns of one table.
  lemma PrefixScanIsExact(table: ObjectId, column: ColumnId)
    requires NulFreeId(table) && NulFreeId(column.table)
    ensures ObjectKey(table) + NUL <= ColumnKey(column) <==> table == column.table
  {
    var a, b := table, column.table;
    if a == b {
      assert ColumnKey(column)[..|ObjectKey(a) + NUL|] == ObjectKey(a) + NUL;
    } else if ObjectKey(a) + NUL <= ColumnKey(column) {
      var x := a.name.schemaName + NUL + (a.name.objectName + NUL);
      var y := b.name.schemaName + NUL + (b.name.objectName + NUL + column.column);
      assert ObjectKey(a) + NUL == a.namespace + NUL + x;
      assert ColumnKey(column) == b.namespace + NUL + y;
      GluedPrefix(a.namespace, x, b.namespace, y);
      GluedPrefix(a.name.schemaName, a.name.objectName + NUL, b.name.schemaName,
                  b.name.objectName + NUL + column.column);
      assert a.name.objectName + NUL == a.name.objectName + NUL + "";
      GluedPrefix(a.name.objectName, "", b.name.objectName, column.column);
    }
  }

  lemma ColumnKeysDiffer(a: ColumnId, b: ColumnId)
    requires NulFreeId(a.table) && NulFreeId(b.table) && ColumnKey(a) == ColumnKey(b)
    ensures a == b
  {
    assert ObjectKey(a.table) + NUL <= ColumnKey(a);
    PrefixScanIsExact(a.table, b);
    assert a.column == ColumnKey(a)[|ObjectKey(a.table)| + 1..];
    assert b.column == ColumnKey(b)[|ObjectKey(b.table)| + 1..];
  }

  lemma ObjectKeysDiffer(a: ObjectId, b: ObjectId)
    requires NulFreeId(a) && NulFreeId(b) && ObjectKey(a) == ObjectKey(b)
    ensures a == b
  {
    assert ColumnKey(ColumnId(a, "")) == ColumnKey(ColumnId(b, ""));
    ColumnKeysDiffer(ColumnId(a, ""), ColumnId(b, ""));
  }

  // Without the NUL-free names the flat keys do confuse distinct tables.
  lemma NulInNamesConfusesTables()
    ensures exists a, b :: a != b && ObjectKey(a) == ObjectKey(b)
  {
    var a, b := ObjectId("n", Name("a\0b", "c")), ObjectId("n", Name("a", "b\0c"));
    assert ObjectKey(a) == "n\0a\0b\0c" == ObjectKey(b);
    assert a.name.schemaName != b.name.schemaName;
  }

  // --- structured keys in between -------------------------------------------

  datatype Typed = Typed(
    tables: map<ObjectId, TableState>, columns: map<ColumnId, ColumnState>, enums: map<ObjectId, EnumState>)

  // `s` holds the same tables, columns and enums, each column inside its table.
  ghost predicate Nests(t: Typed, s: Schema) {
    && s.tables.Keys == t.tables.Keys && s.enums == t.enums
    && (forall id :: id in t.tables ==> s.tables[id].state == t.tables[id])
    && (forall k :: k in t.columns ==>
          HasColumn(s, k.table, k.column) && s.tables[k.table].columns[k.column] == t.columns[k])
    && (forall id, c :: HasColumn(s, id, c) ==> ColumnId(id, c) in t.columns)
  }

  // Names are free of NUL.
  ghost predicate NulFreeKeys(t: Typed) {
    && (forall id :: id in t.tables ==> NulFreeId(id))
    && (forall k :: k in t.columns ==> NulFreeId(k.table))
    && (forall id :: id in t.enums ==> NulFreeId(id))
  }

  ghost predicate EnumsSorted(s: Schema) {
    forall id :: id in s.enums ==> SortedBy(s.enums[id].values, TextLeq)
  }

  predicate NulFreeOperation(d: Document, op: Operation) {
    && NulFreeId(ObjectId(d.namespace, op.target))
    && (op.action.RenameTable? ==> NulFreeId(ObjectId(d.namespace, op.action.newTarget)))
    && (op.action.RenameEnum? ==> NulFreeId(ObjectId(d.namespace, op.action.newTarget)))
  }

  lemma ObjectKeysDistinguish(ids: set<ObjectId>)
    requires forall id :: id in ids ==> NulFreeId(id)
    ensures Distinguishes(ids, ObjectKey)
  {
    forall a, b | a in ids && b in ids && ObjectKey(a) == ObjectKey(b) ensures a == b {
      ObjectKeysDiffer(a, b);
    }
  }

  lemma ColumnKeysDistinguish(ids: set<ColumnId>)
    requires forall id :: id in ids ==> NulFreeId(id.table)
    ensures Distinguishes(ids, ColumnKey)
  {
    forall a, b | a in ids && b in ids && ColumnKey(a) == ColumnKey(b) ensures a == b {
      ColumnKeysDiffer(a, b);
    }
  }

  lemma NestsPutColumn(t: Typed, s: Schema, c: ColumnState)
    requires Nests(t, s) && ColumnOwner(c).table in s.tables
    ensures Nests(t.(columns := t.columns[ColumnOwner(c) := c]), PutColumn(s, ColumnOwner(c).table, c))
  {
    var s' := PutColumn(s, ColumnOwner(c).table, c);
    forall id, n | HasColumn(s', id, n) ensures ColumnId(id, n) in t.columns[ColumnOwner(c) := c] {
      assert HasColumn(s, id, n) || ColumnId(id, n) == ColumnOwner(c);
    }
  }

  lemma NestsTakeColumn(t: Typed, s: Schema, k: ColumnId)
    requires Nests(t, s) && k.table in s.tables
    ensures Nests(t.(columns := t.columns - {k}), TakeColumn(s, k.table, k.column))
  {
  }

  lemma NestsCreateTable(t: Typed, s: Schema, state: TableState)
    requires Nests(t, s)
    ensures var id := TableOwner(state);
            var kept := if id in s.tables then s.tables[id].columns else map[];
            Nests(t.(tables := t.tables[id := state]), s.(tables := s.tables[id := Table(state, kept)]))
  {
  }

  lemma NestsDropTable(t: Typed, s: Schema, id: ObjectId)
    requires Nests(t, s)
    ensures Nests(Typed(t.tables - {id}, Without(t.columns, id), t.enums), s.(tables := s.tables - {id}))
  {
  }

  lemma NestsRenameTable(t: Typed, s: Schema, d: Document, op: Operation)
    requires Nests(t, s) && d.lineStarts != [] && op.action.RenameTable? && !MissesBase(s, d, op)
    ensures var id := ObjectId(d.namespace, op.target);
            var state := TableState(d.namespace, op.action.newTarget, Locate(d, op));
            Nests(Typed((t.tables - {id})[TableOwner(state) := state],
                        MovedAll(t.columns, d, op, op.action.newTarget), t.enums),
                  Effect(s, d, op))
  {
    hide Locate, MovedAll, Effect, MissesBase;
    var id, newId := ObjectId(d.namespace, op.target), ObjectId(d.namespace, op.action.newTarget);
    var moved := MovedAll(t.columns, d, op, op.action.newTarget);
    var s' := Effect(s, d, op);
    MovedWhole(t.columns, d, op, op.action.newTarget);
    RenamedTables(s, d, op);
    forall k | k in moved
      ensures HasColumn(s', k.table, k.column) && s'.tables[k.table].columns[k.column] == moved[k]
    {
      RenamedColumn(s, d, op, k.table, k.column);
    }
    forall j, c | HasColumn(s', j, c) ensures ColumnId(j, c) in moved {
      RenamedColumn(s, d, op, j, c);
    }
  }

  lemma RenamedTables(s: Schema, d: Document, op: Operation)
    requires d.lineStarts != [] && op.action.RenameTable? && !MissesBase(s, d, op)
    ensures var id, newId := ObjectId(d.namespace, op.target), ObjectId(d.namespace, op.action.newTarget);
            var after := Effect(s, d, op);
            && after.tables.Keys == s.tables.Keys - {id} + {newId} && after.enums == s.enums
            && after.tables[newId].state == TableState(d.namespace, op.action.newTarget, Locate(d, op))
            && forall j :: j in after.tables && j != newId ==> after.tables[j].state == s.tables[j].state
  {
    hide Locate;
  }

  lemma RenamedColumn(s: Schema, d: Document, op: Operation, j: ObjectId, c: string)
    requires d.lineStarts != [] && op.action.RenameTable? && !MissesBase(s, d, op)
    ensures var id, newId := ObjectId(d.namespace, op.target), ObjectId(d.namespace, op.action.newTarget);
            var after := Effect(s, d, op);
            && (HasColumn(after, j, c) <==> (j == newId && HasColumn(s, id, c)) || (j != id && HasColumn(s, j, c)))
            && (HasColumn(after, j, c) ==>
                  after.tables[j].columns[c]
                  == if j == newId && HasColumn(s, id, c)
                     then ColumnAt(d, op, op.action.newTarget, s.tables[id].columns[c].column)
                     else s.tables[j].columns[c])
  {
    hide Locate;
  }

  // Where each column is once all columns of a table have moved.
  lemma MovedWhole(columns: map<ColumnId, ColumnState>, d: Document, op: Operation, newTarget: Name)
    requires d.lineStarts != []
    ensures var id, newId := ObjectId(d.namespace, op.target), ObjectId(d.namespace, newTarget);
            forall k :: k in MovedAll(columns, d, op, newTarget) <==>
              (k.table == newId && ColumnId(id, k.column) in columns) || (k.table != id && k in columns)
    ensures var id, newId := ObjectId(d.namespace, op.target), ObjectId(d.namespace, newTarget);
            forall k :: k in MovedAll(columns, d, op, newTarget) ==>
              MovedAll(columns, d, op, newTarget)[k] ==
              if k.table == newId && ColumnId(id, k.column) in columns
              then ColumnAt(d, op, newTarget, columns[ColumnId(id, k.column)].column) else columns[k]
  {
    hide Locate;
    var id := ObjectId(d.namespace, op.target);
    forall c ensures c in NamesIn(columns, id) <==> ColumnId(id, c) in columns {
      assert ColumnId(id, c).column == c;
    }
    forall k: ColumnId ensures ColumnId(k.table, k.column) == k {
    }
  }

  datatype Flat = Flat(
    tables: map<string, TableState>, columns: map<string, ColumnState>, enums: map<string, EnumState>)

  // The flat maps hold what the structured ones do, under glued keys.
  ghost predicate Faithful(f: Flat, t: Typed) {
    && Represents(f.tables, t.tables, ObjectKey, TableOwner)
    && Represents(f.columns, t.columns, ColumnKey, ColumnOwner)
    && Represents(f.enums, t.enums, ObjectKey, EnumOwner)
    && NulFreeKeys(t)
  }

  lemma FaithfulPutTable(f: Flat, t: Typed, v: TableState)
    requires Faithful(f, t) && NulFreeId(TableOwner(v))
    ensures Faithful(f.(tables := f.tables[ObjectKey(TableOwner(v)) := v]), t.(tables := t.tables[TableOwner(v) := v]))
  {
    hide ObjectKey;
    ObjectKeysDistinguish(t.tables.Keys + {TableOwner(v)});
    RepresentsPut(f.tables, t.tables, ObjectKey, TableOwner, TableOwner(v), v);
  }

  lemma FaithfulDeleteTable(f: Flat, t: Typed, k: ObjectId)
    requires Faithful(f, t) && NulFreeId(k)
    ensures Faithful(f.(tables := f.tables - {ObjectKey(k)}), t.(tables := t.tables - {k}))
    ensures ObjectKey(k) in f.tables <==> k in t.tables
    ensures k in t.tables ==> f.tables[ObjectKey(k)] == t.tables[k]
  {
    hide ObjectKey;
    ObjectKeysDistinguish(t.tables.Keys + {k});
    RepresentsDelete(f.tables, t.tables, ObjectKey, TableOwner, k);
  }

  lemma FaithfulPutColumn(f: Flat, t: Typed, v: ColumnState)
    requires Faithful(f, t) && NulFreeId(ColumnOwner(v).table)
    ensures Faithful(f.(columns := f.columns[ColumnKey(ColumnOwner(v)) := v]),
                     t.(columns := t.columns[ColumnOwner(v) := v]))
  {
    hide ColumnKey;
    ColumnKeysDistinguish(t.columns.Keys + {ColumnOwner(v)});
    RepresentsPut(f.columns, t.columns, ColumnKey, ColumnOwner, ColumnOwner(v), v);
  }

  lemma FaithfulDeleteColumn(f: Flat, t: Typed, k: ColumnId)
    requires Faithful(f, t) && NulFreeId(k.table)
    ensures Faithful(f.(columns := f.columns - {ColumnKey(k)}), t.(columns := t.columns - {k}))
    ensures ColumnKey(k) in f.columns <==> k in t.columns
    ensures k in t.columns ==> f.columns[ColumnKey(k)] == t.columns[k]
  {
    hide ColumnKey;
    ColumnKeysDistinguish(t.columns.Keys + {k});
    RepresentsDelete(f.columns, t.columns, ColumnKey, ColumnOwner, k);
  }

  lemma FaithfulPutEnum(f: Flat, t: Typed, v: EnumState)
    requires Faithful(f, t) && NulFreeId(EnumOwner(v))
    ensures Faithful(f.(enums := f.enums[ObjectKey(EnumOwner(v)) := v]), t.(enums := t.enums[EnumOwner(v) := v]))
  {
    hide ObjectKey;
    ObjectKeysDistinguish(t.enums.Keys + {EnumOwner(v)});
    RepresentsPut(f.enums, t.enums, ObjectKey, EnumOwner, EnumOwner(v), v);
  }

  lemma FaithfulDeleteEnum(f: Flat, t: Typed, k: ObjectId)
    requires Faithful(f, t) && NulFreeId(k)
    ensures Faithful(f.(enums := f.enums - {ObjectKey(k)}), t.(enums := t.enums - {k}))
    ensures ObjectKey(k) in f.enums <==> k in t.enums
    ensures k in t.enums ==> f.enums[ObjectKey(k)] == t.enums[k]
  {
    hide ObjectKey;
    ObjectKeysDistinguish(t.enums.Keys + {k});
    RepresentsDelete(f.enums, t.enums, ObjectKey, EnumOwner, k);
  }

  // Looking at one key of the flat column map during a scan for a table's columns.
  lemma ScanHit(f: Flat, t: Typed, id: ObjectId, key: string)
    requires Faithful(f, t) && NulFreeId(id) && key in f.columns
    ensures var k := ColumnOwner(f.columns[key]);
            && k in t.columns && ColumnKey(k) == key && t.columns[k] == f.columns[key] && NulFreeId(k.table)
            && (ObjectKey(id) + NUL <= key <==> k.table == id)
            && forall j :: j in t.columns && ColumnKey(j) == key ==> j == k
  {
    hide ObjectKey, ColumnKey;
    PrefixScanIsExact(id, ColumnOwner(f.columns[key]));
  }

  // What the flat maps hold under a key is what the schema holds.
  lemma Present(f: Flat, t: Typed, s: Schema, id: ObjectId, column: string)
    requires Faithful(f, t) && Nests(t, s) && NulFreeId(id)
    ensures ObjectKey(id) in f.tables <==> id in s.tables
    ensures ColumnKey(ColumnId(id, column)) in f.columns <==> HasColumn(s, id, column)
    ensures HasColumn(s, id, column) ==> f.columns[ColumnKey(ColumnId(id, column))] == s.tables[id].columns[column]
    ensures ObjectKey(id) in f.enums <==> id in s.enums
    ensures id in s.enums ==> f.enums[ObjectKey(id)] == s.enums[id]
  {
    hide Faithful, ObjectKey, ColumnKey;
    FaithfulDeleteTable(f, t, id);
    FaithfulDeleteColumn(f, t, ColumnId(id, column));
    FaithfulDeleteEnum(f, t, id);
  }

  lemma KeysPresent(f: Flat, t: Typed)
    requires Faithful(f, t)
    ensures forall k :: k in t.columns ==> ColumnKey(k) in f.columns
  {
    hide ObjectKey, ColumnKey;
  }

  ghost function NamesIn(columns: map<ColumnId, ColumnState>, id: ObjectId): set<string> {
    set k | k in columns && k.table == id :: k.column
  }

  ghost function Without(columns: map<ColumnId, ColumnState>, id: ObjectId): map<ColumnId, ColumnState> {
    map k | k in columns && k.table != id :: columns[k]
  }

  // The columns named in `done` moved from table `id` to the new target.
  ghost function Moved(
      columns: map<ColumnId, ColumnState>, d: Document, op: Operation, newTarget: Name, done: set<string>)
      : map<ColumnId, ColumnState>
    requires d.lineStarts != []
    requires forall c :: c in done ==> ColumnId(ObjectId(d.namespace, op.target), c) in columns
  {
    var id, newId := ObjectId(d.namespace, op.target), ObjectId(d.namespace, newTarget);
    var left := set k | k in columns && !(k.table == id && k.column in done);
    var arrived := set c | c in done :: ColumnId(newId, c);
    map k | k in left + arrived ::
      if k.table == newId && k.column in done
      then ColumnAt(d, op, newTarget, columns[ColumnId(id, k.column)].column) else columns[k]
  }

  ghost function MovedAll(columns: map<ColumnId, ColumnState>, d: Document, op: Operation, newTarget: Name)
      : map<ColumnId, ColumnState>
    requires d.lineStarts != []
  {
    Moved(columns, d, op, newTarget, NamesIn(columns, ObjectId(d.namespace, op.target)))
  }

  lemma MovedNothing(columns: map<ColumnId, ColumnState>, d: Document, op: Operation, newTarget: Name)
    requires d.lineStarts != []
    ensures Moved(columns, d, op, newTarget, {}) == columns
  {
  }

  lemma MovedOneMore(
      columns: map<ColumnId, ColumnState>, d: Document, op: Operation, newTarget: Name, done: set<string>, c: string)
    requires d.lineStarts != [] && c !in done
    requires forall n :: n in done + {c} ==> ColumnId(ObjectId(d.namespace, op.target), n) in columns
    ensures var id, newId := ObjectId(d.namespace, op.target), ObjectId(d.namespace, newTarget);
            var v := ColumnAt(d, op, newTarget, columns[ColumnId(id, c)].column);
            Moved(columns, d, op, newTarget, done + {c}) ==
            (Moved(columns, d, op, newTarget, done) - {ColumnId(id, c)})[ColumnId(newId, c) := v]
  {
    hide Locate;
    var id, newId := ObjectId(d.namespace, op.target), ObjectId(d.namespace, newTarget);
    var v := ColumnAt(d, op, newTarget, columns[ColumnId(id, c)].column);
    var one := Moved(columns, d, op, newTarget, done + {c});
    var two := (Moved(columns, d, op, newTarget, done) - {ColumnId(id, c)})[ColumnId(newId, c) := v];
    forall k ensures k in one <==> k in two {
      assert ColumnId(k.table, k.column) == k;
    }
  }

  class Replay {
    var tables: map<string, TableState>
    var columns: map<string, ColumnState>
    var enums: map<string, EnumState>
    var limitations: seq<string>
    ghost var typed: Typed
    ghost var schema: Schema

    ghost function Maps(): Flat
      reads `tables, `columns, `enums
    {
      Flat(tables, columns, enums)
    }

    ghost predicate Valid()
      reads this
    {
      Faithful(Maps(), typed) && Nests(typed, schema) && EnumsSorted(schema)
    }

    constructor ()
      ensures Valid() && schema == Schema(map[], map[]) && limitations == []
    {
      tables, columns, enums, limitations := map[], map[], map[], [];
      typed, schema := Typed(map[], map[], map[]), Schema(map[], map[]);
    }

    // Every stored key spells its value's own names, and no column lacks its table.
    lemma StoredKeys()
      requires Valid()
      ensures forall key :: key in tables ==> key == ObjectKey(TableOwner(tables[key]))
      ensures forall key :: key in enums ==>
                key == ObjectKey(EnumOwner(enums[key])) && SortedBy(enums[key].values, TextLeq)
      ensures forall key :: key in columns ==>
                key == ColumnKey(ColumnOwner(columns[key])) && ObjectKey(ColumnOwner(columns[key]).table) in tables
    {
      hide ObjectKey, ColumnKey;
      forall key | key in columns ensures ObjectKey(ColumnOwner(columns[key]).table) in tables {
        var k := ColumnOwner(columns[key]);
        assert k in typed.columns && HasColumn(schema, k.table, k.column);
        assert k.table in typed.tables;
      }
    }

    method SetColumn(c: ColumnState)
      requires Valid() && NulFreeId(ColumnOwner(c).table) && ColumnOwner(c).table in schema.tables
      modifies `columns, `typed, `schema
      ensures Valid() && schema == PutColumn(old(schema), ColumnOwner(c).table, c)
    {
      hide Faithful, ColumnKey, Nests, HasColumn;
      NestsPutColumn(typed, schema, c);
      FaithfulPutColumn(Maps(), typed, c);
      columns := columns[ColumnKey(ColumnOwner(c)) := c];
      typed := typed.(columns := typed.columns[ColumnOwner(c) := c]);
      schema := PutColumn(schema, ColumnOwner(c).table, c);
    }

    method DeleteColumn(id: ObjectId, column: string)
      requires Valid() && NulFreeId(id) && id in schema.tables
      modifies `columns, `typed, `schema
      ensures Valid() && schema == TakeColumn(old(schema), id, column)
    {
      hide Faithful, ColumnKey, Nests, HasColumn;
      NestsTakeColumn(typed, schema, ColumnId(id, column));
      FaithfulDeleteColumn(Maps(), typed, ColumnId(id, column));
      columns := columns - {ColumnKey(ColumnId(id, column))};
      typed := typed.(columns := typed.columns - {ColumnId(id, column)});
      schema := TakeColumn(schema, id, column);
    }

    method SetEnum(e: EnumState)
      requires Valid() && NulFreeId(EnumOwner(e)) && SortedBy(e.values, TextLeq)
      modifies `enums, `typed, `schema
      ensures Valid() && schema == old(schema).(enums := old(schema).enums[EnumOwner(e) := e])
    {
      hide Faithful, ObjectKey;
      FaithfulPutEnum(Maps(), typed, e);
      enums := enums[ObjectKey(EnumOwner(e)) := e];
      typed := typed.(enums := typed.enums[EnumOwner(e) := e]);
      schema := schema.(enums := schema.enums[EnumOwner(e) := e]);
    }

    method DeleteEnum(id: ObjectId)
      requires Valid() && NulFreeId(id)
      modifies `enums, `typed, `schema
      ensures Valid() && schema == old(schema).(enums := old(schema).enums - {id})
    {
      hide Faithful, ObjectKey;
      FaithfulDeleteEnum(Maps(), typed, id);
      enums := enums - {ObjectKey(id)};
      typed := typed.(enums := typed.enums - {id});
      schema := schema.(enums := schema.enums - {id});
    }

    // The scan over the live column map that `drop_table` performs.
    method DropColumnsOf(id: ObjectId)
      requires Faithful(Maps(), typed) && NulFreeId(id)
      modifies `columns, `typed
      ensures Faithful(Maps(), typed)
      ensures typed == old(typed).(columns := Without(old(typed.columns), id))
    {
      hide Faithful, ColumnKey, ObjectKey;
      var todo := columns.Keys;
      KeysPresent(Maps(), typed);
      while todo != {}
        invariant Faithful(Maps(), typed) && todo <= columns.Keys
        invariant typed == old(typed).(columns := typed.columns)
        invariant forall k :: k in typed.columns ==>
                    k in old(typed.columns) && typed.columns[k] == old(typed.columns)[k]
        invariant forall k :: k in old(typed.columns) && k !in typed.columns ==> k.table == id
        invariant forall k :: k in typed.columns && k.table == id ==> ColumnKey(k) in todo
        decreases todo
      {
        var key :| key in todo;
        ScanHit(Maps(), typed, id, key);
        if ObjectKey(id) + NUL <= key {
          ghost var k := ColumnOwner(columns[key]);
          FaithfulDeleteColumn(Maps(), typed, k);
          columns := columns - {key};
          typed := typed.(columns := typed.columns - {k});
        }
        todo := todo - {key};
      }
      assert typed.columns == Without(old(typed.columns), id);
    }

    // The scan over a snapshot of the column map that `rename_table` performs.
    method MoveColumns(d: Document, op: Operation, newTarget: Name)
      requires Faithful(Maps(), typed) && d.lineStarts != []
      requires NulFreeId(ObjectId(d.namespace, op.target)) && NulFreeId(ObjectId(d.namespace, newTarget))
      modifies `columns, `typed
      ensures Faithful(Maps(), typed)
      ensures typed == old(typed).(columns := MovedAll(old(typed.columns), d, op, newTarget))
    {
      hide Faithful, ColumnKey, ObjectKey, Moved, Locate;
      var id, newId := ObjectId(d.namespace, op.target), ObjectId(d.namespace, newTarget);
      var snapshot := columns;
      ghost var before := typed;
      var todo := snapshot.Keys;
      ghost var done: set<string> := {};
      KeysPresent(Maps(), typed);
      MovedNothing(typed.columns, d, op, newTarget);
      while todo != {}
        invariant Faithful(Maps(), typed) && todo <= snapshot.Keys
        invariant forall c :: c in done ==> ColumnId(id, c) in before.columns && ColumnKey(ColumnId(id, c)) !in todo
        invariant forall k :: k in before.columns && k.table == id && k.column !in done ==> ColumnKey(k) in todo
        invariant typed == before.(columns := Moved(before.columns, d, op, newTarget, done))
        decreases todo
      {
        var key :| key in todo;
        ScanHit(Flat(tables, snapshot, enums), before, id, key);
        if ObjectKey(id) + NUL <= key {
          ghost var k := ColumnOwner(snapshot[key]);
          assert k == ColumnId(id, k.column);
          var moved := ColumnAt(d, op, newTarget, snapshot[key].column);
          MovedOneMore(before.columns, d, op, newTarget, done, k.column);
          FaithfulDeleteColumn(Maps(), typed, k);
          columns := columns - {key};
          typed := typed.(columns := typed.columns - {k});
          FaithfulPutColumn(Maps(), typed, moved);
          columns := columns[ColumnKey(ColumnOwner(moved)) := moved];
          typed := typed.(columns := typed.columns[ColumnOwner(moved) := moved]);
          done := done + {k.column};
        }
        todo := todo - {key};
      }
      assert done == NamesIn(before.columns, id);
    }

    method CreateTable(d: Document, op: Operation, cs: seq<Column>)
      requires Valid() && NulFreeOperation(d, op) && d.lineStarts != [] && op.action == Action.CreateTable(cs)
      modifies `tables, `columns, `typed, `schema
      ensures Valid() && schema == Step(old(schema), d, op)
    {
      hide Faithful, ObjectKey, Nests, HasColumn, Locate;
      var id := ObjectId(d.namespace, op.target);
      var state := TableState(d.namespace, op.target, Locate(d, op));
      ghost var kept := if id in schema.tables then schema.tables[id].columns else map[];
      NestsCreateTable(typed, schema, state);
      FaithfulPutTable(Maps(), typed, state);
      tables := tables[ObjectKey(id) := state];
      typed := typed.(tables := typed.tables[id := state]);
      schema := schema.(tables := schema.tables[id := Table(state, kept)]);
      ghost var created := schema;
      for n := 0 to |cs|
        invariant Valid()
        invariant schema == created.(tables := created.tables[id := Table(state, WithColumns(d, op, kept, cs[..n]))])
      {
        SetColumn(ColumnAt(d, op, op.target, cs[n]));
        assert cs[..n + 1][..n] == cs[..n];
      }
      assert cs[..|cs|] == cs;
    }

    method DropTable(d: Document, op: Operation)
      requires Valid() && NulFreeOperation(d, op) && d.lineStarts != [] && op.action == Action.DropTable
      modifies this
      ensures Valid() && schema == Step(old(schema), d, op)
      ensures limitations == old(limitations) + (if MissesBase(old(schema), d, op) then [d.path] else [])
    {
      hide Faithful, ObjectKey, Nests, HasColumn, Without;
      var id := ObjectId(d.namespace, op.target);
      Present(Maps(), typed, schema, id, "");
      if ObjectKey(id) !in tables {
        limitations := limitations + [d.path];
      }
      NestsDropTable(typed, schema, id);
      FaithfulDeleteTable(Maps(), typed, id);
      tables := tables - {ObjectKey(id)};
      typed := typed.(tables := typed.tables - {id});
      DropColumnsOf(id);
      schema := schema.(tables := schema.tables - {id});
      assert id !in old(schema).tables ==> old(schema).tables - {id} == old(schema).tables;
    }

    method RenameTable(d: Document, op: Operation, newTarget: Name)
      requires Valid() && NulFreeOperation(d, op) && d.lineStarts != [] && op.action == Action.RenameTable(newTarget)
      modifies this
      ensures Valid() && schema == Step(old(schema), d, op)
      ensures limitations == old(limitations) + (if MissesBase(old(schema), d, op) then [d.path] else [])
    {
      hide Faithful, ObjectKey, Nests, HasColumn, Locate, MovedAll;
      var id, newId := ObjectId(d.namespace, op.target), ObjectId(d.namespace, newTarget);
      Present(Maps(), typed, schema, id, "");
      if ObjectKey(id) !in tables {
        limitations := limitations + [d.path];
        return;
      }
      NestsRenameTable(typed, schema, d, op);
      FaithfulDeleteTable(Maps(), typed, id);
      tables := tables - {ObjectKey(id)};
      typed := typed.(tables := typed.tables - {id});
      var state := TableState(d.namespace, newTarget, Locate(d, op));
      FaithfulPutTable(Maps(), typed, state);
      tables := tables[ObjectKey(newId) := state];
      typed := typed.(tables := typed.tables[newId := state]);
      MoveColumns(d, op, newTarget);
      schema := Effect(schema, d, op);
    }

    method Apply(d: Document, op: Operation)
      requires Valid() && NulFreeOperation(d, op) && d.lineStarts != []
      modifies this
      ensures Valid() && schema == Step(old(schema), d, op)
      ensures limitations == old(limitations) + (if MissesBase(old(schema), d, op) then [d.path] else [])
    {
      hide Faithful, Nests, ColumnKey, ObjectKey, Locate, EnumsSorted;
      var id := ObjectId(d.namespace, op.target);
      match op.action
      case CreateTable(cs) => CreateTable(d, op, cs);
      case DropTable => DropTable(d, op);
      case RenameTable(newTarget) => RenameTable(d, op, newTarget);
      case AddColumn(column) =>
        Present(Maps(), typed, schema, id, column.name);
        if ObjectKey(id) !in tables {
          limitations := limitations + [d.path];
        } else {
          SetColumn(ColumnAt(d, op, op.target, column));
        }
      case AlterColumn(column) =>
        var key := ColumnId(id, column.name);
        Present(Maps(), typed, schema, id, column.name);
        if ColumnKey(key) !in columns {
          limitations := limitations + [d.path];
        } else {
          var prior := columns[ColumnKey(key)];
          var nullable := if column.nullable == Unknown then prior.column.nullable else column.nullable;
          SetColumn(ColumnAt(d, op, op.target, column.(nullable := nullable)));
        }
      case DropColumn(name) =>
        Present(Maps(), typed, schema, id, name);
        if ColumnKey(ColumnId(id, name)) in columns {
          DeleteColumn(id, name);
        } else {
          limitations := limitations + [d.path];
        }
      case RenameColumn(name, newName) =>
        Present(Maps(), typed, schema, id, name);
        if ColumnKey(ColumnId(id, name)) !in columns {
          limitations := limitations + [d.path];
        } else {
          var prior := columns[ColumnKey(ColumnId(id, name))];
          DeleteColumn(id, name);
          SetColumn(ColumnAt(d, op, op.target, prior.column.(name := newName)));
        }
      case SetColumnNullability(name, nullable) =>
        Present(Maps(), typed, schema, id, name);
        if ColumnKey(ColumnId(id, name)) in columns {
          var prior := columns[ColumnKey(ColumnId(id, name))];
          SetColumn(ColumnAt(d, op, op.target, prior.column.(nullable := if nullable then Nullable else NotNull)));
        } else {
          limitations := limitations + [d.path];
        }
      case _ => ApplyToEnum(d, op);
    }

    method ApplyToEnum(d: Document, op: Operation)
      requires Valid() && NulFreeOperation(d, op) && d.lineStarts != []
      requires op.action.CreateEnum? || op.action.AddEnumValue? || op.action.RenameEnum? || op.action.DropEnum?
      modifies this
      ensures Valid() && schema == Step(old(schema), d, op)
      ensures limitations == old(limitations) + (if MissesBase(old(schema), d, op) then [d.path] else [])
    {
      hide Faithful, Nests, ColumnKey, ObjectKey, Locate;
      var id := ObjectId(d.namespace, op.target);
      var key := ObjectKey(id);
      var at := Locate(d, op);
      TextIsTotalOrder();
      Present(Maps(), typed, schema, id, "");
      match op.action
      case CreateEnum(values) =>
        SortSorts(values, TextLeq);
        SetEnum(EnumState(d.namespace, op.target, Sort(values, TextLeq), at));
      case AddEnumValue(value) =>
        if key in enums {
          var values := Distinct(enums[key].values + [value]);
          SortSorts(values, TextLeq);
          SetEnum(EnumState(d.namespace, op.target, Sort(values, TextLeq), at));
        } else {
          limitations := limitations + [d.path];
        }
      case RenameEnum(newTarget) =>
        if key !in enums {
          limitations := limitations + [d.path];
        } else {
          var prior := enums[key];
          DeleteEnum(id);
          SetEnum(EnumState(d.namespace, newTarget, prior.values, at));
        }
      case DropEnum =>
        if key in enums {
          DeleteEnum(id);
        } else {
          limitations := limitations + [d.path];
        }
    }
  }

  predicate Replayable(documents: seq<Document>) {
    forall d :: d in documents ==> d.lineStarts != [] && forall op :: op in d.operations ==> NulFreeOperation(d, op)
  }

  // One document's operations, in the order of their offsets.
  method ReplayDocument(state: Replay, d: Document, ghost before: Run)
    requires state.Valid() && Replayable([d]) && Run(state.schema, state.limitations) == before
    modifies state
    ensures state.Valid()
    ensures Run(state.schema, state.limitations) == RunOperations(before, d, InOffsetOrder(d.operations))
  {
    hide Faithful, Nests, EnumsSorted, Step, MissesBase, NulFreeOperation, InOffsetOrder;
    assert d in [d];
    var operations := InOffsetOrder(d.operations);
    OffsetOrderKeeps(d);
    for j := 0 to |operations|
      invariant state.Valid()
      invariant Run(state.schema, state.limitations) == RunOperations(before, d, operations[..j])
    {
      assert operations[..j + 1][..j] == operations[..j];
      state.Apply(d, operations[j]);
    }
    assert operations[..|operations|] == operations;
  }

  lemma OffsetOrderKeeps(d: Document)
    ensures forall op :: op in InOffsetOrder(d.operations) ==> op in d.operations
  {
    SameElements(InOffsetOrder(d.operations), d.operations);
  }

  // The flat state after a whole replay stands for the schema of the nested run.
  method ApplyOperations(documents: seq<Document>) returns (state: Replay)
    requires Replayable(documents)
    ensures fresh(state) && state.Valid()
    ensures state.schema == RunDocuments(documents).schema
    ensures state.limitations == RunDocuments(documents).limitations
    ensures ExecuteLog(documents).Some? <==> state.limitations == [] && LogLandsNowhere(documents)
    ensures ExecuteLog(documents).Some? ==> Means(state.Maps(), ExecuteLog(documents).value)
    ensures Located(Log(documents)) && Holds(state.Maps(), CatalogAfter(Log(documents)))
    ensures state.limitations == ReportedBy(Log(documents))
  {
    hide Means, ExecuteLog, LogLandsNowhere, Shape, NamesKept, Holds, CatalogOf, CatalogAfter, ReportedBy, Log;
    hide Faithful, Nests, EnumsSorted, Step, MissesBase, NulFreeOperation, RunOperations, InOffsetOrder;
    state := new Replay();
    for i := 0 to |documents|
      invariant state.Valid()
      invariant Run(state.schema, state.limitations) == RunDocuments(documents[..i])
    {
      assert documents[..i + 1][..i] == documents[..i];
      assert documents[i] in documents;
      ReplayDocument(state, documents[i], RunDocuments(documents[..i]));
    }
    assert documents[..|documents|] == documents;
    StrictAcceptsExactly(documents);
    FlatMeansShape(state.Maps(), state.typed, state.schema);
    ReplayIsPerformed(documents);
    FlatHoldsCatalog(state.Maps(), state.typed, state.schema);
  }

  // The flat maps list what the catalog does: each value under its own names and
  // written where the catalog says.
  ghost predicate Holds(f: Flat, c: Catalog) {
    && HoldsTables(f.tables, c) && HoldsColumns(f.columns, c) && HoldsEnums(f.enums, c)
  }

  ghost predicate HoldsTables(tables: map<string, TableState>, c: Catalog) {
    && (forall id :: id in c.tables <==>
          exists key :: key in tables && ObjectId(tables[key].namespace, tables[key].target) == id)
    && (forall key :: key in tables ==>
          var id := ObjectId(tables[key].namespace, tables[key].target);
          id in c.tables && tables[key].at == c.tables[id])
  }

  ghost predicate HoldsColumns(columns: map<string, ColumnState>, c: Catalog) {
    && (forall k :: k in c.columns <==> exists key :: key in columns && NamedBy(columns[key]) == k)
    && (forall key :: key in columns ==>
          NamedBy(columns[key]) in c.columns
          && c.columns[NamedBy(columns[key])] == Stored(columns[key].column, columns[key].at))
  }

  function NamedBy(c: ColumnState): ColumnId {
    ColumnId(ObjectId(c.namespace, c.target), c.column.name)
  }

  ghost predicate HoldsEnums(enums: map<string, EnumState>, c: Catalog) {
    && (forall id :: id in c.enums <==>
          exists key :: key in enums && ObjectId(enums[key].namespace, enums[key].target) == id)
    && (forall key :: key in enums ==>
          var id := ObjectId(enums[key].namespace, enums[key].target);
          id in c.enums && c.enums[id] == Stored(enums[key].values, enums[key].at))
  }

  lemma FlatHoldsCatalog(f: Flat, t: Typed, s: Schema)
    requires Faithful(f, t) && Nests(t, s)
    ensures Holds(f, CatalogOf(s))
  {
    FlatHoldsTables(f, t, s);
    FlatHoldsColumns(f, t, s);
    FlatHoldsEnums(f, t, s);
  }

  lemma FlatHoldsTables(f: Flat, t: Typed, s: Schema)
    requires Faithful(f, t) && Nests(t, s)
    ensures HoldsTables(f.tables, CatalogOf(s))
  {
    hide ObjectKey, ColumnKey, NulFreeKeys, CatalogOf;
    forall id
      ensures id in CatalogOf(s).tables <==> id in t.tables
      ensures id in t.tables ==> CatalogOf(s).tables[id] == t.tables[id].at
    {
      CatalogLists(s, ColumnId(id, ""));
      TableCited(s, id);
    }
    forall id | id in t.tables ensures ObjectKey(id) in f.tables && TableOwner(f.tables[ObjectKey(id)]) == id {
    }
  }

  lemma TableCited(s: Schema, id: ObjectId)
    ensures id in s.tables ==> id in CatalogOf(s).tables && CatalogOf(s).tables[id] == s.tables[id].state.at
  {
  }

  lemma FlatHoldsColumns(f: Flat, t: Typed, s: Schema)
    requires Faithful(f, t) && Nests(t, s)
    ensures HoldsColumns(f.columns, CatalogOf(s))
  {
    hide ObjectKey, ColumnKey, NulFreeKeys, CatalogOf;
    forall k
      ensures k in CatalogOf(s).columns <==> k in t.columns
      ensures k in t.columns ==> CatalogOf(s).columns[k] == Stored(t.columns[k].column, t.columns[k].at)
    {
      CatalogLists(s, k);
      assert ColumnId(k.table, k.column) == k;
    }
    forall k | k in t.columns ensures ColumnKey(k) in f.columns && NamedBy(f.columns[ColumnKey(k)]) == k {
    }
  }

  lemma FlatHoldsEnums(f: Flat, t: Typed, s: Schema)
    requires Faithful(f, t) && Nests(t, s)
    ensures HoldsEnums(f.enums, CatalogOf(s))
  {
    hide ObjectKey, ColumnKey, NulFreeKeys, CatalogOf;
    forall id
      ensures id in CatalogOf(s).enums <==> id in t.enums
      ensures id in t.enums ==> CatalogOf(s).enums[id] == Stored(t.enums[id].values, t.enums[id].at)
    {
      EnumsListed(s, id);
    }
    forall id | id in t.enums ensures ObjectKey(id) in f.enums && EnumOwner(f.enums[ObjectKey(id)]) == id {
    }
  }

  // The flat maps read as a database: every value tells its owner, and the
  // keys and source locations are forgotten.
  ghost predicate Means(f: Flat, db: Database) {
    && (forall id :: id in db.tables <==> exists key :: key in f.tables && TableOwner(f.tables[key]) == id)
    && (forall id, c :: Has(db, id, c) <==>
          exists key :: key in f.columns && ColumnOwner(f.columns[key]) == ColumnId(id, c))
    && (forall key :: key in f.columns ==> ReadsAs(f.columns[key], db))
    && (forall id :: id in db.enums <==> exists key :: key in f.enums && EnumOwner(f.enums[key]) == id)
    && (forall key :: key in f.enums ==> EnumReadsAs(f.enums[key], db))
  }

  ghost predicate ReadsAs(c: ColumnState, db: Database) {
    var k := ColumnOwner(c);
    Has(db, k.table, k.column) ==> db.tables[k.table][k.column] == c.column
  }

  ghost predicate EnumReadsAs(e: EnumState, db: Database) {
    EnumOwner(e) in db.enums ==> forall v :: v in db.enums[EnumOwner(e)] <==> v in e.values
  }

  lemma FlatMeansShape(f: Flat, t: Typed, s: Schema)
    requires Faithful(f, t) && Nests(t, s)
    ensures Means(f, Shape(s))
  {
    hide Faithful, Nests, Shape, Has;
    forall id {
      ObjectsMean(f, t, s, id);
    }
    forall id, c {
      ColumnsMean(f, t, s, id, c);
    }
    forall key | key in f.columns ensures ReadsAs(f.columns[key], Shape(s)) {
      ColumnReads(f, t, s, key);
    }
    forall key | key in f.enums ensures EnumReadsAs(f.enums[key], Shape(s)) {
      EnumReads(f, t, s, key);
    }
  }

  lemma ObjectsMean(f: Flat, t: Typed, s: Schema, id: ObjectId)
    requires Faithful(f, t) && Nests(t, s)
    ensures id in Shape(s).tables <==> exists key :: key in f.tables && TableOwner(f.tables[key]) == id
    ensures id in Shape(s).enums <==> exists key :: key in f.enums && EnumOwner(f.enums[key]) == id
  {
    hide ObjectKey, ColumnKey, Shape, NulFreeKeys;
    ShapeHas(s, id, "");
    if id in t.tables {
      assert ObjectKey(id) in f.tables;
    }
    if id in t.enums {
      assert ObjectKey(id) in f.enums;
    }
  }

  lemma ColumnsMean(f: Flat, t: Typed, s: Schema, id: ObjectId, c: string)
    requires Faithful(f, t) && Nests(t, s)
    ensures Has(Shape(s), id, c) <==> exists key :: key in f.columns && ColumnOwner(f.columns[key]) == ColumnId(id, c)
  {
    hide ObjectKey, ColumnKey, Shape, NulFreeKeys;
    ShapeHas(s, id, c);
    if ColumnId(id, c) in t.columns {
      assert ColumnKey(ColumnId(id, c)) in f.columns;
    }
  }

  lemma ColumnReads(f: Flat, t: Typed, s: Schema, key: string)
    requires Faithful(f, t) && Nests(t, s) && key in f.columns
    ensures ReadsAs(f.columns[key], Shape(s))
  {
    hide ObjectKey, ColumnKey, Shape, NulFreeKeys;
    var k := ColumnOwner(f.columns[key]);
    ShapeHas(s, k.table, k.column);
  }

  lemma EnumReads(f: Flat, t: Typed, s: Schema, key: string)
    requires Faithful(f, t) && Nests(t, s) && key in f.enums
    ensures EnumReadsAs(f.enums[key], Shape(s))
  {
    hide ObjectKey, ColumnKey, Shape, NulFreeKeys;
    ShapeHas(s, EnumOwner(f.enums[key]), "");
  }

  // So the flat maps stand for one database only.
  lemma MeaningIsUnique(f: Flat, a: Database, b: Database)
    requires Means(f, a) && Means(f, b)
    ensures a == b
  {
    hide Means;
    SameTables(f, a, b);
    SameEnums(f, a, b);
  }

  lemma SameTables(f: Flat, a: Database, b: Database)
    requires Means(f, a) && Means(f, b)
    ensures a.tables == b.tables
  {
    assert a.tables.Keys == b.tables.Keys;
    forall id | id in a.tables ensures a.tables[id] == b.tables[id] {
      forall c ensures c in a.tables[id] <==> c in b.tables[id] {
        assert Has(a, id, c) <==> Has(b, id, c);
      }
      forall c | c in a.tables[id] ensures a.tables[id][c] == b.tables[id][c] {
        assert Has(a, id, c) && Has(b, id, c);
        var key :| key in f.columns && ColumnOwner(f.columns[key]) == ColumnId(id, c);
        assert ReadsAs(f.columns[key], a) && ReadsAs(f.columns[key], b);
      }
    }
  }

  lemma SameEnums(f: Flat, a: Database, b: Database)
    requires Means(f, a) && Means(f, b)
    ensures a.enums == b.enums
  {
    assert a.enums.Keys == b.enums.Keys;
    forall id | id in a.enums ensures a.enums[id] == b.enums[id] {
      var key :| key in f.enums && EnumOwner(f.enums[key]) == id;
      assert EnumReadsAs(f.enums[key], a) && EnumReadsAs(f.enums[key], b);
    }
  }

  // The flat maps and the nested schema determine one another.
  lemma FlatAndNestedAgree(f: Flat, t: Typed, s: Schema, f': Flat, t': Typed, s': Schema)
    requires Faithful(f, t) && Nests(t, s)
    requires Faithful(f', t') && Nests(t', s')
    ensures f == f' <==> s == s'
  {
    hide ObjectKey, ColumnKey;
    RepresentationUnique(f.tables, t.tables, f'.tables, t'.tables, ObjectKey, TableOwner);
    RepresentationUnique(f.columns, t.columns, f'.columns, t'.columns, ColumnKey, ColumnOwner);
    RepresentationUnique(f.enums, t.enums, f'.enums, t'.enums, ObjectKey, EnumOwner);
    if t == t' {
      NestedUnique(t, s, s');
    }
    if s == s' {
      TypedUnique(t, t', s);
    }
  }

  lemma NestedUnique(t: Typed, s: Schema, s': Schema)
    requires Nests(t, s) && Nests(t, s')
    ensures s == s'
  {
    forall id | id in s.tables ensures s.tables[id] == s'.tables[id] {
      forall c ensures c in s.tables[id].columns <==> c in s'.tables[id].columns {
        assert HasColumn(s, id, c) <==> ColumnId(id, c) in t.columns;
        assert HasColumn(s', id, c) <==> ColumnId(id, c) in t.columns;
      }
      forall c | c in s.tables[id].columns ensures s.tables[id].columns[c] == s'.tables[id].columns[c] {
        assert HasColumn(s, id, c);
      }
      assert s.tables[id].columns == s'.tables[id].columns;
    }
    assert s.tables == s'.tables;
  }

  lemma TypedUnique(t: Typed, t': Typed, s: Schema)
    requires Nests(t, s) && Nests(t', s)
    ensures t == t'
  {
    forall k ensures k in t.columns <==> k in t'.columns {
      assert ColumnId(k.table, k.column) == k;
    }
    assert t.columns == t'.columns;
    assert t.tables == t'.tables;
  }
}
