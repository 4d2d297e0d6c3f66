/** Databases with tables, rows and indexes, and the DDL statements a migration runs on them. */
module Schemas {
  import opened Basics
  import opened SqlLanguage

  /** A column definition without its name; `default` is the DDL's DEFAULT literal, or NULL. */
  datatype Column = Column(ddl: string, default_: Value)

  type Columns = map<string, Column>

  datatype IndexDef = IndexDef(table: string, columns: seq<string>)

  datatype Ddl =
    | CreateTable(t: string, cols: Columns)          // IF NOT EXISTS
    | DropTable(t: string)
    | AddColumn(t: string, c: string, def: Column)
    | DropColumn(t: string, c: string)
    | CopyRows(into: string, t: string, shared: seq<string>)
    | RenameTable(t: string, to: string)
    | RenameColumn(t: string, c: string, as_: string)
    | CreateIndex(name: string, index: IndexDef)     // IF NOT EXISTS
    | DropIndex(name: string)

  // ---------------------------------------------------------------- schemas

  datatype Schema = Schema(tables: map<string, Columns>, indexes: map<string, IndexDef>)

  /** The indexes left when `t`, or column `c` of it, goes away. */
  function Without(ix: map<string, IndexDef>, t: string, c: Option<string>): map<string, IndexDef> {
    map n | n in ix && !(ix[n].table == t && (c.None? || c.value in ix[n].columns)) :: ix[n]
  }

  /** The indexes after table `t` is renamed, and after column `c` of `t` is renamed. */
  function Retargeted(ix: map<string, IndexDef>, t: string, to: string): map<string, IndexDef> {
    map n | n in ix :: if ix[n].table == t then ix[n].(table := to) else ix[n]
  }

  function Respelled(ix: map<string, IndexDef>, t: string, c: string, as_: string): map<string, IndexDef> {
    map n | n in ix :: if ix[n].table == t then ix[n].(columns := RenamedIn(ix[n].columns, c, as_)) else ix[n]
  }

  function RenamedIn(cs: seq<string>, c: string, as_: string): seq<string> {
    seq(|cs|, i requires 0 <= i < |cs| => if cs[i] == c then as_ else cs[i])
  }

  /** One statement; `None` when the database rejects it. Constraints are not modelled. */
  function Step(op: Ddl, s: Schema): Option<Schema> {
    match op
    case CreateTable(t, cols) => if t in s.tables then Some(s) else Some(s.(tables := s.tables[t := cols]))
    case DropTable(t) =>
      if t in s.tables then Some(Schema(s.tables - {t}, Without(s.indexes, t, None))) else None
    case AddColumn(t, c, def) =>
      if t in s.tables && c !in s.tables[t] then Some(s.(tables := s.tables[t := s.tables[t][c := def]])) else None
    case DropColumn(t, c) =>
      if t in s.tables && c in s.tables[t]
      then Some(Schema(s.tables[t := s.tables[t] - {c}], Without(s.indexes, t, Some(c)))) else None
    case CopyRows(into, t, shared) =>
      if into in s.tables && t in s.tables && shared != []
         && forall c :: c in shared ==> c in s.tables[into] && c in s.tables[t]
      then Some(s) else None
    case RenameTable(t, to) =>
      if t in s.tables && to !in s.tables
      then Some(Schema((s.tables - {t})[to := s.tables[t]], Retargeted(s.indexes, t, to)))
      else None
    case RenameColumn(t, c, as_) =>
      if t in s.tables && c in s.tables[t] && as_ !in s.tables[t]
      then Some(Schema(s.tables[t := (s.tables[t] - {c})[as_ := s.tables[t][c]]], Respelled(s.indexes, t, c, as_)))
      else None
    case CreateIndex(name, index) =>
      if name in s.indexes then Some(s)
      else if index.table in s.tables && forall c :: c in index.columns ==> c in s.tables[index.table]
      then Some(s.(indexes := s.indexes[name := index])) else None
    case DropIndex(name) => if name in s.indexes then Some(s.(indexes := s.indexes - {name})) else None
  }

  function Run(ops: seq<Ddl>, s: Schema): Option<Schema> {
    if ops == [] then Some(s) else
    var next := Step(ops[0], s);
    if next.Some? then Run(ops[1..], next.value) else None
  }

  lemma {:induction false} RunAppend(a: seq<Ddl>, b: seq<Ddl>, s: Schema)
    ensures Run(a + b, s) == (var mid := Run(a, s); if mid.Some? then Run(b, mid.value) else None)
  {
    if a == [] {
      assert a + b == b;
    } else {
      assert (a + b)[1..] == a[1..] + b;
      var next := Step(a[0], s);
      if next.Some? { RunAppend(a[1..], b, next.value); }
    }
  }

  // ---------------------------------------------------------------- databases

  type Row = map<string, Value>

  datatype Table = Table(cols: Columns, rows: map<int, Row>)

  datatype Database = Database(tables: map<string, Table>, indexes: map<string, IndexDef>)

  function SchemaOf(db: Database): Schema {
    Schema(map t | t in db.tables :: db.tables[t].cols, db.indexes)
  }

  /** A copied row: the source's values in the shared columns, defaults elsewhere. */
  function CopiedRow(cols: Columns, row: Row, shared: seq<string>): Row {
    map c | c in cols :: if c in shared && c in row then row[c] else cols[c].default_
  }

  /** What a statement does to the tables and their rows, on a database that accepts it. */
  function Tables(op: Ddl, ts: map<string, Table>): map<string, Table>
    requires Step(op, Schema(map t | t in ts :: ts[t].cols, map[])).Some? || op.CreateIndex? || op.DropIndex?
  {
    match op
    case CreateTable(t, cols) => if t in ts then ts else ts[t := Table(cols, map[])]
    case DropTable(t) => ts - {t}
    case AddColumn(t, c, def) =>
      ts[t := Table(ts[t].cols[c := def], map i | i in ts[t].rows :: ts[t].rows[i][c := def.default_])]
    case DropColumn(t, c) =>
      ts[t := Table(ts[t].cols - {c}, map i | i in ts[t].rows :: ts[t].rows[i] - {c})]
    case CopyRows(into, t, shared) =>
      ts[into := ts[into].(rows := ts[into].rows + map i | i in ts[t].rows ::
        CopiedRow(ts[into].cols, ts[t].rows[i], shared))]
    case RenameTable(t, to) => (ts - {t})[to := ts[t]]
    case RenameColumn(t, c, as_) =>
      ts[t := Table((ts[t].cols - {c})[as_ := ts[t].cols[c]],
                    map i | i in ts[t].rows ::
                      if c in ts[t].rows[i] then (ts[t].rows[i] - {c})[as_ := ts[t].rows[i][c]] else ts[t].rows[i])]
    case CreateIndex(_, _) => ts
    case DropIndex(_) => ts
  }

  lemma TablesFollowSchema(op: Ddl, db: Database)
    requires Step(op, SchemaOf(db)).Some?
    ensures Step(op, Schema(map t | t in db.tables :: db.tables[t].cols, map[])).Some? || op.CreateIndex? ||
      op.DropIndex?
    ensures var ts := Tables(op, db.tables); (map t | t in ts :: ts[t].cols) == Step(op, SchemaOf(db)).value.tables
  {
  }

  /** One statement on a database: accepted exactly when its schema accepts it. */
  function Exec(op: Ddl, db: Database): (r: Option<Database>)
    ensures r.Some? <==> Step(op, SchemaOf(db)).Some?
    ensures r.Some? ==> Step(op, SchemaOf(db)) == Some(SchemaOf(r.value))
  {
    var s := Step(op, SchemaOf(db));
    if s.None? then None else
    TablesFollowSchema(op, db);
    Some(Database(Tables(op, db.tables), s.value.indexes))
  }

  function ExecAll(ops: seq<Ddl>, db: Database): (r: Option<Database>)
    ensures r.Some? <==> Run(ops, SchemaOf(db)).Some?
    ensures r.Some? ==> Run(ops, SchemaOf(db)) == Some(SchemaOf(r.value))
  {
    if ops == [] then Some(db) else
    var next := Exec(ops[0], db);
    if next.Some? then ExecAll(ops[1..], next.value) else None
  }
}
