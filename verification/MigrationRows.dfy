/** Generated migrations keep the rows: both programs, on databases with data. */
module MigrationRows {
  import opened Basics
  import opened Schemas
  import opened Migrations
  import opened MigrationEffects
  import opened Renames

  /** Every value of `r` in the columns `cs` is in `q` too. */
  ghost predicate KeptRow(cs: set<string>, r: Row, q: Row) {
    forall c :: c in cs && c in r ==> c in q && q[c] == r[c]
  }

  /** Table `t` has the same row ids in `a` and `b`, and each row its values in the columns `cs`. */
  ghost predicate Kept(t: string, cs: set<string>, a: map<string, Table>, b: map<string, Table>) {
    && t in a && t in b && a[t].rows.Keys == b[t].rows.Keys
    && forall i :: i in a[t].rows ==> KeptRow(cs, a[t].rows[i], b[t].rows[i])
  }

  lemma KeptTwice(t: string, cs: set<string>, a: map<string, Table>, b: map<string, Table>, c: map<string, Table>)
    requires Kept(t, cs, a, b) && Kept(t, cs, b, c)
    ensures Kept(t, cs, a, c)
  {
    forall i | i in a[t].rows ensures KeptRow(cs, a[t].rows[i], c[t].rows[i]) {
      assert KeptRow(cs, a[t].rows[i], b[t].rows[i]) && KeptRow(cs, b[t].rows[i], c[t].rows[i]);
    }
  }

  /** A statement that leaves `t`'s rows and the columns `cs` alone; `rebuilt` also protects the temporary name. */
  predicate Soft(op: Ddl, t: string, cs: set<string>, rebuilt: bool) {
    match op
    case CreateTable(x, _) => rebuilt ==> x != Temp(t)
    case DropTable(x) => x != t
    case AddColumn(x, c, _) => x != t || c !in cs
    case DropColumn(x, c) => x != t || c !in cs
    case CopyRows(into, _, _) => into != t
    case RenameTable(x, to) => x != t && to != t && (rebuilt ==> to != Temp(t))
    case RenameColumn(_, _, _) => false
    case _ => true
  }

  /** The rebuild of `t`, copying at least the columns `cs`. */
  predicate Copying(ops: seq<Ddl>, t: string, cs: set<string>) {
    && |ops| == 4 && ops[0].CreateTable? && ops[0].t == Temp(t)
    && ops[1].CopyRows? && ops[1].into == Temp(t) && ops[1].t == t && (forall c :: c in cs ==> c in ops[1].shared)
    && ops[2] == DropTable(t) && ops[3] == RenameTable(Temp(t), t)
  }

  ghost predicate Mild(ops: seq<Ddl>, t: string, cs: set<string>, rebuilt: bool) {
    (forall op :: op in ops ==> Soft(op, t, cs, rebuilt)) || (rebuilt && Copying(ops, t, cs))
  }

  ghost predicate Ready(t: string, rebuilt: bool, db: Database) {
    t in db.tables && (rebuilt ==> Temp(t) !in db.tables)
  }

  lemma {:induction false} ExecAppend(a: seq<Ddl>, b: seq<Ddl>, db: Database)
    ensures ExecAll(a + b, db) == (var mid := ExecAll(a, db); if mid.Some? then ExecAll(b, mid.value) else None)
  {
    if a == [] {
      assert a + b == b;
    } else {
      var next := Exec(a[0], db);
      assert (a + b)[1..] == a[1..] + b && (a + b)[0] == a[0];
      if next.Some? { ExecAppend(a[1..], b, next.value); }
    }
  }

  lemma SoftKeeps(op: Ddl, t: string, cs: set<string>, rebuilt: bool, db: Database)
    requires Exec(op, db).Some? && Soft(op, t, cs, rebuilt) && Ready(t, rebuilt, db)
    ensures Kept(t, cs, db.tables, Exec(op, db).value.tables) && Ready(t, rebuilt, Exec(op, db).value)
  {
  }

  lemma {:induction false} SoftProgramKeeps(ops: seq<Ddl>, t: string, cs: set<string>, rebuilt: bool, db: Database)
    requires ExecAll(ops, db).Some? && (forall op :: op in ops ==> Soft(op, t, cs, rebuilt)) && Ready(t, rebuilt, db)
    ensures Kept(t, cs, db.tables, ExecAll(ops, db).value.tables) && Ready(t, rebuilt, ExecAll(ops, db).value)
  {
    if ops != [] {
      assert ops[0] in ops && forall op :: op in ops[1..] ==> op in ops;
      var next := Exec(ops[0], db).value;
      SoftKeeps(ops[0], t, cs, rebuilt, db);
      SoftProgramKeeps(ops[1..], t, cs, rebuilt, next);
      KeptTwice(t, cs, db.tables, next.tables, ExecAll(ops, db).value.tables);
    }
  }

  /** After create and copy, the temporary table holds the shared values; drop and rename move it into place. */
  lemma CopyingKeeps(ops: seq<Ddl>, t: string, cs: set<string>, db: Database)
    requires ExecAll(ops, db).Some? && Copying(ops, t, cs) && Ready(t, true, db)
    ensures Kept(t, cs, db.tables, ExecAll(ops, db).value.tables) && Ready(t, true, ExecAll(ops, db).value)
  {
    assert |Temp(t)| == |t| + 5;
    assert ops == ops[0..];
    ExecFrom(ops, 0, db);
    var d1 := Exec(ops[0], db).value;
    ExecFrom(ops, 1, d1);
    var d2 := Exec(ops[1], d1).value;
    CopyHolds(ops[0], ops[1], t, cs, db);
    ExecFrom(ops, 2, d2);
    var d3 := Exec(ops[2], d2).value;
    ExecFrom(ops, 3, d3);
    assert ExecAll(ops[4..], Exec(ops[3], d3).value) == Exec(ops[3], d3);
  }

  lemma ExecFrom(ops: seq<Ddl>, k: nat, db: Database)
    requires k < |ops|
    ensures ExecAll(ops[k..], db) ==
      (var next := Exec(ops[k], db); if next.Some? then ExecAll(ops[k + 1..], next.value) else None)
  {
    assert ops[k..][0] == ops[k] && ops[k..][1..] == ops[k + 1..];
  }

  lemma CopyHolds(create: Ddl, copy: Ddl, t: string, cs: set<string>, db: Database)
    requires create.CreateTable? && create.t == Temp(t) && Ready(t, true, db)
    requires copy.CopyRows? && copy.into == Temp(t) && copy.t == t && forall c :: c in cs ==> c in copy.shared
    requires Exec(create, db).Some? && Exec(copy, Exec(create, db).value).Some?
    ensures var after := Exec(copy, Exec(create, db).value).value.tables;
      t in after && Temp(t) in after && after[Temp(t)].rows.Keys == db.tables[t].rows.Keys
      && forall i :: i in db.tables[t].rows ==> KeptRow(cs, db.tables[t].rows[i], after[Temp(t)].rows[i])
  {
    assert |Temp(t)| == |t| + 5;
  }

  lemma MildKeeps(ops: seq<Ddl>, t: string, cs: set<string>, rebuilt: bool, db: Database)
    requires ExecAll(ops, db).Some? && Mild(ops, t, cs, rebuilt) && Ready(t, rebuilt, db)
    ensures Kept(t, cs, db.tables, ExecAll(ops, db).value.tables) && Ready(t, rebuilt, ExecAll(ops, db).value)
  {
    if rebuilt && Copying(ops, t, cs) {
      CopyingKeeps(ops, t, cs, db);
    } else {
      SoftProgramKeeps(ops, t, cs, rebuilt, db);
    }
  }

  ghost predicate AllMild(us: seq<Unit>, t: string, cs: set<string>, rebuilt: bool) {
    forall u :: u in us ==> Mild(u.fwd, t, cs, rebuilt) && Mild(u.rev, t, cs, rebuilt)
  }

  lemma {:induction false} ForwardKeeps(us: seq<Unit>, t: string, cs: set<string>, rebuilt: bool, db: Database)
    requires AllMild(us, t, cs, rebuilt) && ExecAll(Forward(us), db).Some? && Ready(t, rebuilt, db)
    ensures Kept(t, cs, db.tables, ExecAll(Forward(us), db).value.tables)
  {
    if us != [] {
      var u := us[0];
      assert u in us;
      ExecAppend(u.fwd, Forward(us[1..]), db);
      var mid := ExecAll(u.fwd, db).value;
      MildKeeps(u.fwd, t, cs, rebuilt, db);
      ForwardKeeps(us[1..], t, cs, rebuilt, mid);
      KeptTwice(t, cs, db.tables, mid.tables, ExecAll(Forward(us), db).value.tables);
    }
  }

  lemma {:induction false} ReverseKeeps(us: seq<Unit>, t: string, cs: set<string>, rebuilt: bool, db: Database)
    requires AllMild(us, t, cs, rebuilt) && ExecAll(Reverse(us), db).Some? && Ready(t, rebuilt, db)
    ensures Kept(t, cs, db.tables, ExecAll(Reverse(us), db).value.tables) &&
      Ready(t, rebuilt, ExecAll(Reverse(us), db).value)
  {
    if us != [] {
      var u := us[0];
      assert u in us;
      ExecAppend(Reverse(us[1..]), u.rev, db);
      var mid := ExecAll(Reverse(us[1..]), db).value;
      ReverseKeeps(us[1..], t, cs, rebuilt, db);
      MildKeeps(u.rev, t, cs, rebuilt, mid);
      KeptTwice(t, cs, db.tables, mid.tables, ExecAll(Reverse(us), db).value.tables);
    }
  }

  // ---------------------------------------------------------------- the units of a diff

  /** The columns of table `t` in both snapshots. */
  ghost function Shared(t: string, was: State, goal: State): set<string>
    requires t in Full(was).tables && t in Full(goal).tables
  {
    Full(was).tables[t].Keys * Full(goal).tables[t].Keys
  }

  lemma TempInjective(a: string, b: string)
    requires Temp(a) == Temp(b)
    ensures a == b
  {
    assert a == Temp(a)[..|a|] && b == Temp(b)[..|b|];
    assert |Temp(a)| == |a| + 5 && |Temp(b)| == |b| + 5;
  }

  lemma CopiesShared(t: string, create: Columns, from: Dict<Column>, to: Dict<Column>, cs: set<string>)
    requires IsDict(to) && cs <= from.at.Keys && cs <= to.at.Keys
    ensures Copying(Rebuild(t, create, from, to), t, cs)
  {
    CommonIsShared(to.keys, from.at);
    assert forall c :: c in cs ==> c in to.keys;
  }

  lemma OtherRebuildIsSoft(x: string, create: Columns, from: Dict<Column>, to: Dict<Column>, t: string,
                           cs: set<string>, rebuilt: bool)
    requires x != t && Temp(x) != t && (rebuilt ==> x != Temp(t))
    ensures forall op :: op in Rebuild(x, create, from, to) ==> Soft(op, t, cs, rebuilt)
  {
    if Temp(x) == Temp(t) { TempInjective(x, t); }
  }

  lemma RebuildIsMild(u: Unit, x: string, t: string, was: State, goal: State)
    requires Comparable(was, goal) && t in Full(was).tables && t in Full(goal).tables && Rebuilds(u, x, was, goal)
    ensures Mild(u.fwd, t, Shared(t, was, goal), Rebuilt(t, was, goal)) &&
      Mild(u.rev, t, Shared(t, was, goal), Rebuilt(t, was, goal))
  {
    var cs := Shared(t, was, goal);
    var a, b := was.tables.at[x], goal.tables.at[x];
    if x == t {
      CopiesShared(t, b.create, a.coldefs, b.coldefs, cs);
      CopiesShared(t, a.create, b.coldefs, a.coldefs, cs);
    } else {
      assert Temp(x) !in Full(was).tables;
      OtherRebuildIsSoft(x, b.create, a.coldefs, b.coldefs, t, cs, Rebuilt(t, was, goal));
      OtherRebuildIsSoft(x, a.create, b.coldefs, a.coldefs, t, cs, Rebuilt(t, was, goal));
    }
  }

  lemma OneSidedIsSoft(op: Ddl, t: string, was: State, goal: State)
    requires Comparable(was, goal) && t in Full(was).tables && t in Full(goal).tables && OneSided(op, was, goal)
    ensures Soft(op, t, Shared(t, was, goal), Rebuilt(t, was, goal))
  {
    if op.CreateTable? && Rebuilt(t, was, goal) {
      assert op.t in Full(was).tables || op.t in Full(goal).tables;
    }
  }

  lemma PhaseUnitIsMild(u: Unit, t: string, was: State, goal: State)
    requires Comparable(was, goal) && t in Full(was).tables && t in Full(goal).tables && PhaseUnit(u, was, goal)
    ensures Mild(u.fwd, t, Shared(t, was, goal), Rebuilt(t, was, goal)) &&
      Mild(u.rev, t, Shared(t, was, goal), Rebuilt(t, was, goal))
  {
    if |u.fwd| == 4 {
      RebuildIsMild(u, u.fwd[3].to, t, was, goal);
    } else {
      forall op | op in u.fwd || op in u.rev ensures Soft(op, t, Shared(t, was, goal), Rebuilt(t, was, goal)) {
        OneSidedIsSoft(op, t, was, goal);
      }
    }
  }

  lemma IndexUnitsAreMild(u: Unit, t: string, cs: set<string>, rebuilt: bool, was: State, goal: State)
    requires u in IndexPhase(was, goal)
    ensures Mild(u.fwd, t, cs, rebuilt) && Mild(u.rev, t, cs, rebuilt)
  {
    IndexCreateUnitsAre(goal.indexes.keys, was.indexes.at, goal.indexes.at);
    IndexDropUnitsAre(was.indexes.keys, was.indexes.at, goal.indexes.at);
  }

  lemma DiffIsMild(t: string, was: State, goal: State)
    requires Comparable(was, goal) && t in Full(was).tables && t in Full(goal).tables
    ensures AllMild(Diff(was, goal), t, Shared(t, was, goal), Rebuilt(t, was, goal))
  {
    var cs, rebuilt := Shared(t, was, goal), Rebuilt(t, was, goal);
    TablePhaseIs(was, goal);
    forall u | u in TablePhase(was, goal) ensures Mild(u.fwd, t, cs, rebuilt) && Mild(u.rev, t, cs, rebuilt) {
      PhaseUnitIsMild(u, t, was, goal);
    }
    forall u | u in IndexPhase(was, goal) ensures Mild(u.fwd, t, cs, rebuilt) && Mild(u.rev, t, cs, rebuilt) {
      IndexUnitsAreMild(u, t, cs, rebuilt, was, goal);
    }
  }

  /** Main result: on a database with the old schema both programs run; every table of both snapshots
      keeps its rows, and each row its values in the columns of both, there and back again. */
  lemma RowsSurvive(was: State, goal: State, db: Database, t: string)
    requires Comparable(was, goal) && NoIndexTouched(was, goal) && SharedNamesAgree(was, goal)
    requires SchemaOf(db) == Full(was) && t in Full(was).tables && t in Full(goal).tables
    ensures var there := ExecAll(Forward(Diff(was, goal)), db);
      && there.Some? && SchemaOf(there.value) == Full(goal) &&
        Kept(t, Shared(t, was, goal), db.tables, there.value.tables)
      && var back := ExecAll(Reverse(Diff(was, goal)), there.value);
      && back.Some? && SchemaOf(back.value) == Full(was) && Kept(t, Shared(t, was, goal), db.tables, back.value.tables)
  {
    var us := Diff(was, goal);
    DiffGoesThereAndBack(was, goal);
    var there := ExecAll(Forward(us), db).value;
    var back := ExecAll(Reverse(us), there).value;
    DiffIsMild(t, was, goal);
    assert forall x :: x in db.tables <==> x in SchemaOf(db).tables;
    assert forall x :: x in there.tables <==> x in SchemaOf(there).tables;
    ForwardKeeps(us, t, Shared(t, was, goal), Rebuilt(t, was, goal), db);
    ReverseKeeps(us, t, Shared(t, was, goal), Rebuilt(t, was, goal), there);
    KeptTwice(t, Shared(t, was, goal), db.tables, there.tables, back.tables);
  }

  // ---------------------------------------------------------------- renamed columns

  /** The name that column `c` of table `t` has after some renames. */
  function NewName(rs: seq<Rename>, t: string, c: string): string
    decreases rs
  {
    if rs == [] then c else NewName(rs[1..], t, OneName(rs[0], t, c))
  }

  function OneName(r: Rename, t: string, c: string): string { if r.table == t && r.column == c then r.to else c }

  /** `b` has the rows of table `t` in `a`, each value under its column's new name. */
  ghost predicate KeptAs(t: string, rs: seq<Rename>, a: map<string, Table>, b: map<string, Table>) {
    && t in a && t in b && a[t].rows.Keys == b[t].rows.Keys
    && (forall c :: c in a[t].cols ==> NewName(rs, t, c) in b[t].cols)
    && forall i, c :: i in a[t].rows && c in a[t].cols && c in a[t].rows[i] ==>
         NewName(rs, t, c) in b[t].rows[i] && b[t].rows[i][NewName(rs, t, c)] == a[t].rows[i][c]
  }

  /** The other way: `b` has them under the old names. */
  ghost predicate KeptBack(t: string, rs: seq<Rename>, a: map<string, Table>, b: map<string, Table>) {
    && t in a && t in b && a[t].rows.Keys == b[t].rows.Keys
    && (forall c :: c in b[t].cols ==> NewName(rs, t, c) in a[t].cols)
    && forall i, c :: i in a[t].rows && c in b[t].cols && NewName(rs, t, c) in a[t].rows[i] ==>
         c in b[t].rows[i] && b[t].rows[i][c] == a[t].rows[i][NewName(rs, t, c)]
  }

  lemma OneRenameKeeps(r: Rename, t: string, db: Database)
    requires Exec(RenameColumn(r.table, r.column, r.to), db).Some? && t in db.tables
    ensures KeptAs(t, [r], db.tables, Exec(RenameColumn(r.table, r.column, r.to), db).value.tables)
  {
    assert [r][1..] == [];
    forall c ensures NewName([r], t, c) == OneName(r, t, c) { }
  }

  lemma OneRenameBack(r: Rename, t: string, db: Database)
    requires Exec(RenameColumn(r.table, r.to, r.column), db).Some? && t in db.tables
    ensures KeptBack(t, [r], db.tables, Exec(RenameColumn(r.table, r.to, r.column), db).value.tables)
  {
    assert [r][1..] == [];
    forall c ensures NewName([r], t, c) == OneName(r, t, c) { }
  }

  lemma KeptAsTwice(rs: seq<Rename>, t: string, a: map<string, Table>, b: map<string, Table>, c: map<string, Table>)
    requires rs != [] && KeptAs(t, [rs[0]], a, b) && KeptAs(t, rs[1..], b, c)
    ensures KeptAs(t, rs, a, c)
  {
    assert [rs[0]][1..] == [];
    forall x ensures NewName(rs, t, x) == NewName(rs[1..], t, NewName([rs[0]], t, x)) { }
    hide NewName;
  }

  lemma KeptBackTwice(rs: seq<Rename>, t: string, a: map<string, Table>, b: map<string, Table>, c: map<string, Table>)
    requires rs != [] && KeptBack(t, rs[1..], a, b) && KeptBack(t, [rs[0]], b, c)
    ensures KeptBack(t, rs, a, c)
  {
    assert [rs[0]][1..] == [];
    forall x ensures NewName(rs, t, x) == NewName(rs[1..], t, NewName([rs[0]], t, x)) { }
    hide NewName;
  }

  lemma ExecOne(op: Ddl, db: Database)
    ensures ExecAll([op], db) == Exec(op, db)
  {
    assert [op][1..] == [];
  }

  lemma {:induction false} RenamesKeep(rs: seq<Rename>, t: string, db: Database)
    requires ExecAll(Forward(RenameUnits(rs)), db).Some? && t in db.tables
    ensures KeptAs(t, rs, db.tables, ExecAll(Forward(RenameUnits(rs)), db).value.tables)
    decreases rs
  {
    if rs != [] {
      var r, rest := rs[0], Forward(RenameUnits(rs[1..]));
      var op := RenameColumn(r.table, r.column, r.to);
      assert Forward(RenameUnits(rs)) == [op] + rest by {
        assert RenameUnits(rs)[0].fwd == [op] && RenameUnits(rs)[1..] == RenameUnits(rs[1..]);
      }
      ExecAppend([op], rest, db);
      ExecOne(op, db);
      var mid := Exec(op, db).value;
      OneRenameKeeps(r, t, db);
      RenamesKeep(rs[1..], t, mid);
      KeptAsTwice(rs, t, db.tables, mid.tables, ExecAll(rest, mid).value.tables);
    }
  }

  lemma {:induction false} RenamesBackKeep(rs: seq<Rename>, t: string, db: Database)
    requires ExecAll(Reverse(RenameUnits(rs)), db).Some? && t in db.tables
    ensures KeptBack(t, rs, db.tables, ExecAll(Reverse(RenameUnits(rs)), db).value.tables)
    decreases rs
  {
    if rs != [] {
      var r, rest := rs[0], Reverse(RenameUnits(rs[1..]));
      var op := RenameColumn(r.table, r.to, r.column);
      assert Reverse(RenameUnits(rs)) == rest + [op] by {
        assert RenameUnits(rs)[0].rev == [op] && RenameUnits(rs)[1..] == RenameUnits(rs[1..]);
      }
      ExecAppend(rest, [op], db);
      var mid := ExecAll(rest, db).value;
      RenamesBackKeep(rs[1..], t, db);
      ExecOne(op, mid);
      OneRenameBack(r, t, mid);
      KeptBackTwice(rs, t, db.tables, mid.tables, Exec(op, mid).value.tables);
    }
  }

  /** Every value of table `t` in `a` is in `b`, in a column that `b` still has, under its new name. */
  ghost predicate Carrying(t: string, rs: seq<Rename>, cols: Columns, a: map<string, Table>, b: map<string, Table>) {
    && t in a && t in b && a[t].rows.Keys == b[t].rows.Keys
    && forall i, c :: i in a[t].rows && c in a[t].cols && c in a[t].rows[i] && NewName(rs, t, c) in cols ==>
         NewName(rs, t, c) in b[t].rows[i] && b[t].rows[i][NewName(rs, t, c)] == a[t].rows[i][c]
  }

  /** Those values are back under the old names in `d`. */
  ghost predicate Restoring(t: string, rs: seq<Rename>, cols: Columns, a: map<string, Table>, d: map<string, Table>) {
    && t in a && t in d && a[t].rows.Keys == d[t].rows.Keys
    && forall i, c :: i in a[t].rows && c in a[t].cols && c in a[t].rows[i] && NewName(rs, t, c) in cols ==>
         c in d[t].rows[i] && d[t].rows[i][c] == a[t].rows[i][c]
  }

  lemma CarryingThrough(t: string, rs: seq<Rename>, cols: Columns, cs: set<string>,
                        a: map<string, Table>, b: map<string, Table>, c: map<string, Table>)
    requires KeptAs(t, rs, a, b) && Kept(t, cs, b, c) && t in b && cs == b[t].cols.Keys * cols.Keys
    ensures Carrying(t, rs, cols, a, c)
  {
    hide NewName;
    forall i | i in b[t].rows ensures KeptRow(cs, b[t].rows[i], c[t].rows[i]) { }
  }

  lemma RestoringThrough(t: string, rs: seq<Rename>, cols: Columns, cs: set<string>,
                         a: map<string, Table>, b: map<string, Table>, c: map<string, Table>, d: map<string, Table>)
    requires KeptAs(t, rs, a, b) && Kept(t, cs, b, c) && t in b && cs == b[t].cols.Keys * cols.Keys
    requires KeptBack(t, rs, c, d) && d[t].cols == a[t].cols
    ensures Restoring(t, rs, cols, a, d)
  {
    hide NewName;
    forall i | i in b[t].rows ensures KeptRow(cs, b[t].rows[i], c[t].rows[i]) { }
  }

  /** Main result, with renames: the written program keeps the rows, each value under its column's new name;
      and when it leads back, under the old name again. */
  lemma RowsSurviveRenames(was: State, rs: seq<Rename>, goal: State, db: Database, t: string)
    requires Writable(was, rs, goal) && Works(was, rs, goal) && SchemaOf(db) == Full(was)
    requires t in Full(was).tables && t in Full(goal).tables
    ensures var cols := Full(goal).tables[t]; var there := ExecAll(Forward(Program(was, rs, goal)), db);
      && there.Some? && SchemaOf(there.value) == Full(goal) && Carrying(t, rs, cols, db.tables, there.value.tables)
      && (NothingRespelled(was, rs, goal) ==>
           var back := ExecAll(Reverse(Program(was, rs, goal)), there.value);
           && back.Some? && SchemaOf(back.value) == Full(was) && Restoring(t, rs, cols, db.tables, back.value.tables))
  {
    hide *;
    var renamed, now, cols := RenamedAll(was, rs), CarriedAll(was, rs), Full(goal).tables[t];
    Stages(was, rs, goal);
    var mid := ExecAll(Forward(RenameUnits(rs)), db).value;
    TablesOf(db, t);
    RenamesKeep(rs, t, db);
    TablesOf(mid, t);
    RowsSurvive(now, goal, mid, t);
    var there := ExecAll(Forward(Diff(now, goal)), mid).value;
    SharedIs(t, now, goal, mid);
    ExecAppend(Forward(RenameUnits(rs)), Forward(Diff(now, goal)), db);
    CarryingThrough(t, rs, cols, Shared(t, now, goal), db.tables, mid.tables, there.tables);
    if NothingRespelled(was, rs, goal) {
      StagesBack(was, rs, goal);
      var low := ExecAll(Reverse(Diff(now, goal)), there).value;
      TablesOf(low, t);
      ExecAppend(Reverse(Diff(now, goal)), Reverse(RenameUnits(rs)), there);
      RenamesBackKeep(rs, t, low);
      var back := ExecAll(Reverse(RenameUnits(rs)), low).value;
      TablesOf(back, t);
      RestoringThrough(t, rs, cols, Shared(t, now, goal), db.tables, mid.tables, low.tables, back.tables);
    }
  }

  lemma TablesOf(db: Database, t: string)
    ensures t in db.tables <==> t in SchemaOf(db).tables
    ensures t in db.tables ==> SchemaOf(db).tables[t] == db.tables[t].cols
  {
  }

  lemma SharedIs(t: string, now: State, goal: State, db: Database)
    requires t in Full(now).tables && t in Full(goal).tables && SchemaOf(db) == Full(now)
    ensures t in db.tables && Shared(t, now, goal) == db.tables[t].cols.Keys * Full(goal).tables[t].Keys
  {
    TablesOf(db, t);
  }

  /** The forward program in its two stages. */
  lemma Stages(was: State, rs: seq<Rename>, goal: State)
    requires Writable(was, rs, goal) && Works(was, rs, goal)
    ensures var now := CarriedAll(was, rs);
      && Comparable(now, goal) && NoIndexTouched(now, goal) && SharedNamesAgree(now, goal)
      && Run(Forward(RenameUnits(rs)), Full(was)) == Some(Full(now)) && Full(now).tables.Keys == Full(was).tables.Keys
      && Forward(Program(was, rs, goal)) == Forward(RenameUnits(rs)) + Forward(Diff(now, goal))
  {
    LinksForward(was, rs);
    AlikeItself(was);
    RenamedIsAlike(was, was, rs);
    DiffAlike(RenamedAll(was, rs), CarriedAll(was, rs), goal);
    ProgramsAppend(RenameUnits(rs), Diff(RenamedAll(was, rs), goal));
  }

  /** And the reverse program, when nothing was respelled. */
  lemma StagesBack(was: State, rs: seq<Rename>, goal: State)
    requires Writable(was, rs, goal) && Works(was, rs, goal) && NothingRespelled(was, rs, goal)
    ensures var now := CarriedAll(was, rs);
      && Reverse(Program(was, rs, goal)) == Reverse(Diff(now, goal)) + Reverse(RenameUnits(rs))
      && Run(Reverse(RenameUnits(rs)), Full(now)) == Some(Full(was))
  {
    RenamesLink(was, rs);
    DiffAlike(RenamedAll(was, rs), CarriedAll(was, rs), goal);
    ProgramsAppend(RenameUnits(rs), Diff(RenamedAll(was, rs), goal));
  }
}
