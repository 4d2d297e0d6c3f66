/** Undoing a migration with renames: exactly when the written reverse program leads back. */
module RenameUndoing {
  import opened Basics
  import opened Schemas
  import opened Migrations
  import opened MigrationEffects
  import opened Renames

  // ---------------------------------------------------------------- what statements can remake

  lemma {:induction false} ReverseHolds(us: seq<Unit>)
    ensures forall op :: op in Reverse(us) <==> exists u :: u in us && op in u.rev
  {
    if us != [] {
      ReverseHolds(us[1..]);
      assert forall x :: x in us <==> x == us[0] || x in us[1..];
    }
  }

  /** About indexes only, and makes index `n` only as `d`. */
  predicate MakesIndex(op: Ddl, n: string, d: IndexDef) {
    match op
    case CreateIndex(m, ix) => m == n ==> ix == d
    case DropIndex(m) => m != n
    case _ => false
  }

  lemma {:induction false} IndexMade(ops: seq<Ddl>, n: string, d: IndexDef, s: Schema)
    requires forall op :: op in ops ==> MakesIndex(op, n, d)
    requires if n in s.indexes then s.indexes[n] == d else CreateIndex(n, d) in ops
    ensures n !in s.indexes && !Fits(d, s.tables) ==> Run(ops, s).None?
    ensures Run(ops, s).Some? ==>
      var t := Run(ops, s).value; t.tables == s.tables && n in t.indexes && t.indexes[n] == d
  {
    if ops != [] {
      assert ops[0] in ops && forall op :: op in ops <==> op == ops[0] || op in ops[1..];
      var next := Step(ops[0], s);
      if next.Some? { IndexMade(ops[1..], n, d, next.value); }
    }
  }

  lemma {:induction false} IndexOpsKeepTables(ops: seq<Ddl>, s: Schema)
    requires Run(ops, s).Some? && forall op :: op in ops ==> op.CreateIndex? || op.DropIndex?
    ensures Run(ops, s).value.tables == s.tables
  {
    if ops != [] {
      assert ops[0] in ops && forall op :: op in ops[1..] ==> op in ops;
      IndexOpsKeepTables(ops[1..], Step(ops[0], s).value);
    }
  }

  /** Makes table `t` only with the columns `k`, and changes no columns of it. */
  predicate MakesTable(op: Ddl, t: string, k: Columns) {
    match op
    case CreateTable(x, cols) => x == t ==> cols == k
    case AddColumn(x, _, _) => x != t
    case DropColumn(x, _) => x != t
    case RenameTable(_, to) => to != t
    case RenameColumn(_, _, _) => false
    case _ => true
  }

  lemma {:induction false} TableMade(ops: seq<Ddl>, t: string, k: Columns, s: Schema)
    requires Run(ops, s).Some? && forall op :: op in ops ==> MakesTable(op, t, k)
    requires t in s.tables ==> s.tables[t] == k
    ensures var r := Run(ops, s).value; t in r.tables ==> r.tables[t] == k
  {
    if ops != [] {
      assert ops[0] in ops && forall op :: op in ops[1..] ==> op in ops;
      TableMade(ops[1..], t, k, Step(ops[0], s).value);
    }
  }

  /** Replaces table `t` only by `<t>__new`, and makes that only with the columns `k`. */
  predicate Replaces(op: Ddl, t: string, k: Columns) {
    match op
    case CreateTable(x, cols) => x != t && (x == Temp(t) ==> cols == k)
    case AddColumn(x, _, _) => x != t && x != Temp(t)
    case DropColumn(x, _) => x != t && x != Temp(t)
    case RenameTable(x, to) => to != Temp(t) && (to == t ==> x == Temp(t))
    case RenameColumn(_, _, _) => false
    case _ => true
  }

  lemma ReplacedStep(op: Ddl, t: string, g: Columns, k: Columns, s: Schema)
    requires Step(op, s).Some? && Replaces(op, t, k)
    requires (t in s.tables ==> s.tables[t] == g || s.tables[t] == k) &&
      (Temp(t) in s.tables ==> s.tables[Temp(t)] == k)
    ensures var r := Step(op, s).value;
      && (t in r.tables ==> r.tables[t] == g || r.tables[t] == k)
      && (Temp(t) in r.tables ==> r.tables[Temp(t)] == k)
  {
    assert Temp(t) != t by { assert |Temp(t)| == |t| + 5; }
  }

  lemma {:induction false} TableReplaced(ops: seq<Ddl>, t: string, g: Columns, k: Columns, s: Schema)
    requires Run(ops, s).Some? && forall op :: op in ops ==> Replaces(op, t, k)
    requires (t in s.tables ==> s.tables[t] == g || s.tables[t] == k) &&
      (Temp(t) in s.tables ==> s.tables[Temp(t)] == k)
    ensures var r := Run(ops, s).value; t in r.tables ==> r.tables[t] == g || r.tables[t] == k
  {
    hide Step;
    hide Replaces;
    hide Temp;
    if ops != [] {
      assert ops[0] in ops && forall op :: op in ops[1..] ==> op in ops;
      ReplacedStep(ops[0], t, g, k, s);
      TableReplaced(ops[1..], t, g, k, Step(ops[0], s).value);
    }
  }

  // ---------------------------------------------------------------- the undoing program

  /** What is known when a program with renames has done its work. */
  ghost predicate Migrated(was: State, rs: seq<Rename>, goal: State) {
    Proper(was) && Comparable(CarriedAll(was, rs), goal) && Works(was, rs, goal)
  }

  lemma IndexUndoingIs(was: State, goal: State)
    ensures forall op :: op in Reverse(IndexPhase(was, goal)) ==>
      (op.CreateIndex? && op.name in was.indexes.at && op.index == was.indexes.at[op.name])
      || (op.DropIndex? && op.name !in was.indexes.at)
    ensures forall n :: n in was.indexes.keys && n in was.indexes.at && n !in goal.indexes.at ==>
      CreateIndex(n, was.indexes.at[n]) in Reverse(IndexPhase(was, goal))
  {
    var wi, gi := was.indexes.at, goal.indexes.at;
    IndexCreateUnitsAre(goal.indexes.keys, wi, gi);
    IndexDropUnitsAre(was.indexes.keys, wi, gi);
    ReverseHolds(IndexPhase(was, goal));
    forall n | n in was.indexes.keys && n in wi && n !in gi
      ensures CreateIndex(n, wi[n]) in Reverse(IndexPhase(was, goal))
    {
      assert Unindexing(n, wi[n]) in IndexDropUnits(was.indexes.keys, wi, gi);
      assert CreateIndex(n, wi[n]) in Unindexing(n, wi[n]).rev;
    }
  }

  /** The stages of a reverse program that leads back: before the renames are undone the database has
      the carried snapshot. */
  lemma UndoneStages(was: State, rs: seq<Rename>, goal: State) returns (mid: Schema)
    requires Migrated(was, rs, goal) && Run(Reverse(Program(was, rs, goal)), Full(goal)) == Some(Full(was))
    ensures var renamed := RenamedAll(was, rs);
      && Run(Reverse(IndexPhase(renamed, goal)), Full(goal)) == Some(mid)
      && Run(Reverse(TablePhase(renamed, goal)), mid) == Some(Full(CarriedAll(was, rs)))
  {
    var renamed := RenamedAll(was, rs);
    var first, second, third := Reverse(IndexPhase(renamed, goal)), Reverse(TablePhase(renamed, goal)),
      Reverse(RenameUnits(rs));
    ProgramsAppend(RenameUnits(rs), Diff(renamed, goal));
    ProgramsAppend(TablePhase(renamed, goal), IndexPhase(renamed, goal));
    RunAppend(first + second, third, Full(goal));
    RunAppend(first, second, Full(goal));
    mid := Run(first, Full(goal)).value;
    var x := Run(second, mid).value;
    ProperFits(goal);
    RunKeepsFit(first + second, Full(goal));
    UndoneRenames(rs, x, Full(was));
    RenamesLink(was, rs);
  }

  /** The statements that undo a table phase. */
  ghost predicate Undoes(op: Ddl, was: State, goal: State) {
    match op
    case CreateTable(x, cols) =>
      || (x in was.tables.at && x !in goal.tables.at && cols == was.tables.at[x].create)
      || (x in was.through.at && x !in goal.through.at && cols == was.through.at[x])
      || (exists y {:trigger Rebuilt(y, was, goal)} ::
        Rebuilt(y, was, goal) && x == Temp(y) && cols == was.tables.at[y].create)
    case AddColumn(x, _, _) => Survives(x, was, goal) && !Rebuilt(x, was, goal)
    case DropColumn(x, _) => Survives(x, was, goal) && !Rebuilt(x, was, goal)
    case RenameTable(x, to) => Rebuilt(to, was, goal) && x == Temp(to)
    case DropTable(_) => true
    case CopyRows(_, _, _) => true
    case _ => false
  }

  lemma TableUnitsUndo(t: string, was: State, goal: State, u: Unit, op: Ddl)
    requires Survives(t, was, goal) && u in TableUnits(t, was.tables.at[t], goal.tables.at[t]) && op in u.rev
    ensures Undoes(op, was, goal)
  {
    var a, b := was.tables.at[t].coldefs, goal.tables.at[t].coldefs;
    if !Altered(a, b) {
      AddColumnUnitsAre(t, b.keys, a, b);
      DropColumnUnitsAre(t, a.keys, a, b);
    } else {
      assert Rebuilt(t, was, goal);
    }
  }

  lemma TableUndoingIs(was: State, goal: State)
    ensures forall op :: op in Reverse(TablePhase(was, goal)) ==> Undoes(op, was, goal)
  {
    ReverseHolds(TablePhase(was, goal));
    CreateUnitsAre(goal.tables.keys, Creates(was.tables), Creates(goal.tables));
    DropUnitsAre(was.tables.keys, Creates(was.tables), Creates(goal.tables));
    ColumnUnitsAre(goal.tables.keys, was, goal);
    CreateUnitsAre(goal.through.keys, was.through.at, goal.through.at);
    DropUnitsAre(was.through.keys, was.through.at, goal.through.at);
    forall u, op | u in TablePhase(was, goal) && op in u.rev ensures Undoes(op, was, goal) {
      if u in ColumnUnits(goal.tables.keys, was, goal) {
        var t :| t in goal.tables.keys && Survives(t, was, goal) &&
          u in TableUnits(t, was.tables.at[t], goal.tables.at[t]);
        TableUnitsUndo(t, was, goal, u, op);
      }
    }
  }

  // ---------------------------------------------------------------- what coming back tells

  /** The recorded snapshot keeps the old texts of what the database respells. */
  lemma TwoSnapshots(was: State, rs: seq<Rename>)
    ensures var renamed := RenamedAll(was, rs);
      && Alike(renamed, CarriedAll(was, rs)) && renamed.through == was.through && renamed.indexes == was.indexes
      && Full(renamed).tables.Keys == Full(was).tables.Keys == Full(CarriedAll(was, rs)).tables.Keys
  {
    AlikeItself(was);
    RenamedIsAlike(was, was, rs);
  }

  lemma RebuiltApart(y: string, a: State, now: State, goal: State)
    requires Alike(a, now) && Comparable(now, goal) && Rebuilt(y, a, goal)
    ensures Rebuilt(y, now, goal) && y in now.tables.at && y in goal.tables.at && y !in now.through.at
    ensures Temp(y) !in Full(now).tables && Temp(y) !in Full(goal).tables
    ensures now.tables.at[y].create == now.tables.at[y].coldefs.at &&
      now.tables.at[y].coldefs.at != goal.tables.at[y].coldefs.at
  {
    assert Rebuilt(y, now, goal);
  }

  /** Undoing the index phase makes a dropped index again, as recorded, or fails. */
  lemma IndexRemade(a: State, goal: State, n: string, s: Schema)
    requires n in a.indexes.keys && n in a.indexes.at && n !in goal.indexes.at && n !in s.indexes
    ensures var d := a.indexes.at[n]; var end := Run(Reverse(IndexPhase(a, goal)), s);
      && (!Fits(d, s.tables) ==> end.None?)
      && (end.Some? ==> n in end.value.indexes && end.value.indexes[n] == d)
  {
    IndexUndoingIs(a, goal);
    hide IndexPhase;
    hide Fits;
    IndexMade(Reverse(IndexPhase(a, goal)), n, a.indexes.at[n], s);
  }

  lemma TablesLeaveIndex(a: State, now: State, goal: State, d: IndexDef, n: string, op: Ddl)
    requires Alike(a, now) && Comparable(now, goal) && Undoes(op, a, goal) && d.table in Full(now).tables
    ensures LeavesIndex(op, n, d)
  {
    if op.RenameTable? { RebuiltApart(op.to, a, now, goal); }
  }

  lemma IndexKeptSpelling(a: State, now: State, goal: State, mid: Schema, n: string)
    requires Alike(a, now) && Comparable(now, goal)
    requires n in a.indexes.keys && n in a.indexes.at && n !in goal.indexes.at &&
      a.indexes.at[n].table in Full(now).tables
    requires Run(Reverse(IndexPhase(a, goal)), Full(goal)) == Some(mid)
    requires Run(Reverse(TablePhase(a, goal)), mid) == Some(Full(now))
    ensures n in now.indexes.at && now.indexes.at[n] == a.indexes.at[n]
  {
    var d := a.indexes.at[n];
    assert n in now.indexes.at && Full(now).indexes == now.indexes.at && n !in Full(goal).indexes;
    hide Comparable;
    hide Alike;
    hide Undoes;
    hide TablePhase;
    hide IndexPhase;
    hide Full;
    hide Fits;
    IndexRemade(a, goal, n, Full(goal));
    TableUndoingIs(a, goal);
    forall op | op in Reverse(TablePhase(a, goal)) ensures LeavesIndex(op, n, d) {
      TablesLeaveIndex(a, now, goal, d, n, op);
    }
    IndexFate(Reverse(TablePhase(a, goal)), n, d, mid);
  }

  lemma RemakesTable(op: Ddl, a: State, now: State, goal: State, t: string, k: Columns)
    requires Alike(a, now) && Comparable(now, goal) && Undoes(op, a, goal)
    requires t in Full(now).tables && t !in Full(goal).tables
    requires k == if t in a.through.at then a.through.at[t] else a.tables.at[t].create
    ensures MakesTable(op, t, k)
  {
    if op.CreateTable? {
      if y :| Rebuilt(y, a, goal) && op.t == Temp(y) { RebuiltApart(y, a, now, goal); }
    }
  }

  lemma TableKeptSpelling(a: State, now: State, goal: State, mid: Schema, t: string, k: Columns)
    requires Alike(a, now) && Comparable(now, goal) && mid.tables == Full(goal).tables
    requires Run(Reverse(TablePhase(a, goal)), mid) == Some(Full(now))
    requires t in Full(now).tables && t !in Full(goal).tables && (t in a.through.at || t in a.tables.at)
    requires k == if t in a.through.at then a.through.at[t] else a.tables.at[t].create
    ensures Full(now).tables[t] == k
  {
    TableUndoingIs(a, goal);
    forall op | op in Reverse(TablePhase(a, goal)) ensures MakesTable(op, t, k) {
      RemakesTable(op, a, now, goal, t, k);
    }
    hide Comparable;
    hide Full;
    hide TablePhase;
    hide Alike;
    TableMade(Reverse(TablePhase(a, goal)), t, k, mid);
  }

  lemma ReplacesTable(op: Ddl, a: State, now: State, goal: State, t: string)
    requires Alike(a, now) && Comparable(now, goal) && Undoes(op, a, goal) && Rebuilt(t, a, goal)
    ensures Replaces(op, t, a.tables.at[t].create)
  {
    hide Temp;
    hide Alike;
    hide Comparable;
    hide Full;
    RebuiltApart(t, a, now, goal);
    forall x
      ensures x in a.tables.at || x in a.through.at ==> x in Full(now).tables
      ensures x in a.through.at ==> x != t
    {
      NamedInNow(x, a, now, goal, t);
    }
    if op.CreateTable? {
      if y :| Rebuilt(y, a, goal) && op.t == Temp(y) && op.cols == a.tables.at[y].create {
        RebuiltApart(y, a, now, goal);
        TempTells(y, t);
      }
    }
  }

  lemma NamedInNow(x: string, a: State, now: State, goal: State, t: string)
    requires Alike(a, now) && Comparable(now, goal) && Rebuilt(t, a, goal)
    ensures x in a.tables.at || x in a.through.at ==> x in Full(now).tables
    ensures x in a.through.at ==> x != t
  {
  }

  lemma TempTells(y: string, t: string)
    ensures Temp(y) == Temp(t) ==> y == t
  {
    if Temp(y) == Temp(t) { assert Temp(y)[..|y|] == y && Temp(t)[..|t|] == t; }
  }

  lemma RebuiltKeptSpelling(a: State, now: State, goal: State, mid: Schema, t: string)
    requires Alike(a, now) && Comparable(now, goal) && mid.tables == Full(goal).tables
    requires Run(Reverse(TablePhase(a, goal)), mid) == Some(Full(now)) && Rebuilt(t, a, goal)
    ensures now.tables.at[t].create == a.tables.at[t].create
  {
    var k, g := a.tables.at[t].create, goal.tables.at[t].coldefs.at;
    RebuiltApart(t, a, now, goal);
    assert Full(now).tables[t] == now.tables.at[t].coldefs.at && t in Full(now).tables;
    assert t in mid.tables ==> mid.tables[t] == g;
    TableUndoingIs(a, goal);
    forall op | op in Reverse(TablePhase(a, goal)) ensures Replaces(op, t, k) {
      ReplacesTable(op, a, now, goal, t);
    }
    hide Comparable;
    hide Full;
    hide TablePhase;
    hide Alike;
    TableReplaced(Reverse(TablePhase(a, goal)), t, g, k, mid);
  }

  // ---------------------------------------------------------------- exactly when rolling back works

  lemma KeptSpelling(a: State, now: State, goal: State, mid: Schema)
    requires Alike(a, now) && Comparable(now, goal) && IsDict(a.indexes)
    requires forall n :: n in a.indexes.at ==> a.indexes.at[n].table in Full(now).tables
    requires Run(Reverse(IndexPhase(a, goal)), Full(goal)) == Some(mid)
    requires Run(Reverse(TablePhase(a, goal)), mid) == Some(Full(now))
    ensures SameMakings(a, now, goal)
  {
    IndexUndoingIs(a, goal);
    IndexOpsKeepTables(Reverse(IndexPhase(a, goal)), Full(goal));
    forall n | n in a.indexes.at && n !in goal.indexes.at ensures a.indexes.at[n] == now.indexes.at[n] {
      IndexKeptSpelling(a, now, goal, mid, n);
    }
    forall t | t in a.through.at && t !in goal.through.at ensures a.through.at[t] == now.through.at[t] {
      TableKeptSpelling(a, now, goal, mid, t, a.through.at[t]);
    }
    forall t | t in a.tables.at && (t !in goal.tables.at || Rebuilt(t, a, goal))
      ensures a.tables.at[t].create == now.tables.at[t].create
    {
      if t in goal.tables.at {
        RebuiltKeptSpelling(a, now, goal, mid, t);
      } else {
        TableKeptSpelling(a, now, goal, mid, t, a.tables.at[t].create);
      }
    }
  }

  /** Main result, coming back: once the program has run, its reverse leads back if and only if no
      rename respelled a table, through table or index that it makes again. */
  lemma UndoingWorksExactlyWhen(was: State, rs: seq<Rename>, goal: State)
    requires Migrated(was, rs, goal)
    ensures Run(Reverse(Program(was, rs, goal)), Full(goal)) == Some(Full(was)) <==> NothingRespelled(was, rs, goal)
  {
    var renamed, now := RenamedAll(was, rs), CarriedAll(was, rs);
    TwoSnapshots(was, rs);
    forall n | n in was.indexes.at ensures was.indexes.at[n].table in Full(now).tables {
      assert Fits(was.indexes.at[n], Defined(was));
    }
    assert IsDict(was.indexes);
    hide Comparable;
    hide Proper;
    hide Full;
    hide Program;
    hide Works;
    hide RenamedAll;
    hide CarriedAll;
    hide Alike;
    hide SameMakings;
    hide TablePhase;
    hide IndexPhase;
    if NothingRespelled(was, rs, goal) { ProgramLinks(was, rs, goal); }
    if Run(Reverse(Program(was, rs, goal)), Full(goal)) == Some(Full(was)) {
      var mid := UndoneStages(was, rs, goal);
      KeptSpelling(renamed, now, goal, mid);
    }
  }

  /** The reverse program undoes the index phase first. */
  lemma UndoingStops(before: seq<Unit>, a: State, goal: State, s: Schema)
    requires Run(Reverse(IndexPhase(a, goal)), s).None?
    ensures Run(Reverse(before + Diff(a, goal)), s).None?
  {
    hide IndexPhase;
    hide TablePhase;
    var first, second := Reverse(IndexPhase(a, goal)), Reverse(TablePhase(a, goal));
    ProgramsAppend(before, Diff(a, goal));
    ProgramsAppend(TablePhase(a, goal), IndexPhase(a, goal));
    RunAppend(first, second, s);
    RunAppend(first + second, Reverse(before), s);
  }

  /** The dropped index `n` stood on a column whose name is gone. */
  predicate LosesColumn(was: State, goal: State, n: string, c: string) {
    && n in was.indexes.at && n !in goal.indexes.at && c in was.indexes.at[n].columns
    && var t := was.indexes.at[n].table;
    t !in goal.tables.at || c !in goal.tables.at[t].coldefs.at
  }

  lemma LostColumn(was: State, now: State, goal: State, n: string, c: string)
    requires Proper(was) && Comparable(now, goal) && LosesColumn(was, goal, n, c) &&
      was.tables.at.Keys == now.tables.at.Keys
    ensures !Fits(was.indexes.at[n], Full(goal).tables) && n in was.indexes.keys
  {
    var d := was.indexes.at[n];
    assert Fits(d, Defined(was)) && d.table !in goal.through.at;
  }

  /** An index that is made again on a column that is gone stops the reverse program. */
  lemma LostColumnStopsUndoing(was: State, rs: seq<Rename>, goal: State, n: string, c: string)
    requires Proper(was) && Comparable(CarriedAll(was, rs), goal) && LosesColumn(was, goal, n, c)
    ensures Run(Reverse(Program(was, rs, goal)), Full(goal)).None?
  {
    var renamed, now := RenamedAll(was, rs), CarriedAll(was, rs);
    TwoSnapshots(was, rs);
    assert was.tables.at.Keys == renamed.tables.at.Keys == now.tables.at.Keys by {
      AlikeItself(was);
      RenamedIsAlike(was, was, rs);
    }
    assert n !in Full(goal).indexes && Program(was, rs, goal) == RenameUnits(rs) + Diff(renamed, goal);
    hide *;
    LostColumn(was, now, goal, n, c);
    IndexRemade(renamed, goal, n, Full(goal));
    UndoingStops(RenameUnits(rs), renamed, goal, Full(goal));
  }

  /** A table of one indexed column. */
  function OneTable(c: string, index: string, def: Column): State {
    var cols := map[c := def];
    State(Dict(["t"], map["t" := TableDef(Dict([c], cols), cols)]), Dict([], map[]),
      Dict([index], map[index := IndexDef("t", [c])]))
  }

  lemma OneTableCarried(def: Column)
    ensures CarriedAll(OneTable("a", "ix_t_a", def), [Rename("t", "a", "b")]) == OneTable("b", "ix_t_a", def)
  {
    var was, now, r := OneTable("a", "ix_t_a", def), OneTable("b", "ix_t_a", def), Rename("t", "a", "b");
    assert [r][1..] == [];
    assert Dropping(["a"], "a") == [] && [] + ["b"] == ["b"];
    assert RenamedKey(was.tables.at["t"].coldefs, "a", "b") == now.tables.at["t"].coldefs;
    assert RenamedColumns(was.tables.at["t"].create, "a", "b") == now.tables.at["t"].create;
    assert RenamedIn(["a"], "a", "b") == ["b"];
    hide RenamedKey;
    hide RenamedColumns;
    hide RenamedIn;
    assert Respelled(was.indexes.at, "t", "a", "b") == now.indexes.at;
    assert Carried(was, r).tables.at == now.tables.at;
  }

  lemma OneTableComparable(def: Column)
    ensures var now, goal := OneTable("b", "ix_t_a", def), OneTable("b", "ix_t_b", def);
      Comparable(now, goal) && NoIndexTouched(now, goal) && SharedNamesAgree(now, goal)
  {
  }

  lemma OneTableMigrates(def: Column)
    ensures var was, goal, rs := OneTable("a", "ix_t_a", def), OneTable("b", "ix_t_b", def), [Rename("t", "a", "b")];
      && Migrated(was, rs, goal) && Writable(was, rs, goal) && Works(was, rs, goal)
      && Proper(was) && Comparable(CarriedAll(was, rs), goal) && LosesColumn(was, goal, "ix_t_a", "a")
  {
    var was, rs := OneTable("a", "ix_t_a", def), [Rename("t", "a", "b")];
    assert Proper(was) && RenameOk(was, rs[0]) && rs[1..] == [];
    assert was.indexes.at["ix_t_a"].columns[0] == "a";
    OneTableCarried(def);
    OneTableComparable(def);
    hide Comparable;
    hide Carried;
  }

  /** For one, renaming an indexed column migrates, and cannot be rolled back: the old index is made
      again while the column still has its new name. */
  lemma IndexedColumnRenameCannotBeUndone(def: Column)
    ensures var was, goal, rs := OneTable("a", "ix_t_a", def), OneTable("b", "ix_t_b", def), [Rename("t", "a", "b")];
      && Migrated(was, rs, goal) && Run(Forward(Program(was, rs, goal)), Full(was)) == Some(Full(goal))
      && Run(Reverse(Program(was, rs, goal)), Full(goal)).None?
  {
    hide *;
    var was, goal, rs := OneTable("a", "ix_t_a", def), OneTable("b", "ix_t_b", def), [Rename("t", "a", "b")];
    OneTableMigrates(def);
    ProgramWorksExactlyWhen(was, rs, goal);
    LostColumnStopsUndoing(was, rs, goal, "ix_t_a", "a");
  }
}
