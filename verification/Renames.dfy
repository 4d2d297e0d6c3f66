/** `makemigrations` with renamed columns: renames go before the diff, and are undone after it. The
    recorded snapshot gets the new column names; CREATE texts, through tables and indexes keep the
    old ones, while in the database they follow. */
module Renames {
  import opened Basics
  import opened Schemas
  import opened Migrations
  import opened MigrationEffects

  datatype Rename = Rename(table: string, column: string, to: string)

  function Dropping(keys: seq<string>, k: string): seq<string> {
    if keys == [] then [] else (if keys[0] == k then [] else [keys[0]]) + Dropping(keys[1..], k)
  }

  /** `coldefs[new] = coldefs.pop(old)`. */
  function RenamedKey(d: Dict<Column>, c: string, to: string): Dict<Column>
    requires c in d.at
  {
    var keys := Dropping(d.keys, c);
    Dict(if to in keys then keys else keys + [to], (d.at - {c})[to := d.at[c]])
  }

  function RenamedColumns(cols: Columns, c: string, to: string): Columns {
    if c in cols then (cols - {c})[to := cols[c]] else cols
  }

  /** The snapshot as `makemigrations` rewrites it. */
  function Renamed(s: State, r: Rename): State {
    if r.table in s.tables.at && r.column in s.tables.at[r.table].coldefs.at then
      var def := s.tables.at[r.table];
      s.(tables := s.tables.(at := s.tables.at[r.table := def.(coldefs := RenamedKey(def.coldefs, r.column, r.to))]))
    else s
  }

  function RenamedAll(s: State, rs: seq<Rename>): State
    decreases rs
  {
    if rs == [] then s else RenamedAll(Renamed(s, rs[0]), rs[1..])
  }

  /** The snapshot as the database has it after the same rename. */
  function Carried(s: State, r: Rename): State {
    var tables := Renamed(s, r).tables.(at := map t | t in Renamed(s, r).tables.at ::
      var def := Renamed(s, r).tables.at[t];
      if t == r.table then def.(create := RenamedColumns(def.create, r.column, r.to)) else def);
    var through := s.through.(at := map t | t in s.through.at ::
      if t == r.table then RenamedColumns(s.through.at[t], r.column, r.to) else s.through.at[t]);
    State(tables, through, s.indexes.(at := Respelled(s.indexes.at, r.table, r.column, r.to)))
  }

  function CarriedAll(s: State, rs: seq<Rename>): State
    decreases rs
  {
    if rs == [] then s else CarriedAll(Carried(s, rs[0]), rs[1..])
  }

  function RenameUnits(rs: seq<Rename>): seq<Unit> {
    if rs == [] then [] else
    var r := rs[0];
    [Unit([RenameColumn(r.table, r.column, r.to)], [RenameColumn(r.table, r.to, r.column)])] + RenameUnits(rs[1..])
  }

  /** The column exists and the new name is free. */
  ghost predicate RenameOk(s: State, r: Rename) {
    var tables := Full(s).tables;
    r.table in tables && r.column in tables[r.table] && r.to !in tables[r.table]
  }

  ghost predicate RenamesOk(s: State, rs: seq<Rename>)
    decreases rs
  {
    rs == [] || (RenameOk(s, rs[0]) && RenamesOk(Carried(s, rs[0]), rs[1..]))
  }

  lemma {:induction false} DroppingKeeps(keys: seq<string>, k: string)
    ensures forall x :: x in Dropping(keys, k) <==> x in keys && x != k
    ensures Distinct(keys) ==> Distinct(Dropping(keys, k))
  {
    if keys != [] {
      DroppingKeeps(keys[1..], k);
      assert forall x :: x in keys <==> x == keys[0] || x in keys[1..];
      if Distinct(keys) { assert Distinct(keys[1..]) && keys[0] !in keys[1..]; }
    }
  }

  // ---------------------------------------------------------------- renames on schemas

  /** Every index stands on columns that exist. */
  ghost predicate AllFit(s: Schema) { forall n :: n in s.indexes ==> Fits(s.indexes[n], s.tables) }

  lemma StepKeepsFit(op: Ddl, s: Schema)
    requires AllFit(s) && Step(op, s).Some?
    ensures AllFit(Step(op, s).value)
  {
    var t := Step(op, s).value;
    forall n | n in t.indexes ensures Fits(t.indexes[n], t.tables) {
      if n in s.indexes { assert Fits(s.indexes[n], s.tables); }
      if op.RenameColumn? && n in s.indexes && s.indexes[n].table == op.t {
        var was, now := s.indexes[n].columns, t.indexes[n].columns;
        forall c | c in now ensures c in t.tables[op.t] {
          var i :| 0 <= i < |now| && now[i] == c;
          assert was[i] in was;
        }
      }
    }
  }

  lemma {:induction false} RunKeepsFit(ops: seq<Ddl>, s: Schema)
    requires AllFit(s) && Run(ops, s).Some?
    ensures AllFit(Run(ops, s).value)
  {
    if ops != [] {
      StepKeepsFit(ops[0], s);
      RunKeepsFit(ops[1..], Step(ops[0], s).value);
    }
  }

  /** A rename that went through can be undone. */
  lemma RenameBack(s: Schema, t: string, c: string, to: string)
    requires AllFit(s) && Step(RenameColumn(t, c, to), s).Some?
    ensures Step(RenameColumn(t, to, c), Step(RenameColumn(t, c, to), s).value) == Some(s)
  {
    var after := Step(RenameColumn(t, c, to), s).value;
    var cols, now := s.tables[t], after.tables[t];
    assert (now - {to})[c := now[to]] == cols;
    assert after.tables[t := cols] == s.tables;
    var back := Respelled(after.indexes, t, to, c);
    forall n | n in s.indexes ensures back[n] == s.indexes[n] {
      assert Fits(s.indexes[n], s.tables);
      if s.indexes[n].table == t {
        var cs := s.indexes[n].columns;
        assert forall i :: 0 <= i < |cs| ==> cs[i] in cs;
        assert RenamedIn(RenamedIn(cs, c, to), to, c) == cs;
      }
    }
    assert back == s.indexes;
  }

  /** Undoing renames leads to the one schema from which they lead here. */
  lemma {:induction false} UndoneRenames(rs: seq<Rename>, x: Schema, y: Schema)
    requires AllFit(x) && Run(Reverse(RenameUnits(rs)), x) == Some(y)
    ensures Run(Forward(RenameUnits(rs)), y) == Some(x)
  {
    if rs != [] {
      var r, rest := rs[0], RenameUnits(rs[1..]);
      var there, back := RenameColumn(r.table, r.column, r.to), RenameColumn(r.table, r.to, r.column);
      assert RenameUnits(rs)[0] == Unit([there], [back]) && RenameUnits(rs)[1..] == rest;
      RunAppend(Reverse(rest), [back], x);
      var mid := Run(Reverse(rest), x).value;
      RunKeepsFit(Reverse(rest), x);
      RunOne(back, mid);
      RenameBack(mid, r.table, r.to, r.column);
      UndoneRenames(rs[1..], x, mid);
      RunAppend([there], Forward(rest), y);
      RunOne(there, y);
    }
  }

  lemma RunOne(op: Ddl, s: Schema)
    ensures Run([op], s) == Step(op, s)
  {
    assert [op][1..] == [];
  }

  // ---------------------------------------------------------------- renames on snapshots

  lemma ProperFits(s: State)
    requires Proper(s)
    ensures AllFit(Full(s))
  {
    forall n | n in s.indexes.at ensures Fits(s.indexes.at[n], Full(s).tables) {
      assert Fits(s.indexes.at[n], Defined(s));
    }
  }

  lemma RenamedKeyColumns(d: Dict<Column>, c: string, to: string)
    requires c in d.at
    ensures RenamedKey(d, c, to).at == RenamedColumns(d.at, c, to)
    ensures IsDict(d) ==> IsDict(RenamedKey(d, c, to))
  {
    DroppingKeeps(d.keys, c);
  }

  lemma CarriedKeys(s: State, r: Rename)
    ensures var t := Carried(s, r);
      && t.tables.keys == s.tables.keys && t.tables.at.Keys == s.tables.at.Keys
      && t.through.keys == s.through.keys && t.through.at.Keys == s.through.at.Keys
      && t.indexes.keys == s.indexes.keys && t.indexes.at.Keys == s.indexes.at.Keys
      && forall x :: x in t.tables.at ==> t.tables.at[x].coldefs == Renamed(s, r).tables.at[x].coldefs
  {
    hide RenamedKey;
    hide RenamedColumns;
  }

  lemma RenamedDicts(s: State, r: Rename, x: string)
    requires IsState(s) && x in s.tables.at
    ensures x in Renamed(s, r).tables.at && IsDict(Renamed(s, r).tables.at[x].coldefs)
  {
    hide Distinct;
    if x == r.table && r.column in s.tables.at[x].coldefs.at {
      RenamedKeyColumns(s.tables.at[x].coldefs, r.column, r.to);
    }
  }

  lemma CarriedState(s: State, r: Rename)
    requires IsState(s)
    ensures IsState(Carried(s, r))
    ensures Carried(s, r).tables.at.Keys == s.tables.at.Keys && Carried(s, r).through.at.Keys == s.through.at.Keys
  {
    hide Carried;
    hide Renamed;
    hide Distinct;
    CarriedKeys(s, r);
    forall x | x in s.tables.at ensures IsDict(Carried(s, r).tables.at[x].coldefs) { RenamedDicts(s, r, x); }
  }

  /** `b` has the columns `cols` for table `t`, and is `a` elsewhere. */
  ghost predicate Recolumned(a: State, b: State, t: string, cols: Columns) {
    && b.tables.at.Keys == a.tables.at.Keys && b.through.at.Keys == a.through.at.Keys
    && (forall x :: x in a.through.at ==> b.through.at[x] == if x == t then cols else a.through.at[x])
    && (forall x :: x in a.tables.at && x !in a.through.at ==>
          b.tables.at[x].coldefs.at == if x == t then cols else a.tables.at[x].coldefs.at)
  }

  lemma FullRecolumned(a: State, b: State, t: string, cols: Columns)
    requires Recolumned(a, b, t, cols) && t in Full(a).tables
    ensures Full(b).tables == Full(a).tables[t := cols]
  {
    assert Full(b).tables.Keys == Full(a).tables.Keys;
  }

  /** In the database one table changes. */
  lemma CarriedTables(s: State, r: Rename)
    requires Proper(s) && RenameOk(s, r)
    ensures Full(Carried(s, r)).tables ==
      Full(s).tables[r.table := RenamedColumns(Full(s).tables[r.table], r.column, r.to)]
  {
    var t, x := Carried(s, r), r.table;
    hide Fits;
    hide Distinct;
    hide Respelled;
    var cols := RenamedColumns(Full(s).tables[x], r.column, r.to);
    if x in s.tables.at { RenamedKeyColumns(s.tables.at[x].coldefs, r.column, r.to); }
    CarriedState(s, r);
    hide RenamedKey;
    hide RenamedColumns;
    hide IsState;
    assert Recolumned(s, t, x, cols);
    FullRecolumned(s, t, x, cols);
  }

  lemma RenameStep(s: State, r: Rename)
    requires Proper(s) && RenameOk(s, r)
    ensures Step(RenameColumn(r.table, r.column, r.to), Full(s)) == Some(Full(Carried(s, r)))
  {
    CarriedTables(s, r);
    hide Proper;
    hide Renamed;
    hide Respelled;
    assert Full(Carried(s, r)).indexes == Respelled(s.indexes.at, r.table, r.column, r.to);
    hide Carried;
  }

  /** The database accepts exactly the good renames, and then has the carried snapshot. */
  lemma RenameSteps(s: State, r: Rename)
    requires Proper(s)
    ensures Step(RenameColumn(r.table, r.column, r.to), Full(s)) ==
      if RenameOk(s, r) then Some(Full(Carried(s, r))) else None
  {
    hide Carried;
    hide Proper;
    hide Full;
    if RenameOk(s, r) { RenameStep(s, r); }
  }

  lemma CarriedProper(s: State, r: Rename)
    requires Proper(s) && RenameOk(s, r)
    ensures Proper(Carried(s, r))
  {
    var t := Carried(s, r);
    ProperFits(s);
    RenameSteps(s, r);
    StepKeepsFit(RenameColumn(r.table, r.column, r.to), Full(s));
    CarriedState(s, r);
    hide RenamedColumns;
    hide Step;
    hide Carried;
    forall n | n in t.indexes.at ensures Fits(t.indexes.at[n], Defined(t)) {
      assert Fits(s.indexes.at[n], Defined(s)) && Fits(Full(t).indexes[n], Full(t).tables);
    }
  }

  lemma {:induction false} RenamesLink(s: State, rs: seq<Rename>)
    requires Proper(s)
    ensures Run(Forward(RenameUnits(rs)), Full(s)).Some? <==> RenamesOk(s, rs)
    ensures RenamesOk(s, rs) ==> Proper(CarriedAll(s, rs)) && Links(RenameUnits(rs), Full(s), Full(CarriedAll(s, rs)))
    decreases rs
  {
    if rs != [] {
      var r, next := rs[0], Carried(s, rs[0]);
      var there, back := RenameColumn(r.table, r.column, r.to), RenameColumn(r.table, r.to, r.column);
      RenameSteps(s, r);
      assert RenameUnits(rs)[0].fwd == [there] && RenameUnits(rs)[1..] == RenameUnits(rs[1..]);
      RunOne(there, Full(s));
      RunAppend([there], Forward(RenameUnits(rs[1..])), Full(s));
      if RenameOk(s, r) {
        CarriedProper(s, r);
        ProperFits(s);
        RenameBack(Full(s), r.table, r.column, r.to);
        RenamesLink(next, rs[1..]);
        if RenamesOk(s, rs) {
          LinksCons(there, back, RenameUnits(rs[1..]), Full(s), Full(next), Full(CarriedAll(next, rs[1..])));
        }
      }
    }
  }

  // ---------------------------------------------------------------- the recorded snapshot and the carried one

  /** Two snapshots a diff cannot tell apart, except by what it makes again when undone. */
  ghost predicate Alike(a: State, b: State) {
    && a.tables.keys == b.tables.keys && a.tables.at.Keys == b.tables.at.Keys
    && (forall t :: t in a.tables.at ==> a.tables.at[t].coldefs == b.tables.at[t].coldefs)
    && a.through.keys == b.through.keys && a.through.at.Keys == b.through.at.Keys
    && a.indexes.keys == b.indexes.keys && a.indexes.at.Keys == b.indexes.at.Keys
  }

  /** What undoing a diff to `goal` makes again has the same definition in both. */
  ghost predicate SameMakings(a: State, b: State, goal: State)
    requires Alike(a, b)
  {
    && (forall t {:trigger a.tables.at[t]} :: t in a.tables.at && (t !in goal.tables.at || Rebuilt(t, a, goal)) ==>
          a.tables.at[t].create == b.tables.at[t].create)
    && (forall t :: t in a.through.at && t !in goal.through.at ==> a.through.at[t] == b.through.at[t])
    && (forall n :: n in a.indexes.at && n !in goal.indexes.at ==> a.indexes.at[n] == b.indexes.at[n])
  }

  lemma {:induction false} RenamedIsAlike(a: State, b: State, rs: seq<Rename>)
    requires Alike(a, b)
    ensures Alike(RenamedAll(a, rs), CarriedAll(b, rs))
    ensures RenamedAll(a, rs).through == a.through && RenamedAll(a, rs).indexes == a.indexes
    ensures RenamedAll(a, rs).tables.at.Keys == a.tables.at.Keys
    ensures forall t :: t in a.tables.at ==> RenamedAll(a, rs).tables.at[t].create == a.tables.at[t].create
    decreases rs
  {
    if rs != [] { RenamedIsAlike(Renamed(a, rs[0]), Carried(b, rs[0]), rs[1..]); }
  }

  lemma ForwardOne(u: Unit)
    ensures Forward([u]) == u.fwd
  {
    assert [u][1..] == [] && u.fwd + [] == u.fwd;
  }

  lemma {:induction false} CreateUnitsAlike(keys: seq<string>, a: map<string, Columns>, b: map<string, Columns>,
                                            goal: map<string, Columns>)
    requires a.Keys == b.Keys
    ensures CreateUnits(keys, a, goal) == CreateUnits(keys, b, goal)
  {
    if keys != [] {
      CreateUnitsAlike(keys[1..], a, b, goal);
      assert keys[0] in a <==> keys[0] in b;
    }
  }

  lemma {:induction false} IndexCreateUnitsAlike(keys: seq<string>, a: map<string, IndexDef>, b: map<string, IndexDef>,
                                                 goal: map<string, IndexDef>)
    requires a.Keys == b.Keys
    ensures IndexCreateUnits(keys, a, goal) == IndexCreateUnits(keys, b, goal)
  {
    if keys != [] {
      IndexCreateUnitsAlike(keys[1..], a, b, goal);
      assert keys[0] in a <==> keys[0] in b;
    }
  }

  lemma {:induction false} DropUnitsAlike(keys: seq<string>, a: map<string, Columns>, b: map<string, Columns>,
                                          goal: map<string, Columns>)
    requires a.Keys == b.Keys
    ensures Forward(DropUnits(keys, a, goal)) == Forward(DropUnits(keys, b, goal))
    ensures (forall t :: t in a && t !in goal ==> a[t] == b[t]) ==> DropUnits(keys, a, goal) == DropUnits(keys, b, goal)
  {
    if keys != [] {
      var t := keys[0];
      DropUnitsAlike(keys[1..], a, b, goal);
      assert t in a <==> t in b;
      if t in a && t !in goal {
        ProgramsAppend([Unit([DropTable(t)], [CreateTable(t, a[t])])], DropUnits(keys[1..], a, goal));
        ForwardOne(Unit([DropTable(t)], [CreateTable(t, a[t])]));
        ProgramsAppend([Unit([DropTable(t)], [CreateTable(t, b[t])])], DropUnits(keys[1..], b, goal));
        ForwardOne(Unit([DropTable(t)], [CreateTable(t, b[t])]));
      } else {
        assert DropUnits(keys, a, goal) == DropUnits(keys[1..], a, goal) &&
          DropUnits(keys, b, goal) == DropUnits(keys[1..], b, goal);
      }
    }
  }

  lemma {:induction false} IndexDropUnitsAlike(keys: seq<string>, a: map<string, IndexDef>, b: map<string, IndexDef>,
                                               goal: map<string, IndexDef>)
    requires a.Keys == b.Keys
    ensures Forward(IndexDropUnits(keys, a, goal)) == Forward(IndexDropUnits(keys, b, goal))
    ensures (forall n :: n in a && n !in goal ==> a[n] == b[n]) ==>
      IndexDropUnits(keys, a, goal) == IndexDropUnits(keys, b, goal)
  {
    if keys != [] {
      var n := keys[0];
      IndexDropUnitsAlike(keys[1..], a, b, goal);
      assert n in a <==> n in b;
      if n in a && n !in goal {
        ProgramsAppend([Unit([DropIndex(n)], [CreateIndex(n, a[n])])], IndexDropUnits(keys[1..], a, goal));
        ForwardOne(Unit([DropIndex(n)], [CreateIndex(n, a[n])]));
        ProgramsAppend([Unit([DropIndex(n)], [CreateIndex(n, b[n])])], IndexDropUnits(keys[1..], b, goal));
        ForwardOne(Unit([DropIndex(n)], [CreateIndex(n, b[n])]));
      } else {
        assert IndexDropUnits(keys, a, goal) == IndexDropUnits(keys[1..], a, goal) &&
          IndexDropUnits(keys, b, goal) == IndexDropUnits(keys[1..], b, goal);
      }
    }
  }

  lemma {:induction false} ColumnUnitsAlike(keys: seq<string>, a: State, b: State, goal: State)
    requires Alike(a, b)
    ensures Forward(ColumnUnits(keys, a, goal)) == Forward(ColumnUnits(keys, b, goal))
    ensures SameMakings(a, b, goal) ==> ColumnUnits(keys, a, goal) == ColumnUnits(keys, b, goal)
  {
    if keys != [] {
      var t := keys[0];
      ColumnUnitsAlike(keys[1..], a, b, goal);
      if Survives(t, a, goal) {
        var x, y, z := a.tables.at[t], b.tables.at[t], goal.tables.at[t];
        ProgramsAppend(TableUnits(t, x, z), ColumnUnits(keys[1..], a, goal));
        ProgramsAppend(TableUnits(t, y, z), ColumnUnits(keys[1..], b, goal));
        if Altered(x.coldefs, z.coldefs) {
          ForwardOne(TableUnits(t, x, z)[0]);
          ForwardOne(TableUnits(t, y, z)[0]);
        }
        if SameMakings(a, b, goal) { assert TableUnits(t, x, z) == TableUnits(t, y, z); }
      } else {
        assert ColumnUnits(keys, a, goal) == ColumnUnits(keys[1..], a, goal) &&
          ColumnUnits(keys, b, goal) == ColumnUnits(keys[1..], b, goal);
      }
    }
  }

  /** The forward program of a diff depends on names and column definitions only. */
  lemma DiffAlike(a: State, b: State, goal: State)
    requires Alike(a, b)
    ensures Forward(Diff(a, goal)) == Forward(Diff(b, goal))
    ensures SameMakings(a, b, goal) ==> Diff(a, goal) == Diff(b, goal)
  {
    var ca, cb, cg := Creates(a.tables), Creates(b.tables), Creates(goal.tables);
    assert ca.Keys == a.tables.at.Keys && cb.Keys == b.tables.at.Keys && cg.Keys == goal.tables.at.Keys;
    CreateUnitsAlike(goal.tables.keys, ca, cb, cg);
    DropUnitsAlike(a.tables.keys, ca, cb, cg);
    ColumnUnitsAlike(goal.tables.keys, a, b, goal);
    CreateUnitsAlike(goal.through.keys, a.through.at, b.through.at, goal.through.at);
    DropUnitsAlike(a.through.keys, a.through.at, b.through.at, goal.through.at);
    IndexCreateUnitsAlike(goal.indexes.keys, a.indexes.at, b.indexes.at, goal.indexes.at);
    IndexDropUnitsAlike(a.indexes.keys, a.indexes.at, b.indexes.at, goal.indexes.at);
    DiffProgram(a, goal);
    DiffProgram(b, goal);
  }

  lemma DiffProgram(a: State, goal: State)
    ensures Forward(Diff(a, goal)) ==
      Forward(CreateUnits(goal.tables.keys, Creates(a.tables), Creates(goal.tables)))
      + (Forward(DropUnits(a.tables.keys, Creates(a.tables), Creates(goal.tables)))
      + (Forward(ColumnUnits(goal.tables.keys, a, goal))
      + (Forward(CreateUnits(goal.through.keys, a.through.at, goal.through.at))
      + Forward(DropUnits(a.through.keys, a.through.at, goal.through.at)))))
      + (Forward(IndexCreateUnits(goal.indexes.keys, a.indexes.at, goal.indexes.at))
      + Forward(IndexDropUnits(a.indexes.keys, a.indexes.at, goal.indexes.at)))
  {
    var u1 := CreateUnits(goal.tables.keys, Creates(a.tables), Creates(goal.tables));
    var u2 := DropUnits(a.tables.keys, Creates(a.tables), Creates(goal.tables));
    var u3 := ColumnUnits(goal.tables.keys, a, goal);
    var u4 := CreateUnits(goal.through.keys, a.through.at, goal.through.at);
    var u5 := DropUnits(a.through.keys, a.through.at, goal.through.at);
    var u6 := IndexCreateUnits(goal.indexes.keys, a.indexes.at, goal.indexes.at);
    var u7 := IndexDropUnits(a.indexes.keys, a.indexes.at, goal.indexes.at);
    assert Diff(a, goal) == (u1 + (u2 + (u3 + (u4 + u5)))) + (u6 + u7);
    hide *;
    ProgramsAppend(u4, u5);
    ProgramsAppend(u3, u4 + u5);
    ProgramsAppend(u2, u3 + (u4 + u5));
    ProgramsAppend(u1, u2 + (u3 + (u4 + u5)));
    ProgramsAppend(u6, u7);
    ProgramsAppend(u1 + (u2 + (u3 + (u4 + u5))), u6 + u7);
  }

  // ---------------------------------------------------------------- the written program

  /** The changes `makemigrations` writes down: renames first, then the diff from the renamed snapshot. */
  function Program(was: State, rs: seq<Rename>, goal: State): seq<Unit> {
    RenameUnits(rs) + Diff(RenamedAll(was, rs), goal)
  }

  /** The renames are good, and the diff from what the database then has works. */
  ghost predicate Works(was: State, rs: seq<Rename>, goal: State) {
    var now := CarriedAll(was, rs);
    RenamesOk(was, rs) && NoIndexTouched(now, goal) && SharedNamesAgree(now, goal)
  }

  /** No rename respelled anything that undoing the diff makes again from its recorded text: a dropped
      or rebuilt table, a dropped through table or a dropped index. */
  ghost predicate NothingRespelled(was: State, rs: seq<Rename>, goal: State) {
    var renamed, now := RenamedAll(was, rs), CarriedAll(was, rs);
    Alike(renamed, now) && SameMakings(renamed, now, goal)
  }

  lemma AlikeItself(s: State)
    ensures Alike(s, s)
  {
  }

  /** A rename is not good, or the diff comes to drop an index that is gone. */
  ghost predicate Halts(was: State, rs: seq<Rename>, goal: State) {
    !RenamesOk(was, rs) || Blocked(CarriedAll(was, rs), goal)
  }

  /** The program runs, and a name that both snapshots have leads it astray. */
  ghost predicate Astray(was: State, rs: seq<Rename>, goal: State) {
    !Halts(was, rs, goal) && KeptNameStrays(CarriedAll(was, rs), goal)
  }

  /** Well-formed input of `makemigrations`. */
  ghost predicate Writable(was: State, rs: seq<Rename>, goal: State) {
    Proper(was) && Proper(goal) && (RenamesOk(was, rs) ==> Comparable(CarriedAll(was, rs), goal))
  }

  /** Main result: what the written program does, in every case. */
  lemma ProgramOutcome(was: State, rs: seq<Rename>, goal: State)
    requires Writable(was, rs, goal)
    ensures Run(Forward(Program(was, rs, goal)), Full(was)) ==
      if Halts(was, rs, goal) then None else Some(Full(Attained(CarriedAll(was, rs), goal)))
  {
    hide Full;
    hide Comparable;
    hide Proper;
    hide Program;
    hide Diff;
    hide RenameUnits;
    hide RenamedAll;
    hide CarriedAll;
    hide RenamesOk;
    hide Alike;
    hide Attained;
    hide Blocked;
    var renamed, now := RenamedAll(was, rs), CarriedAll(was, rs);
    ProgramSplits(was, rs, goal);
    LinksForward(was, rs);
    AlikeItself(was);
    RenamedIsAlike(was, was, rs);
    DiffAlike(renamed, now, goal);
    if RenamesOk(was, rs) { DiffOutcome(now, goal); }
  }

  lemma LinksForward(was: State, rs: seq<Rename>)
    requires Proper(was)
    ensures Run(Forward(RenameUnits(rs)), Full(was)) ==
      if RenamesOk(was, rs) then Some(Full(CarriedAll(was, rs))) else None
  {
    RenamesLink(was, rs);
  }

  lemma ProgramSplits(was: State, rs: seq<Rename>, goal: State)
    ensures var mid := Run(Forward(RenameUnits(rs)), Full(was));
      Run(Forward(Program(was, rs, goal)), Full(was)) ==
      if mid.None? then None else Run(Forward(Diff(RenamedAll(was, rs), goal)), mid.value)
  {
    ProgramsAppend(RenameUnits(rs), Diff(RenamedAll(was, rs), goal));
    RunAppend(Forward(RenameUnits(rs)), Forward(Diff(RenamedAll(was, rs), goal)), Full(was));
  }

  /** Main result, going there: the written program reaches the models' schema if and only if it works
      out as said; otherwise it halts or is led astray. */
  lemma ProgramWorksExactlyWhen(was: State, rs: seq<Rename>, goal: State)
    requires Writable(was, rs, goal)
    ensures Run(Forward(Program(was, rs, goal)), Full(was)) == Some(Full(goal)) <==> Works(was, rs, goal)
    ensures Works(was, rs, goal) <==> !Halts(was, rs, goal) && !Astray(was, rs, goal)
  {
    var now := CarriedAll(was, rs);
    ProgramSplits(was, rs, goal);
    LinksForward(was, rs);
    TwoWaysToFail(was, rs, goal);
    if RenamesOk(was, rs) {
      AlikeItself(was);
      RenamedIsAlike(was, was, rs);
      DiffAlike(RenamedAll(was, rs), now, goal);
      DiffWorksExactlyWhen(now, goal);
    }
  }

  lemma TwoWaysToFail(was: State, rs: seq<Rename>, goal: State)
    ensures Works(was, rs, goal) <==> !Halts(was, rs, goal) && !Astray(was, rs, goal)
  {
    hide Touched;
  }

  /** And coming back when nothing was respelled. */
  lemma ProgramLinks(was: State, rs: seq<Rename>, goal: State)
    requires Proper(was) && Comparable(CarriedAll(was, rs), goal) && Works(was, rs, goal) &&
      NothingRespelled(was, rs, goal)
    ensures Links(Program(was, rs, goal), Full(was), Full(goal))
  {
    var renamed, now := RenamedAll(was, rs), CarriedAll(was, rs);
    RenamesLink(was, rs);
    DiffAlike(renamed, now, goal);
    DiffGoesThereAndBack(now, goal);
    LinksAppend(RenameUnits(rs), Diff(renamed, goal), Full(was), Full(now), Full(goal));
  }
}
