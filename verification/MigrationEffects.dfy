/** What a generated migration does to indexes and to rows: exactly when it works, and what it keeps. */
module MigrationEffects {
  import opened Basics
  import opened Schemas
  import opened Migrations

  // ---------------------------------------------------------------- which changes a diff makes

  function Making(t: string, cols: Columns): Unit { Unit([CreateTable(t, cols)], [DropTable(t)]) }
  function Unmaking(t: string, cols: Columns): Unit { Unit([DropTable(t)], [CreateTable(t, cols)]) }
  function Widening(t: string, c: string, def: Column): Unit { Unit([AddColumn(t, c, def)], [DropColumn(t, c)]) }
  function Narrowing(t: string, c: string, def: Column): Unit { Unit([DropColumn(t, c)], [AddColumn(t, c, def)]) }
  function Indexing(n: string, ix: IndexDef): Unit { Unit([CreateIndex(n, ix)], [DropIndex(n)]) }
  function Unindexing(n: string, ix: IndexDef): Unit { Unit([DropIndex(n)], [CreateIndex(n, ix)]) }

  lemma {:induction false} CreateUnitsAre(keys: seq<string>, was: map<string, Columns>, goal: map<string, Columns>)
    ensures forall u :: u in CreateUnits(keys, was, goal) <==> exists t ::
      t in keys && t !in was && t in goal && u == Making(t, goal[t])
  {
    if keys != [] {
      CreateUnitsAre(keys[1..], was, goal);
      assert forall x :: x in keys <==> x == keys[0] || x in keys[1..];
    }
  }

  lemma {:induction false} DropUnitsAre(keys: seq<string>, was: map<string, Columns>, goal: map<string, Columns>)
    ensures forall u :: u in DropUnits(keys, was, goal) <==> exists t ::
      t in keys && t !in goal && t in was && u == Unmaking(t, was[t])
  {
    if keys != [] {
      DropUnitsAre(keys[1..], was, goal);
      assert forall x :: x in keys <==> x == keys[0] || x in keys[1..];
    }
  }

  lemma {:induction false} AddColumnUnitsAre(t: string, keys: seq<string>, from: Dict<Column>, to: Dict<Column>)
    ensures forall u :: u in AddColumnUnits(t, keys, from, to) <==>
      exists c :: c in keys && c !in from.at && c in to.at && u == Widening(t, c, to.at[c])
  {
    if keys != [] {
      AddColumnUnitsAre(t, keys[1..], from, to);
      assert forall x :: x in keys <==> x == keys[0] || x in keys[1..];
    }
  }

  lemma {:induction false} DropColumnUnitsAre(t: string, keys: seq<string>, from: Dict<Column>, to: Dict<Column>)
    ensures forall u :: u in DropColumnUnits(t, keys, from, to) <==>
      exists c :: c in keys && c !in to.at && c in from.at && u == Narrowing(t, c, from.at[c])
  {
    if keys != [] {
      DropColumnUnitsAre(t, keys[1..], from, to);
      assert forall x :: x in keys <==> x == keys[0] || x in keys[1..];
    }
  }

  lemma {:induction false} ColumnUnitsAre(keys: seq<string>, was: State, goal: State)
    ensures forall u :: u in ColumnUnits(keys, was, goal) <==>
      exists t :: t in keys && Survives(t, was, goal) && u in TableUnits(t, was.tables.at[t], goal.tables.at[t])
  {
    if keys != [] {
      ColumnUnitsAre(keys[1..], was, goal);
      assert forall x :: x in keys <==> x == keys[0] || x in keys[1..];
    }
  }

  lemma {:induction false} IndexCreateUnitsAre(keys: seq<string>, was: map<string, IndexDef>,
                                               goal: map<string, IndexDef>)
    ensures forall u :: u in IndexCreateUnits(keys, was, goal) <==> exists n ::
      n in keys && n !in was && n in goal && u == Indexing(n, goal[n])
  {
    if keys != [] {
      IndexCreateUnitsAre(keys[1..], was, goal);
      assert forall x :: x in keys <==> x == keys[0] || x in keys[1..];
    }
  }

  lemma {:induction false} IndexDropUnitsAre(keys: seq<string>, was: map<string, IndexDef>, goal: map<string, IndexDef>)
    ensures forall u :: u in IndexDropUnits(keys, was, goal) <==> exists n ::
      n in keys && n !in goal && n in was && u == Unindexing(n, was[n])
  {
    if keys != [] {
      IndexDropUnitsAre(keys[1..], was, goal);
      assert forall x :: x in keys <==> x == keys[0] || x in keys[1..];
    }
  }

  lemma {:induction false} ForwardHolds(us: seq<Unit>)
    ensures forall op :: op in Forward(us) <==> exists u :: u in us && op in u.fwd
  {
    if us != [] {
      ForwardHolds(us[1..]);
      assert forall x :: x in us <==> x == us[0] || x in us[1..];
    }
  }

  /** A statement about a table or column that only one of the two snapshots has. */
  predicate OneSided(op: Ddl, was: State, goal: State) {
    match op
    case CreateTable(x, _) =>
      (x in was.tables.at) != (x in goal.tables.at) || (x in was.through.at) != (x in goal.through.at)
    case DropTable(x) =>
      (x in was.tables.at) != (x in goal.tables.at) || (x in was.through.at) != (x in goal.through.at)
    case AddColumn(x, c, _) =>
      Survives(x, was, goal) && (c in was.tables.at[x].coldefs.at) != (c in goal.tables.at[x].coldefs.at)
    case DropColumn(x, c) =>
      Survives(x, was, goal) && (c in was.tables.at[x].coldefs.at) != (c in goal.tables.at[x].coldefs.at)
    case _ => false
  }

  /** The rebuild of one altered table, both ways. */
  predicate Rebuilds(u: Unit, t: string, was: State, goal: State) {
    && Rebuilt(t, was, goal)
    && u.fwd == Rebuild(t, goal.tables.at[t].create, was.tables.at[t].coldefs, goal.tables.at[t].coldefs)
    && u.rev == Rebuild(t, was.tables.at[t].create, goal.tables.at[t].coldefs, was.tables.at[t].coldefs)
  }

  /** Every change the table phase can contain. */
  ghost predicate PhaseUnit(u: Unit, was: State, goal: State) {
    if |u.fwd| == 4 then u.fwd[3].RenameTable? && Rebuilds(u, u.fwd[3].to, was, goal)
    else forall op :: op in u.fwd || op in u.rev ==> OneSided(op, was, goal)
  }

  lemma ColumnPhaseIs(was: State, goal: State)
    ensures forall u :: u in ColumnUnits(goal.tables.keys, was, goal) ==> PhaseUnit(u, was, goal)
  {
    ColumnUnitsAre(goal.tables.keys, was, goal);
    forall u | u in ColumnUnits(goal.tables.keys, was, goal) ensures PhaseUnit(u, was, goal) {
      var t :| t in goal.tables.keys && Survives(t, was, goal) &&
        u in TableUnits(t, was.tables.at[t], goal.tables.at[t]);
      TableUnitsAre(t, was, goal, u);
    }
  }

  lemma TableUnitsAre(t: string, was: State, goal: State, u: Unit)
    requires Survives(t, was, goal) && u in TableUnits(t, was.tables.at[t], goal.tables.at[t])
    ensures PhaseUnit(u, was, goal)
  {
    var a, b := was.tables.at[t].coldefs, goal.tables.at[t].coldefs;
    AddColumnUnitsAre(t, b.keys, a, b);
    DropColumnUnitsAre(t, a.keys, a, b);
  }

  lemma TableMakingIs(was: State, goal: State)
    ensures forall u :: u in CreateUnits(goal.tables.keys, Creates(was.tables), Creates(goal.tables)) ==>
      PhaseUnit(u, was, goal)
    ensures forall u :: u in DropUnits(was.tables.keys, Creates(was.tables), Creates(goal.tables)) ==>
      PhaseUnit(u, was, goal)
  {
    CreateUnitsAre(goal.tables.keys, Creates(was.tables), Creates(goal.tables));
    DropUnitsAre(was.tables.keys, Creates(was.tables), Creates(goal.tables));
  }

  lemma ThroughMakingIs(was: State, goal: State)
    ensures forall u :: u in CreateUnits(goal.through.keys, was.through.at, goal.through.at) ==> PhaseUnit(u, was, goal)
    ensures forall u :: u in DropUnits(was.through.keys, was.through.at, goal.through.at) ==> PhaseUnit(u, was, goal)
  {
    CreateUnitsAre(goal.through.keys, was.through.at, goal.through.at);
    DropUnitsAre(was.through.keys, was.through.at, goal.through.at);
  }

  lemma TablePhaseIs(was: State, goal: State)
    ensures forall u :: u in TablePhase(was, goal) ==> PhaseUnit(u, was, goal)
  {
    TableMakingIs(was, goal);
    ColumnPhaseIs(was, goal);
    ThroughMakingIs(was, goal);
  }

  // ---------------------------------------------------------------- following one index through a program

  /** Does not make index `n` or move it to another name or spelling. */
  predicate LeavesIndex(op: Ddl, n: string, d: IndexDef) {
    match op
    case CreateIndex(m, _) => m != n
    case RenameTable(t, _) => t != d.table
    case RenameColumn(_, _, _) => false
    case _ => true
  }

  /** Takes index `n`, defined as `d`, away. */
  predicate Kills(op: Ddl, n: string, d: IndexDef) {
    match op
    case DropTable(t) => t == d.table
    case DropColumn(t, c) => t == d.table && c in d.columns
    case DropIndex(m) => m == n
    case _ => false
  }

  lemma {:induction false} IndexFate(ops: seq<Ddl>, n: string, d: IndexDef, s: Schema)
    requires Run(ops, s).Some? && forall op :: op in ops ==> LeavesIndex(op, n, d)
    requires n in s.indexes ==> s.indexes[n] == d
    ensures var t := Run(ops, s).value;
      n in t.indexes ==> n in s.indexes && t.indexes[n] == d && forall op :: op in ops ==> !Kills(op, n, d)
    ensures n !in s.indexes ==> DropIndex(n) !in ops
  {
    if ops != [] {
      assert ops[0] in ops && forall op :: op in ops <==> op == ops[0] || op in ops[1..];
      var next := Step(ops[0], s).value;
      IndexFate(ops[1..], n, d, next);
    }
  }

  // ---------------------------------------------------------------- exactly when a diff works

  lemma IndexTableExists(was: State, goal: State, n: string)
    requires Comparable(was, goal) && n in was.indexes.at
    ensures was.indexes.at[n].table in Full(was).tables
  {
    assert Fits(was.indexes.at[n], Defined(was));
  }

  lemma TempIsFree(u: Unit, t: string, was: State, goal: State)
    requires Comparable(was, goal) && Rebuilds(u, t, was, goal)
    ensures Temp(t) !in Full(was).tables && t in was.tables.at
  {
  }

  lemma RebuildLeaves(x: string, create: Columns, from: Dict<Column>, to: Dict<Column>, n: string, d: IndexDef)
    requires Temp(x) != d.table
    ensures forall op :: op in Rebuild(x, create, from, to) ==> LeavesIndex(op, n, d)
  {
  }

  lemma UnitLeavesIndex(u: Unit, op: Ddl, was: State, goal: State, n: string)
    requires Comparable(was, goal) && n in was.indexes.at && PhaseUnit(u, was, goal) && op in u.fwd
    ensures LeavesIndex(op, n, was.indexes.at[n])
  {
    hide Comparable;
    hide Rebuild;
    hide Full;
    hide Altered;
    if |u.fwd| == 4 {
      var t := u.fwd[3].to;
      IndexTableExists(was, goal, n);
      TempIsFree(u, t, was, goal);
      RebuildLeaves(t, goal.tables.at[t].create, was.tables.at[t].coldefs, goal.tables.at[t].coldefs, n,
        was.indexes.at[n]);
    }
  }

  lemma PhaseLeavesIndexes(was: State, goal: State, n: string)
    requires Comparable(was, goal) && n in was.indexes.at
    ensures forall op :: op in Forward(TablePhase(was, goal)) ==> LeavesIndex(op, n, was.indexes.at[n])
  {
    var d := was.indexes.at[n];
    ForwardHolds(TablePhase(was, goal));
    TablePhaseIs(was, goal);
    forall u, op | u in TablePhase(was, goal) && op in u.fwd ensures LeavesIndex(op, n, d) {
      UnitLeavesIndex(u, op, was, goal, n);
    }
  }

  lemma IndexPhaseIs(was: State, goal: State)
    ensures forall op :: op in Forward(IndexPhase(was, goal)) ==>
      (op.CreateIndex? && op.name !in was.indexes.at) || (op.DropIndex? && op.name !in goal.indexes.at)
    ensures forall n :: n in was.indexes.keys && n in was.indexes.at && n !in goal.indexes.at ==>
      DropIndex(n) in Forward(IndexPhase(was, goal))
  {
    var wi, gi := was.indexes.at, goal.indexes.at;
    IndexCreateUnitsAre(goal.indexes.keys, wi, gi);
    IndexDropUnitsAre(was.indexes.keys, wi, gi);
    ForwardHolds(IndexPhase(was, goal));
    forall n | n in was.indexes.keys && n in wi && n !in gi ensures DropIndex(n) in Forward(IndexPhase(was, goal)) {
      assert Unindexing(n, wi[n]) in IndexDropUnits(was.indexes.keys, wi, gi);
      assert DropIndex(n) in Unindexing(n, wi[n]).fwd;
    }
  }

  /** A touched index is taken away by some statement of the table phase. */
  lemma TouchedIsKilled(was: State, goal: State, n: string)
    requires Comparable(was, goal) && n in was.indexes.at && Touched(was.indexes.at[n], was, goal)
    ensures exists op :: op in Forward(TablePhase(was, goal)) && Kills(op, n, was.indexes.at[n])
  {
    var d := was.indexes.at[n];
    var t := d.table;
    assert Fits(d, Defined(was));
    if t !in goal.tables.at {
      DropTableRuns(was, goal, t);
      assert Kills(DropTable(t), n, d);
    } else if Rebuilt(t, was, goal) {
      RebuildRunsToo(was, goal, t);
      assert Kills(DropTable(t), n, d);
    } else {
      var c :| c in d.columns && c !in goal.tables.at[t].coldefs.at;
      DropColumnRuns(was, goal, t, c);
      assert Kills(DropColumn(t, c), n, d);
    }
  }

  lemma DropTableRuns(was: State, goal: State, t: string)
    requires Comparable(was, goal) && t in was.tables.at && t !in goal.tables.at
    ensures DropTable(t) in Forward(TablePhase(was, goal))
  {
    var wc, gc := Creates(was.tables), Creates(goal.tables);
    DropUnitsAre(was.tables.keys, wc, gc);
    var u := Unmaking(t, wc[t]);
    assert t in was.tables.keys && u in DropUnits(was.tables.keys, wc, gc);
    ForwardHolds(TablePhase(was, goal));
    assert u in TablePhase(was, goal) && DropTable(t) in u.fwd;
  }

  lemma TableUnitRuns(was: State, goal: State, t: string, u: Unit, op: Ddl)
    requires Comparable(was, goal) && Survives(t, was, goal) &&
      u in TableUnits(t, was.tables.at[t], goal.tables.at[t]) && op in u.fwd
    ensures op in Forward(TablePhase(was, goal))
  {
    ColumnUnitsAre(goal.tables.keys, was, goal);
    assert t in goal.tables.keys && u in ColumnUnits(goal.tables.keys, was, goal);
    ForwardHolds(TablePhase(was, goal));
    assert u in TablePhase(was, goal);
  }

  lemma RebuildRunsToo(was: State, goal: State, t: string)
    requires Comparable(was, goal) && Rebuilt(t, was, goal)
    ensures DropTable(t) in Forward(TablePhase(was, goal))
  {
    var a, b := was.tables.at[t], goal.tables.at[t];
    var u := Unit(Rebuild(t, b.create, a.coldefs, b.coldefs), Rebuild(t, a.create, b.coldefs, a.coldefs));
    assert u.fwd[2] == DropTable(t) && u in TableUnits(t, a, b);
    TableUnitRuns(was, goal, t, u, DropTable(t));
  }

  lemma DropColumnRuns(was: State, goal: State, t: string, c: string)
    requires Comparable(was, goal) && Survives(t, was, goal) && !Rebuilt(t, was, goal)
    requires c in was.tables.at[t].coldefs.at && c !in goal.tables.at[t].coldefs.at
    ensures DropColumn(t, c) in Forward(TablePhase(was, goal))
  {
    var a, b := was.tables.at[t], goal.tables.at[t];
    DropColumnUnitsAre(t, a.coldefs.keys, a.coldefs, b.coldefs);
    var u := Narrowing(t, c, a.coldefs.at[c]);
    assert c in a.coldefs.keys && u in TableUnits(t, a, b) && DropColumn(t, c) in u.fwd;
    TableUnitRuns(was, goal, t, u, DropColumn(t, c));
  }

  /** An index is touched when its table goes, one of its columns goes, or a column of its table that both
      snapshots have is defined anew; columns that are only added leave it alone. */
  lemma TouchedMeans(ix: IndexDef, was: State, goal: State)
    requires IsState(goal)
    ensures !Touched(ix, was, goal) <==>
      && ix.table in was.tables.at && ix.table in goal.tables.at
      && (forall c :: c in ix.columns ==> c in goal.tables.at[ix.table].coldefs.at)
      && (var from, to := was.tables.at[ix.table].coldefs.at, goal.tables.at[ix.table].coldefs.at;
          forall c :: c in from && c in to ==> from[c] == to[c])
  {
    if ix.table in was.tables.at && ix.table in goal.tables.at {
      assert IsDict(goal.tables.at[ix.table].coldefs);
    }
  }

  // ---------------------------------------------------------------- what a diff does, in every case

  /** An index that the new snapshot drops is touched: it is gone when the program comes to drop it. */
  ghost predicate Blocked(was: State, goal: State) {
    exists n :: n in was.indexes.at && n !in goal.indexes.at && Touched(was.indexes.at[n], was, goal)
  }

  /** A name that both snapshots have means something else in them, or is a touched index. */
  ghost predicate KeptNameStrays(was: State, goal: State) {
    || (exists t :: t in was.through.at && t in goal.through.at && was.through.at[t] != goal.through.at[t])
    || (exists n :: n in was.indexes.at && n in goal.indexes.at
                    && (Touched(was.indexes.at[n], was, goal) || was.indexes.at[n] != goal.indexes.at[n]))
  }

  /** The touched indexes that both snapshots have. */
  function Lost(was: State, goal: State): set<string> {
    set n | n in was.indexes.at && n in goal.indexes.at && Touched(was.indexes.at[n], was, goal)
  }

  function Except(keys: seq<string>, gone: set<string>): seq<string> {
    if keys == [] then [] else (if keys[0] in gone then [] else [keys[0]]) + Except(keys[1..], gone)
  }

  lemma {:induction false} ExceptIs(keys: seq<string>, gone: set<string>)
    ensures forall x :: x in Except(keys, gone) <==> x in keys && x !in gone
    ensures Distinct(keys) ==> Distinct(Except(keys, gone))
  {
    if keys != [] {
      ExceptIs(keys[1..], gone);
      assert forall x :: x in keys <==> x == keys[0] || x in keys[1..];
      if Distinct(keys) { assert Distinct(keys[1..]) && keys[0] !in keys[1..]; }
    }
  }

  function Minus<V>(d: Dict<V>, gone: set<string>): Dict<V> {
    Dict(Except(d.keys, gone), map k | k in d.at && k !in gone :: d.at[k])
  }

  /** The entries of `goal`, with the old definition for the names that `was` has too. */
  function Keeping<V>(was: Dict<V>, goal: Dict<V>): Dict<V> {
    goal.(at := map k | k in goal.at :: if k in was.at then was.at[k] else goal.at[k])
  }

  /** Where the program leads when it runs: a name that both snapshots have keeps its old definition, and
      the touched indexes are missing. */
  function Attained(was: State, goal: State): State {
    State(goal.tables, Keeping(was.through, goal.through), Minus(Keeping(was.indexes, goal.indexes), Lost(was, goal)))
  }

  /** The old snapshot without the indexes that get lost. */
  function Spared(was: State, goal: State): State { was.(indexes := Minus(was.indexes, Lost(was, goal))) }

  // ---------------------------------------------------------------- the same program between two other snapshots

  lemma {:induction false} CreateUnitsKeep(keys: seq<string>, was: Dict<Columns>, goal: Dict<Columns>)
    ensures CreateUnits(keys, was.at, Keeping(was, goal).at) == CreateUnits(keys, was.at, goal.at)
  {
    if keys != [] { CreateUnitsKeep(keys[1..], was, goal); }
  }

  lemma {:induction false} DropUnitsKeep(keys: seq<string>, was: Dict<Columns>, goal: Dict<Columns>)
    ensures DropUnits(keys, was.at, Keeping(was, goal).at) == DropUnits(keys, was.at, goal.at)
  {
    if keys != [] { DropUnitsKeep(keys[1..], was, goal); }
  }

  lemma {:induction false} ColumnUnitsKeep(keys: seq<string>, was: State, goal: State)
    ensures ColumnUnits(keys, Spared(was, goal), Attained(was, goal)) == ColumnUnits(keys, was, goal)
  {
    if keys != [] { ColumnUnitsKeep(keys[1..], was, goal); }
  }

  lemma {:induction false} IndexCreateUnitsKeep(keys: seq<string>, was: Dict<IndexDef>, goal: Dict<IndexDef>,
                                                gone: set<string>)
    requires forall n :: n in gone ==> n in was.at && n in goal.at
    ensures IndexCreateUnits(Except(keys, gone), Minus(was, gone).at, Minus(Keeping(was, goal), gone).at) ==
      IndexCreateUnits(keys, was.at, goal.at)
  {
    if keys != [] {
      IndexCreateUnitsKeep(keys[1..], was, goal, gone);
      if keys[0] in gone {
        assert Except(keys, gone) == Except(keys[1..], gone);
        assert IndexCreateUnits(keys, was.at, goal.at) == IndexCreateUnits(keys[1..], was.at, goal.at);
      } else {
        assert Except(keys, gone)[1..] == Except(keys[1..], gone) && Except(keys, gone)[0] == keys[0];
      }
    }
  }

  lemma {:induction false} IndexDropUnitsKeep(keys: seq<string>, was: Dict<IndexDef>, goal: Dict<IndexDef>,
                                              gone: set<string>)
    requires forall n :: n in gone ==> n in was.at && n in goal.at
    ensures IndexDropUnits(Except(keys, gone), Minus(was, gone).at, Minus(Keeping(was, goal), gone).at) ==
      IndexDropUnits(keys, was.at, goal.at)
  {
    if keys != [] {
      IndexDropUnitsKeep(keys[1..], was, goal, gone);
      if keys[0] in gone {
        assert Except(keys, gone) == Except(keys[1..], gone);
        assert IndexDropUnits(keys, was.at, goal.at) == IndexDropUnits(keys[1..], was.at, goal.at);
      } else {
        assert Except(keys, gone)[1..] == Except(keys[1..], gone) && Except(keys, gone)[0] == keys[0];
      }
    }
  }

  lemma SameDiff(was: State, goal: State)
    ensures Diff(Spared(was, goal), Attained(was, goal)) == Diff(was, goal)
  {
    CreateUnitsKeep(goal.through.keys, was.through, goal.through);
    DropUnitsKeep(was.through.keys, was.through, goal.through);
    ColumnUnitsKeep(goal.tables.keys, was, goal);
    IndexCreateUnitsKeep(goal.indexes.keys, was.indexes, goal.indexes, Lost(was, goal));
    IndexDropUnitsKeep(was.indexes.keys, was.indexes, goal.indexes, Lost(was, goal));
  }

  lemma AttainedFits(was: State, goal: State, n: string)
    requires Proper(was) && Proper(goal) && n in Attained(was, goal).indexes.at
    ensures Fits(Attained(was, goal).indexes.at[n], Defined(goal))
  {
    if n in was.indexes.at {
      assert Fits(was.indexes.at[n], Defined(was));
    } else {
      assert Fits(goal.indexes.at[n], Defined(goal));
    }
  }

  lemma SparedProper(was: State, goal: State)
    requires Proper(was) && Proper(goal)
    ensures Proper(Spared(was, goal)) && Proper(Attained(was, goal))
  {
    var a, b := Spared(was, goal), Attained(was, goal);
    ExceptIs(was.indexes.keys, Lost(was, goal));
    ExceptIs(goal.indexes.keys, Lost(was, goal));
    assert IsDict(a.indexes) && IsDict(b.indexes) && IsDict(b.through);
    forall n | n in b.indexes.at ensures Fits(b.indexes.at[n], Defined(b)) { AttainedFits(was, goal, n); }
    forall n | n in a.indexes.at
      ensures Fits(a.indexes.at[n], Defined(a))
    {
      assert Fits(was.indexes.at[n], Defined(was));
    }
  }

  lemma SparedTables(was: State, goal: State)
    ensures var a, b := Spared(was, goal), Attained(was, goal);
      && a.tables == was.tables && b.tables == goal.tables && a.through == was.through &&
        b.through.at.Keys == goal.through.at.Keys
      && Full(a).tables == Full(was).tables && Full(b).tables.Keys == Full(goal).tables.Keys
      && forall t {:trigger Rebuilt(t, a, b)} :: Rebuilt(t, a, b) ==> Rebuilt(t, was, goal)
  {
  }

  lemma SparedComparable(was: State, goal: State)
    requires Comparable(was, goal)
    ensures Comparable(Spared(was, goal), Attained(was, goal))
  {
    hide Proper;
    hide Full;
    hide Attained;
    hide Spared;
    hide Rebuilt;
    SparedTables(was, goal);
    assert Proper(was) && Proper(goal);
    SparedProper(was, goal);
  }

  lemma SparedUntouched(was: State, goal: State)
    requires !Blocked(was, goal)
    ensures NoIndexTouched(Spared(was, goal), Attained(was, goal)) &&
      SharedNamesAgree(Spared(was, goal), Attained(was, goal))
  {
    var a, b := Spared(was, goal), Attained(was, goal);
    hide Altered;
    hide Except;
    forall n | n in a.indexes.at ensures !Touched(a.indexes.at[n], a, b) {
      assert !Touched(was.indexes.at[n], was, goal);
    }
  }

  // ---------------------------------------------------------------- indexes that no statement names

  /** `t` is `s` without the indexes `gone`. */
  ghost predicate Shadow(s: Schema, t: Schema, gone: set<string>) {
    && s.tables == t.tables && (forall n :: n in t.indexes <==> n in s.indexes && n !in gone)
    && (forall n :: n in t.indexes ==> t.indexes[n] == s.indexes[n])
  }

  predicate Names(op: Ddl, gone: set<string>) { (op.CreateIndex? || op.DropIndex?) && op.name in gone }

  lemma StepShadow(op: Ddl, s: Schema, t: Schema, gone: set<string>)
    requires Shadow(s, t, gone) && !Names(op, gone)
    ensures Step(op, s).Some? <==> Step(op, t).Some?
    ensures Step(op, s).Some? ==> Shadow(Step(op, s).value, Step(op, t).value, gone)
  {
  }

  lemma {:induction false} RunShadow(ops: seq<Ddl>, s: Schema, t: Schema, gone: set<string>)
    requires Shadow(s, t, gone) && forall op :: op in ops ==> !Names(op, gone)
    ensures Run(ops, s).Some? <==> Run(ops, t).Some?
    ensures Run(ops, s).Some? ==> Shadow(Run(ops, s).value, Run(ops, t).value, gone)
  {
    if ops != [] {
      assert ops[0] in ops && forall op :: op in ops[1..] ==> op in ops;
      StepShadow(ops[0], s, t, gone);
      if Step(ops[0], s).Some? { RunShadow(ops[1..], Step(ops[0], s).value, Step(ops[0], t).value, gone); }
    }
  }

  lemma TablePhaseNamesNone(was: State, goal: State)
    ensures forall op :: op in Forward(TablePhase(was, goal)) ==> !op.CreateIndex? && !op.DropIndex?
  {
    ForwardHolds(TablePhase(was, goal));
    TablePhaseIs(was, goal);
    hide TablePhase;
    forall u, op | u in TablePhase(was, goal) && op in u.fwd ensures !op.CreateIndex? && !op.DropIndex? {
      assert PhaseUnit(u, was, goal);
    }
  }

  lemma DiffNamesNone(was: State, goal: State)
    ensures forall op :: op in Forward(Diff(was, goal)) ==> !Names(op, Lost(was, goal))
  {
    ProgramsAppend(TablePhase(was, goal), IndexPhase(was, goal));
    TablePhaseNamesNone(was, goal);
    IndexPhaseIs(was, goal);
    hide TablePhase;
    hide IndexPhase;
    hide Touched;
  }

  lemma IndexPhaseLeaves(was: State, goal: State, n: string, d: IndexDef)
    requires n in was.indexes.at
    ensures forall op :: op in Forward(IndexPhase(was, goal)) ==> LeavesIndex(op, n, d)
  {
    IndexPhaseIs(was, goal);
    hide IndexPhase;
  }

  lemma DiffLeavesIndex(was: State, goal: State, n: string)
    requires Comparable(was, goal) && n in was.indexes.at
    ensures forall op :: op in Forward(Diff(was, goal)) ==> LeavesIndex(op, n, was.indexes.at[n])
  {
    hide Comparable;
    hide TablePhase;
    hide IndexPhase;
    hide LeavesIndex;
    ProgramsAppend(TablePhase(was, goal), IndexPhase(was, goal));
    PhaseLeavesIndexes(was, goal, n);
    IndexPhaseLeaves(was, goal, n, was.indexes.at[n]);
  }

  /** A lost index is gone in the end. */
  lemma LostIsGone(was: State, goal: State, n: string)
    requires Comparable(was, goal) && n in Lost(was, goal) && Run(Forward(Diff(was, goal)), Full(was)).Some?
    ensures n !in Run(Forward(Diff(was, goal)), Full(was)).value.indexes
  {
    TouchedIsKilled(was, goal, n);
    DiffLeavesIndex(was, goal, n);
    ProgramsAppend(TablePhase(was, goal), IndexPhase(was, goal));
    assert Full(was).indexes == was.indexes.at;
    hide Comparable;
    hide Full;
    hide TablePhase;
    hide IndexPhase;
    hide Touched;
    IndexFate(Forward(Diff(was, goal)), n, was.indexes.at[n], Full(was));
  }

  /** Main result: the program of a diff fails exactly when it is blocked, and otherwise leads to what is
      attained. */
  lemma DiffOutcome(was: State, goal: State)
    requires Comparable(was, goal)
    ensures Run(Forward(Diff(was, goal)), Full(was)) ==
      if Blocked(was, goal) then None else Some(Full(Attained(was, goal)))
  {
    if Blocked(was, goal) { BlockedStops(was, goal); } else { UnblockedRuns(was, goal); }
  }

  /** Dropping an index that is gone stops the program. */
  lemma GoneIndexStops(first: seq<Ddl>, second: seq<Ddl>, n: string, d: IndexDef, s: Schema)
    requires (forall op :: op in first ==> LeavesIndex(op, n, d)) && (exists op :: op in first && Kills(op, n, d))
    requires (forall op :: op in second ==> LeavesIndex(op, n, d)) && DropIndex(n) in second
    requires n in s.indexes ==> s.indexes[n] == d
    ensures Run(first + second, s).None?
  {
    RunAppend(first, second, s);
    if Run(first + second, s).Some? {
      IndexFate(first, n, d, s);
      IndexFate(second, n, d, Run(first, s).value);
    }
  }

  lemma BlockedStops(was: State, goal: State)
    requires Comparable(was, goal) && Blocked(was, goal)
    ensures Run(Forward(Diff(was, goal)), Full(was)).None?
  {
    var n :| n in was.indexes.at && n !in goal.indexes.at && Touched(was.indexes.at[n], was, goal);
    var d := was.indexes.at[n];
    assert n in was.indexes.keys && Full(was).indexes == was.indexes.at;
    hide Comparable;
    hide Full;
    hide TablePhase;
    hide IndexPhase;
    hide Touched;
    hide Kills;
    hide LeavesIndex;
    ProgramsAppend(TablePhase(was, goal), IndexPhase(was, goal));
    PhaseLeavesIndexes(was, goal, n);
    IndexPhaseLeaves(was, goal, n, d);
    TouchedIsKilled(was, goal, n);
    IndexPhaseIs(was, goal);
    GoneIndexStops(Forward(TablePhase(was, goal)), Forward(IndexPhase(was, goal)), n, d, Full(was));
  }

  lemma SparedShadow(was: State, goal: State)
    ensures Shadow(Full(was), Full(Spared(was, goal)), Lost(was, goal))
  {
    assert Full(was).tables == Full(Spared(was, goal)).tables;
    hide Touched;
    hide Except;
  }

  lemma UnblockedRuns(was: State, goal: State)
    requires Comparable(was, goal) && !Blocked(was, goal)
    ensures Run(Forward(Diff(was, goal)), Full(was)) == Some(Full(Attained(was, goal)))
  {
    hide *;
    var a, b, gone, ops := Spared(was, goal), Attained(was, goal), Lost(was, goal), Forward(Diff(was, goal));
    SparedComparable(was, goal);
    SparedUntouched(was, goal);
    DiffGoesThereAndBack(a, b);
    SameDiff(was, goal);
    DiffNamesNone(was, goal);
    SparedShadow(was, goal);
    RunShadow(ops, Full(was), Full(a), gone);
    forall n | n in gone ensures n !in Run(ops, Full(was)).value.indexes { LostIsGone(was, goal, n); }
    ShadowOfNothing(Run(ops, Full(was)).value, Full(b), gone);
  }

  lemma ShadowOfNothing(s: Schema, t: Schema, gone: set<string>)
    requires Shadow(s, t, gone) && forall n :: n in gone ==> n !in s.indexes
    ensures s == t
  {
    assert s.indexes.Keys == t.indexes.Keys;
    assert s.indexes == t.indexes;
  }

  /** Main result: the forward program leads from the old schema to the new one if and only if no
      index of the old snapshot is touched and names kept in both snapshots mean the same. */
  lemma DiffWorksExactlyWhen(was: State, goal: State)
    requires Comparable(was, goal)
    ensures Run(Forward(Diff(was, goal)), Full(was)) == Some(Full(goal)) <==>
      NoIndexTouched(was, goal) && SharedNamesAgree(was, goal)
  {
    DiffOutcome(was, goal);
    if NoIndexTouched(was, goal) && SharedNamesAgree(was, goal) { DiffGoesThereAndBack(was, goal); }
    if !Blocked(was, goal) && Full(Attained(was, goal)) == Full(goal) { AttainedAll(was, goal); }
  }

  lemma AttainedAll(was: State, goal: State)
    requires Comparable(was, goal) && !Blocked(was, goal) && Full(Attained(was, goal)) == Full(goal)
    ensures NoIndexTouched(was, goal) && SharedNamesAgree(was, goal)
  {
    var b := Attained(was, goal);
    assert b.indexes.at == goal.indexes.at;
    forall t | t in was.through.at && t in goal.through.at ensures was.through.at[t] == goal.through.at[t] {
      assert Full(b).tables[t] == Full(goal).tables[t];
    }
    forall n | n in was.indexes.at && n in goal.indexes.at
      ensures !Touched(was.indexes.at[n], was, goal) && was.indexes.at[n] == goal.indexes.at[n]
    {
      assert n in b.indexes.at && b.indexes.at[n] == goal.indexes.at[n];
    }
  }

  /** A table `t` with some columns of one definition and an index `i` on column `b`, or none. */
  function Sample(columns: seq<string>, indexed: bool, def: Column): State {
    var cols := Dict(columns, map c | c in columns :: def);
    var ix := if indexed then Dict(["i"], map["i" := IndexDef("t", ["b"])]) else Dict([], map[]);
    State(Dict(["t"], map["t" := TableDef(cols, cols.at)]), Dict([], map[]), ix)
  }

  lemma SampleProper(columns: seq<string>, indexed: bool, def: Column)
    requires Distinct(columns) && (indexed ==> "b" in columns)
    ensures Proper(Sample(columns, indexed, def))
  {
  }

  lemma SampleUnaltered(before: seq<string>, after: seq<string>, i: bool, j: bool, def: Column)
    ensures forall t {:trigger Rebuilt(t, Sample(before, i, def), Sample(after, j, def))} ::
      !Rebuilt(t, Sample(before, i, def), Sample(after, j, def))
  {
  }

  lemma SampleTouched(before: seq<string>, after: seq<string>, def: Column)
    requires "b" !in after
    ensures Touched(IndexDef("t", ["b"]), Sample(before, true, def), Sample(after, false, def))
  {
    hide Altered;
    var ix, goal := IndexDef("t", ["b"]), Sample(after, false, def);
    assert ix.columns[0] == "b";
    assert ix.table == "t" && "b" in ix.columns && "b" !in goal.tables.at[ix.table].coldefs.at;
  }

  lemma SampleComparable(def: Column)
    ensures Comparable(Sample(["a", "b"], true, def), Sample(["a"], false, def))
  {
    SampleProper(["a", "b"], true, def);
    SampleProper(["a"], false, def);
    SampleUnaltered(["a", "b"], ["a"], true, false, def);
    hide Proper;
    hide Rebuilt;
    hide Full;
  }

  /** For one, a column cannot be dropped together with its index: by the time the program drops the
      index, it has gone with the column. */
  lemma IndexedColumnCannotBeDropped(def: Column)
    ensures var was, goal := Sample(["a", "b"], true, def), Sample(["a"], false, def);
      Comparable(was, goal) && Run(Forward(Diff(was, goal)), Full(was)).None?
  {
    var was, goal := Sample(["a", "b"], true, def), Sample(["a"], false, def);
    SampleComparable(def);
    SampleTouched(["a", "b"], ["a"], def);
    assert "i" in was.indexes.at && was.indexes.at["i"] == IndexDef("t", ["b"]) && "i" !in goal.indexes.at;
    hide Sample;
    DiffOutcome(was, goal);
  }
}
