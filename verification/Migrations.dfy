/** The diff engine: two snapshots to a forward and a reverse program. */
module Migrations {
  import opened Basics
  import opened Schemas

  // ---------------------------------------------------------------- snapshots

  /** A Python dict: its keys in insertion order, and its values. */
  datatype Dict<V> = Dict(keys: seq<string>, at: map<string, V>)

  ghost predicate IsDict<V>(d: Dict<V>) {
    Distinct(d.keys) && forall k :: k in d.keys <==> k in d.at
  }

  /** `create` is what the CREATE TABLE text declares; a fresh snapshot has it equal to `coldefs`. */
  datatype TableDef = TableDef(coldefs: Dict<Column>, create: Columns)

  datatype State = State(tables: Dict<TableDef>, through: Dict<Columns>, indexes: Dict<IndexDef>)

  ghost predicate IsState(s: State) {
    && IsDict(s.tables) && IsDict(s.through) && IsDict(s.indexes)
    && forall t :: t in s.tables.at ==> IsDict(s.tables.at[t].coldefs)
  }

  /** The schema a snapshot describes: model tables and through tables share one namespace. */
  function Full(s: State): Schema {
    Schema(map t | t in s.tables.at.Keys + s.through.at.Keys ::
      if t in s.through.at then s.through.at[t] else s.tables.at[t].coldefs.at,
           s.indexes.at)
  }

  /** The model tables of a snapshot. */
  function Defined(s: State): map<string, Columns> { map t | t in s.tables.at :: s.tables.at[t].coldefs.at }

  // ---------------------------------------------------------------- the programs

  /** One change: the statements that make it and the statements that undo it. */
  datatype Unit = Unit(fwd: seq<Ddl>, rev: seq<Ddl>)

  function Forward(us: seq<Unit>): seq<Ddl> {
    if us == [] then [] else us[0].fwd + Forward(us[1..])
  }

  /** Undo in the opposite order: every later change is undone first. */
  function Reverse(us: seq<Unit>): seq<Ddl> {
    if us == [] then [] else Reverse(us[1..]) + us[0].rev
  }

  function Temp(t: string): string { t + "__new" }

  function Common(keys: seq<string>, from: Columns): seq<string> {
    if keys == [] then [] else (if keys[0] in from then [keys[0]] else []) + Common(keys[1..], from)
  }

  /** `_rebuild`. */
  function Rebuild(t: string, create: Columns, from: Dict<Column>, to: Dict<Column>): seq<Ddl> {
    [CreateTable(Temp(t), create), CopyRows(Temp(t), t, Common(to.keys, from.at)),
     DropTable(t), RenameTable(Temp(t), t)]
  }

  /** A shared column whose definition changed, so the whole table is rebuilt. */
  predicate Altered(from: Dict<Column>, to: Dict<Column>) {
    exists c :: c in to.keys && c in from.at && c in to.at && from.at[c] != to.at[c]
  }

  /** What the CREATE TABLE texts of a snapshot declare. */
  function Creates(tables: Dict<TableDef>): map<string, Columns> {
    map t | t in tables.at :: tables.at[t].create
  }

  /** The loop over created tables, and over created through tables. */
  function CreateUnits(keys: seq<string>, was: map<string, Columns>, goal: map<string, Columns>): seq<Unit> {
    if keys == [] then [] else
    var t := keys[0];
    (if t in was || t !in goal then []
     else [Unit([CreateTable(t, goal[t])], [DropTable(t)])]) +
    CreateUnits(keys[1..], was, goal)
  }

  /** The loop over dropped tables, and over dropped through tables. */
  function DropUnits(keys: seq<string>, was: map<string, Columns>, goal: map<string, Columns>): seq<Unit> {
    if keys == [] then [] else
    var t := keys[0];
    (if t in goal || t !in was then []
     else [Unit([DropTable(t)], [CreateTable(t, was[t])])]) +
    DropUnits(keys[1..], was, goal)
  }

  function AddColumnUnits(t: string, keys: seq<string>, from: Dict<Column>, to: Dict<Column>): seq<Unit> {
    if keys == [] then [] else
    var c := keys[0];
    (if c in from.at || c !in to.at then [] else [Unit([AddColumn(t, c, to.at[c])], [DropColumn(t, c)])])
      + AddColumnUnits(t, keys[1..], from, to)
  }

  function DropColumnUnits(t: string, keys: seq<string>, from: Dict<Column>, to: Dict<Column>): seq<Unit> {
    if keys == [] then [] else
    var c := keys[0];
    (if c in to.at || c !in from.at then [] else [Unit([DropColumn(t, c)], [AddColumn(t, c, from.at[c])])])
      + DropColumnUnits(t, keys[1..], from, to)
  }

  function TableUnits(t: string, was: TableDef, goal: TableDef): seq<Unit> {
    if Altered(was.coldefs, goal.coldefs) then
      [Unit(Rebuild(t, goal.create, was.coldefs, goal.coldefs), Rebuild(t, was.create, goal.coldefs, was.coldefs))]
    else
      AddColumnUnits(t, goal.coldefs.keys, was.coldefs, goal.coldefs)
        + DropColumnUnits(t, was.coldefs.keys, was.coldefs, goal.coldefs)
  }

  function ColumnUnits(keys: seq<string>, was: State, goal: State): seq<Unit> {
    if keys == [] then [] else
    var t := keys[0];
    (if t !in was.tables.at || t !in goal.tables.at then [] else TableUnits(t, was.tables.at[t], goal.tables.at[t]))
      + ColumnUnits(keys[1..], was, goal)
  }

  function IndexCreateUnits(keys: seq<string>, was: map<string, IndexDef>, goal: map<string, IndexDef>): seq<Unit> {
    if keys == [] then [] else
    var n := keys[0];
    (if n in was || n !in goal then []
     else [Unit([CreateIndex(n, goal[n])], [DropIndex(n)])]) +
    IndexCreateUnits(keys[1..], was, goal)
  }

  function IndexDropUnits(keys: seq<string>, was: map<string, IndexDef>, goal: map<string, IndexDef>): seq<Unit> {
    if keys == [] then [] else
    var n := keys[0];
    (if n in goal || n !in was then []
     else [Unit([DropIndex(n)], [CreateIndex(n, was[n])])]) +
    IndexDropUnits(keys[1..], was, goal)
  }

  /** Everything that touches tables, in the order `diff_state` emits it. */
  function TablePhase(was: State, goal: State): seq<Unit> {
    CreateUnits(goal.tables.keys, Creates(was.tables), Creates(goal.tables))
      + (DropUnits(was.tables.keys, Creates(was.tables), Creates(goal.tables))
      + (ColumnUnits(goal.tables.keys, was, goal)
      + (CreateUnits(goal.through.keys, was.through.at, goal.through.at)
      + DropUnits(was.through.keys, was.through.at, goal.through.at))))
  }

  function IndexPhase(was: State, goal: State): seq<Unit> {
    IndexCreateUnits(goal.indexes.keys, was.indexes.at, goal.indexes.at) +
    IndexDropUnits(was.indexes.keys, was.indexes.at, goal.indexes.at)
  }

  /** `diff_state`, as its list of changes. */
  function Diff(was: State, goal: State): seq<Unit> { TablePhase(was, goal) + IndexPhase(was, goal) }

  lemma {:induction false} ProgramsAppend(a: seq<Unit>, b: seq<Unit>)
    ensures Forward(a + b) == Forward(a) + Forward(b)
    ensures Reverse(a + b) == Reverse(b) + Reverse(a)
  {
    if a == [] {
      assert a + b == b && Reverse(b) + [] == Reverse(b);
    } else {
      var rest := a[1..];
      assert (a + b)[1..] == rest + b && (a + b)[0] == a[0];
      ProgramsAppend(rest, b);
      assert Forward(a + b) == a[0].fwd + (Forward(rest) + Forward(b));
      assert Reverse(a + b) == (Reverse(b) + Reverse(rest)) + a[0].rev;
    }
  }

  // ---------------------------------------------------------------- going there and back

  /** The changes take `s` to `t`, and their undoing takes `t` back to `s`. */
  ghost predicate Links(us: seq<Unit>, s: Schema, t: Schema) {
    Run(Forward(us), s) == Some(t) && Run(Reverse(us), t) == Some(s)
  }

  lemma LinksAppend(a: seq<Unit>, b: seq<Unit>, s: Schema, mid: Schema, t: Schema)
    requires Links(a, s, mid) && Links(b, mid, t)
    ensures Links(a + b, s, t)
  {
    ProgramsAppend(a, b);
    RunAppend(Forward(a), Forward(b), s);
    RunAppend(Reverse(b), Reverse(a), t);
  }

  /** A change of one statement each way, then the rest. */
  lemma LinksCons(f: Ddl, r: Ddl, us: seq<Unit>, s: Schema, mid: Schema, t: Schema)
    requires Step(f, s) == Some(mid) && Step(r, mid) == Some(s) && Links(us, mid, t)
    ensures Links([Unit([f], [r])] + us, s, t)
  {
    var one := [Unit([f], [r])];
    assert one[1..] == [] && [f] + [] == [f] && [] + [r] == [r];
    assert [f][1..] == [] && [r][1..] == [];
    LinksAppend(one, us, s, mid, t);
  }

  /** No index stands on `t`, or none of its indexes on column `c`. */
  ghost predicate Unindexed(ix: map<string, IndexDef>, t: string, c: Option<string>) {
    forall n :: n in ix ==> !(ix[n].table == t && (c.None? || c.value in ix[n].columns))
  }

  lemma UnindexedStays(ix: map<string, IndexDef>, t: string, c: Option<string>)
    requires Unindexed(ix, t, c)
    ensures Without(ix, t, c) == ix
  {
  }

  /** `after` is `before` with entries for the keys of `add`, and nothing else changed. */
  ghost predicate Added<V>(before: map<string, V>, add: set<string>, from: map<string, V>, after: map<string, V>) {
    && (forall x :: x in after <==> x in before || x in add)
    && (forall x :: x in add ==> x in from && x !in before && x in after && after[x] == from[x])
    && (forall x :: x in before ==> x in after && after[x] == before[x])
  }

  function Fresh<V>(keys: seq<string>, was: map<string, V>): set<string> { set x | x in keys && x !in was }

  lemma FreshSplits<V>(keys: seq<string>, was: map<string, V>)
    requires keys != [] && Distinct(keys)
    ensures Fresh(keys, was) == (if keys[0] in was then {} else {keys[0]}) + Fresh(keys[1..], was)
    ensures keys[0] !in Fresh(keys[1..], was) && Distinct(keys[1..])
  {
    assert forall x :: x in keys <==> x == keys[0] || x in keys[1..];
  }

  lemma AddedNothing<V>(before: map<string, V>, from: map<string, V>, after: map<string, V>)
    requires Added(before, {}, from, after)
    ensures before == after
  {
  }

  /** The tables `CreateUnits` creates. */
  lemma {:induction false} CreatesLink(keys: seq<string>, was: map<string, Columns>, goal: map<string, Columns>,
                                       s: Schema, t: Schema)
    requires Distinct(keys) && (forall x :: x in keys ==> x in goal) && s.indexes == t.indexes
    requires Added(s.tables, Fresh(keys, was), goal, t.tables)
    requires forall x :: x in Fresh(keys, was) ==> Unindexed(s.indexes, x, None)
    ensures Links(CreateUnits(keys, was, goal), s, t)
  {
    if keys == [] {
      AddedNothing(s.tables, goal, t.tables);
    } else {
      var k, rest := keys[0], keys[1..];
      FreshSplits(keys, was);
      if k in was {
        CreatesLink(rest, was, goal, s, t);
        assert CreateUnits(keys, was, goal) == CreateUnits(rest, was, goal);
      } else {
        var mid := s.(tables := s.tables[k := goal[k]]);
        CreatesLink(rest, was, goal, mid, t);
        UnindexedStays(s.indexes, k, None);
        assert mid.tables - {k} == s.tables;
        LinksCons(CreateTable(k, goal[k]), DropTable(k), CreateUnits(rest, was, goal), s, mid, t);
      }
    }
  }

  /** The tables `DropUnits` drops. */
  lemma {:induction false} DropsLink(keys: seq<string>, was: map<string, Columns>, goal: map<string, Columns>,
                                     s: Schema, t: Schema)
    requires Distinct(keys) && (forall x :: x in keys ==> x in was) && s.indexes == t.indexes
    requires Added(t.tables, Fresh(keys, goal), was, s.tables)
    requires forall x :: x in Fresh(keys, goal) ==> Unindexed(s.indexes, x, None)
    ensures Links(DropUnits(keys, was, goal), s, t)
  {
    if keys == [] {
      AddedNothing(t.tables, was, s.tables);
    } else {
      var k, rest := keys[0], keys[1..];
      FreshSplits(keys, goal);
      if k in goal {
        DropsLink(rest, was, goal, s, t);
        assert DropUnits(keys, was, goal) == DropUnits(rest, was, goal);
      } else {
        var mid := s.(tables := s.tables - {k});
        DropsLink(rest, was, goal, mid, t);
        UnindexedStays(s.indexes, k, None);
        assert mid.tables[k := was[k]] == s.tables;
        LinksCons(DropTable(k), CreateTable(k, was[k]), DropUnits(rest, was, goal), s, mid, t);
      }
    }
  }

  // ---------------------------------------------------------------- columns of one table

  lemma AddColumnUndone(t: string, c: string, def: Column, s: Schema, mid: Schema)
    requires t in s.tables && c !in s.tables[t] && Unindexed(s.indexes, t, Some(c))
    requires mid == s.(tables := s.tables[t := s.tables[t][c := def]])
    ensures Step(AddColumn(t, c, def), s) == Some(mid) && Step(DropColumn(t, c), mid) == Some(s)
  {
    UnindexedStays(s.indexes, t, Some(c));
    assert mid.tables[t] - {c} == s.tables[t] && mid.tables[t := s.tables[t]] == s.tables;
  }

  lemma DropColumnUndone(t: string, c: string, def: Column, s: Schema, mid: Schema)
    requires t in s.tables && c in s.tables[t] && s.tables[t][c] == def && Unindexed(s.indexes, t, Some(c))
    requires mid == s.(tables := s.tables[t := s.tables[t] - {c}])
    ensures Step(DropColumn(t, c), s) == Some(mid) && Step(AddColumn(t, c, def), mid) == Some(s)
  {
    UnindexedStays(s.indexes, t, Some(c));
    assert mid.tables[t][c := def] == s.tables[t] && mid.tables[t := s.tables[t]] == s.tables;
  }

  lemma DropColumnFirst(t: string, c: string, def: Column, us: seq<Unit>, s: Schema, cols: Columns)
    requires t in s.tables && c in s.tables[t] && s.tables[t][c] == def && Unindexed(s.indexes, t, Some(c))
    requires var mid := s.(tables := s.tables[t := s.tables[t] - {c}]);
      Links(us, mid, mid.(tables := mid.tables[t := cols]))
    ensures Links([Unit([DropColumn(t, c)], [AddColumn(t, c, def)])] + us, s, s.(tables := s.tables[t := cols]))
  {
    hide Links;
    var mid := s.(tables := s.tables[t := s.tables[t] - {c}]);
    DropColumnUndone(t, c, def, s, mid);
    assert mid.tables[t := cols] == s.tables[t := cols];
    LinksCons(DropColumn(t, c), AddColumn(t, c, def), us, s, mid, s.(tables := s.tables[t := cols]));
  }

  lemma {:induction false} AddColumnsLink(t: string, keys: seq<string>, from: Dict<Column>, to: Dict<Column>,
                                          s: Schema, cols: Columns)
    requires Distinct(keys) && (forall c :: c in keys ==> c in to.at) && t in s.tables
    requires Added(s.tables[t], Fresh(keys, from.at), to.at, cols)
    requires forall c :: c in Fresh(keys, from.at) ==> Unindexed(s.indexes, t, Some(c))
    ensures Links(AddColumnUnits(t, keys, from, to), s, s.(tables := s.tables[t := cols]))
  {
    if keys == [] {
      AddedNothing(s.tables[t], to.at, cols);
      assert s.tables[t := cols] == s.tables;
    } else {
      var c, rest := keys[0], keys[1..];
      FreshSplits(keys, from.at);
      if c in from.at {
        AddColumnsLink(t, rest, from, to, s, cols);
        assert AddColumnUnits(t, keys, from, to) == AddColumnUnits(t, rest, from, to);
      } else {
        var mid := s.(tables := s.tables[t := s.tables[t][c := to.at[c]]]);
        AddColumnsLink(t, rest, from, to, mid, cols);
        AddColumnUndone(t, c, to.at[c], s, mid);
        assert mid.tables[t := cols] == s.tables[t := cols];
        LinksCons(AddColumn(t, c, to.at[c]), DropColumn(t, c), AddColumnUnits(t, rest, from, to), s, mid,
          s.(tables := s.tables[t := cols]));
      }
    }
  }

  lemma {:induction false} DropColumnsLink(t: string, keys: seq<string>, from: Dict<Column>, to: Dict<Column>,
                                           s: Schema, cols: Columns)
    requires Distinct(keys) && (forall c :: c in keys ==> c in from.at) && t in s.tables
    requires Added(cols, Fresh(keys, to.at), from.at, s.tables[t])
    requires forall c :: c in Fresh(keys, to.at) ==> Unindexed(s.indexes, t, Some(c))
    ensures Links(DropColumnUnits(t, keys, from, to), s, s.(tables := s.tables[t := cols]))
  {
    if keys == [] {
      AddedNothing(cols, from.at, s.tables[t]);
      assert s.tables[t := cols] == s.tables;
    } else {
      var c, rest := keys[0], keys[1..];
      FreshSplits(keys, to.at);
      if c in to.at {
        DropColumnsLink(t, rest, from, to, s, cols);
        assert DropColumnUnits(t, keys, from, to) == DropColumnUnits(t, rest, from, to);
      } else {
        var mid := s.(tables := s.tables[t := s.tables[t] - {c}]);
        DropColumnsLink(t, rest, from, to, mid, cols);
        DropColumnFirst(t, c, from.at[c], DropColumnUnits(t, rest, from, to), s, cols);
      }
    }
  }

  lemma {:induction false} CommonIsShared(keys: seq<string>, from: Columns)
    ensures forall c :: c in Common(keys, from) <==> c in keys && c in from
  {
    if keys != [] {
      CommonIsShared(keys[1..], from);
      assert forall x :: x in keys <==> x == keys[0] || x in keys[1..];
    }
  }

  /** The four statements of a rebuild replace the table's columns by those of the CREATE text. */
  lemma RebuildRuns(t: string, from: Dict<Column>, to: Dict<Column>, s: Schema)
    requires IsDict(from) && IsDict(to) && t in s.tables && s.tables[t] == from.at
    requires Temp(t) !in s.tables && Unindexed(s.indexes, t, None) && Unindexed(s.indexes, Temp(t), None)
    requires exists c :: c in to.at && c in from.at
    ensures Run(Rebuild(t, to.at, from, to), s) == Some(s.(tables := s.tables[t := to.at]))
  {
    hide Run;
    var temp := Temp(t);
    assert |temp| == |t| + 5 && temp != t;
    CommonIsShared(to.keys, from.at);
    var c :| c in to.at && c in from.at;
    assert c in to.keys && c in Common(to.keys, from.at);
    var s1 := s.(tables := s.tables[temp := to.at]);
    UnindexedStays(s.indexes, t, None);
    var s2 := s1.(tables := s1.tables - {t});
    var s3 := s.(tables := s.tables[t := to.at]);
    assert (s2.tables - {temp})[t := to.at] == s3.tables;
    assert Retargeted(s.indexes, temp, t) == s.indexes;
    RunFour(Rebuild(t, to.at, from, to), s, s1, s1, s2, s3);
  }

  lemma RunFour(ops: seq<Ddl>, s: Schema, s1: Schema, s2: Schema, s3: Schema, s4: Schema)
    requires |ops| == 4 && Step(ops[0], s) == Some(s1) && Step(ops[1], s1) == Some(s2)
    requires Step(ops[2], s2) == Some(s3) && Step(ops[3], s3) == Some(s4)
    ensures Run(ops, s) == Some(s4)
  {
    assert ops == [ops[0], ops[1]] + [ops[2], ops[3]];
    assert [ops[0], ops[1]][1..] == [ops[1]] && [ops[1]][1..] == [];
    assert [ops[2], ops[3]][1..] == [ops[3]] && [ops[3]][1..] == [];
    assert Run([ops[1]], s1) == Some(s2) && Run([ops[3]], s3) == Some(s4);
    RunAppend([ops[0], ops[1]], [ops[2], ops[3]], s);
  }

  /** Indexes that the changes to a surviving table leave alone. */
  ghost predicate TableKeepsIndexes(t: string, was: Dict<Column>, goal: Dict<Column>, ix: map<string, IndexDef>) {
    && (Altered(was, goal) ==> Unindexed(ix, t, None))
    && (forall c :: c in was.at && c !in goal.at ==> Unindexed(ix, t, Some(c)))
    && (forall c :: c in goal.at && c !in was.at ==> Unindexed(ix, t, Some(c)))
  }

  /** The changes to one surviving table link its old columns to its new ones. */
  lemma TableLinks(t: string, was: TableDef, goal: TableDef, s: Schema)
    requires IsDict(was.coldefs) && IsDict(goal.coldefs) && t in s.tables && s.tables[t] == was.coldefs.at
    requires TableKeepsIndexes(t, was.coldefs, goal.coldefs, s.indexes)
    requires Altered(was.coldefs, goal.coldefs) ==>
      was.create == was.coldefs.at && goal.create == goal.coldefs.at && Temp(t) !in s.tables &&
        Unindexed(s.indexes, Temp(t), None)
    ensures Links(TableUnits(t, was, goal), s, s.(tables := s.tables[t := goal.coldefs.at]))
  {
    if Altered(was.coldefs, goal.coldefs) {
      RebuildLinks(t, was.coldefs, goal.coldefs, s);
    } else {
      AlterLinks(t, was.coldefs, goal.coldefs, s);
    }
  }

  lemma RebuildLinks(t: string, from: Dict<Column>, to: Dict<Column>, s: Schema)
    requires IsDict(from) && IsDict(to) && t in s.tables && s.tables[t] == from.at && Altered(from, to)
    requires Temp(t) !in s.tables && Unindexed(s.indexes, t, None) && Unindexed(s.indexes, Temp(t), None)
    ensures Links([Unit(Rebuild(t, to.at, from, to), Rebuild(t, from.at, to, from))], s,
      s.(tables := s.tables[t := to.at]))
  {
    var target := s.(tables := s.tables[t := to.at]);
    assert |Temp(t)| == |t| + 5;
    RebuildRuns(t, from, to, s);
    RebuildRuns(t, to, from, target);
    assert target.tables[t := from.at] == s.tables;
    var u := Unit(Rebuild(t, to.at, from, to), Rebuild(t, from.at, to, from));
    assert [u][1..] == [] && u.fwd + [] == u.fwd && [] + u.rev == u.rev;
  }

  lemma AlterLinks(t: string, from: Dict<Column>, to: Dict<Column>, s: Schema)
    requires IsDict(from) && IsDict(to) && t in s.tables && s.tables[t] == from.at && !Altered(from, to)
    requires TableKeepsIndexes(t, from, to, s.indexes)
    ensures Links(AddColumnUnits(t, to.keys, from, to) + DropColumnUnits(t, from.keys, from, to), s,
      s.(tables := s.tables[t := to.at]))
  {
    hide Run;
    hide AddColumnUnits;
    hide DropColumnUnits;
    var both := map c | c in from.at.Keys + to.at.Keys :: if c in from.at then from.at[c] else to.at[c];
    var mid := s.(tables := s.tables[t := both]);
    AddColumnsLink(t, to.keys, from, to, s, both);
    assert forall c :: c in to.at && c in from.at ==> c in to.keys && to.at[c] == from.at[c];
    DropColumnsLink(t, from.keys, from, to, mid, to.at);
    assert mid.tables[t := to.at] == s.tables[t := to.at];
    LinksAppend(AddColumnUnits(t, to.keys, from, to), DropColumnUnits(t, from.keys, from, to), s, mid,
      s.(tables := s.tables[t := to.at]));
  }

  // ---------------------------------------------------------------- all surviving tables

  predicate Survives(t: string, was: State, goal: State) { t in was.tables.at && t in goal.tables.at }

  predicate Rebuilt(t: string, was: State, goal: State) {
    Survives(t, was, goal) && Altered(was.tables.at[t].coldefs, goal.tables.at[t].coldefs)
  }

  predicate Changes(t: string, was: State, goal: State, before: Columns, after: Columns)
    requires Survives(t, was, goal)
  {
    before == was.tables.at[t].coldefs.at && after == goal.tables.at[t].coldefs.at
  }

  /** `after` has the new columns for the surviving tables among `keys`, and is `before` elsewhere. */
  ghost predicate Altering(keys: seq<string>, was: State, goal: State, before: map<string, Columns>,
                           after: map<string, Columns>)
  {
    && (forall x :: x in after <==> x in before)
    && (forall x :: x in before && !(x in keys && Survives(x, was, goal)) ==> after[x] == before[x])
    && (forall x :: x in keys && Survives(x, was, goal) ==> x in before && Changes(x, was, goal, before[x], after[x]))
  }

  /** What rebuilding needs: fresh CREATE texts, and the temporary name free. */
  ghost predicate CanRebuild(t: string, was: State, goal: State, tables: map<string, Columns>,
                             ix: map<string, IndexDef>)
    requires Survives(t, was, goal)
  {
    var a, b := was.tables.at[t], goal.tables.at[t];
    Altered(a.coldefs, b.coldefs) ==>
      a.create == a.coldefs.at && b.create == b.coldefs.at && Temp(t) !in tables && Unindexed(ix, Temp(t), None)
  }

  lemma {:induction false} ColumnsLink(keys: seq<string>, was: State, goal: State, s: Schema, t: Schema)
    requires IsState(was) && IsState(goal) && Distinct(keys) && s.indexes == t.indexes
    requires Altering(keys, was, goal, s.tables, t.tables)
    requires forall x :: x in keys && Survives(x, was, goal) ==>
      TableKeepsIndexes(x, was.tables.at[x].coldefs, goal.tables.at[x].coldefs, s.indexes) &&
        CanRebuild(x, was, goal, s.tables, s.indexes)
    ensures Links(ColumnUnits(keys, was, goal), s, t)
  {
    if keys == [] {
      assert s.tables == t.tables;
    } else {
      var k, rest := keys[0], keys[1..];
      assert forall x :: x in keys <==> x == k || x in rest;
      assert k !in rest;
      if Survives(k, was, goal) {
        var mid := s.(tables := s.tables[k := goal.tables.at[k].coldefs.at]);
        TableLinks(k, was.tables.at[k], goal.tables.at[k], s);
        ColumnsLink(rest, was, goal, mid, t);
        LinksAppend(TableUnits(k, was.tables.at[k], goal.tables.at[k]), ColumnUnits(rest, was, goal), s, mid, t);
      } else {
        ColumnsLink(rest, was, goal, s, t);
        assert ColumnUnits(keys, was, goal) == ColumnUnits(rest, was, goal);
      }
    }
  }

  // ---------------------------------------------------------------- indexes

  lemma {:induction false} IndexCreatesLink(keys: seq<string>, was: map<string, IndexDef>, goal: map<string, IndexDef>,
                                            s: Schema, t: Schema)
    requires Distinct(keys) && (forall x :: x in keys ==> x in goal) && s.tables == t.tables
    requires Added(s.indexes, Fresh(keys, was), goal, t.indexes)
    requires forall x :: x in Fresh(keys, was) ==> Fits(goal[x], s.tables)
    ensures Links(IndexCreateUnits(keys, was, goal), s, t)
  {
    hide Step;
    hide Fits;
    if keys == [] {
      AddedNothing(s.indexes, goal, t.indexes);
    } else {
      var k, rest := keys[0], keys[1..];
      FreshSplits(keys, was);
      if k in was {
        IndexCreatesLink(rest, was, goal, s, t);
        assert IndexCreateUnits(keys, was, goal) == IndexCreateUnits(rest, was, goal);
      } else {
        var mid := s.(indexes := s.indexes[k := goal[k]]);
        IndexCreatesLink(rest, was, goal, mid, t);
        CreateIndexUndone(k, goal[k], s, mid);
        LinksCons(CreateIndex(k, goal[k]), DropIndex(k), IndexCreateUnits(rest, was, goal), s, mid, t);
      }
    }
  }

  lemma {:induction false} IndexDropsLink(keys: seq<string>, was: map<string, IndexDef>, goal: map<string, IndexDef>,
                                          s: Schema, t: Schema)
    requires Distinct(keys) && (forall x :: x in keys ==> x in was) && s.tables == t.tables
    requires Added(t.indexes, Fresh(keys, goal), was, s.indexes)
    requires forall x :: x in Fresh(keys, goal) ==> Fits(was[x], s.tables)
    ensures Links(IndexDropUnits(keys, was, goal), s, t)
  {
    hide Step;
    hide Fits;
    if keys == [] {
      AddedNothing(t.indexes, was, s.indexes);
    } else {
      var k, rest := keys[0], keys[1..];
      FreshSplits(keys, goal);
      if k in goal {
        IndexDropsLink(rest, was, goal, s, t);
        assert IndexDropUnits(keys, was, goal) == IndexDropUnits(rest, was, goal);
      } else {
        var mid := s.(indexes := s.indexes - {k});
        IndexDropsLink(rest, was, goal, mid, t);
        DropIndexUndone(k, was[k], s, mid);
        LinksCons(DropIndex(k), CreateIndex(k, was[k]), IndexDropUnits(rest, was, goal), s, mid, t);
      }
    }
  }

  lemma CreateIndexUndone(k: string, ix: IndexDef, s: Schema, mid: Schema)
    requires k !in s.indexes && Fits(ix, s.tables) && mid == s.(indexes := s.indexes[k := ix])
    ensures Step(CreateIndex(k, ix), s) == Some(mid) && Step(DropIndex(k), mid) == Some(s)
  {
    assert mid.indexes - {k} == s.indexes;
  }

  lemma DropIndexUndone(k: string, ix: IndexDef, s: Schema, mid: Schema)
    requires k in s.indexes && s.indexes[k] == ix && Fits(ix, s.tables) && mid == s.(indexes := s.indexes - {k})
    ensures Step(DropIndex(k), s) == Some(mid) && Step(CreateIndex(k, ix), mid) == Some(s)
  {
    assert mid.indexes[k := ix] == s.indexes;
  }

  /** The index's table and columns exist. */
  ghost predicate Fits(ix: IndexDef, tables: map<string, Columns>) {
    ix.table in tables && forall c :: c in ix.columns ==> c in tables[ix.table]
  }

  // ---------------------------------------------------------------- the whole diff

  /** Well-formed snapshots: through tables and model tables have different names, every index
      stands on columns of a model table, and CREATE texts agree with the column definitions where
      they are used. */
  ghost predicate Proper(s: State) {
    && IsState(s)
    && (forall t :: t in s.through.at ==> t !in s.tables.at)
    && (forall n :: n in s.indexes.at ==> Fits(s.indexes.at[n], Defined(s)))
  }

  /** What the two snapshots must have to do with each other. A name may not change from a model
      table to a through table; `<t>__new` is free for a rebuilt `t`. */
  ghost predicate Comparable(was: State, goal: State) {
    && Proper(was) && Proper(goal)
    && (forall t :: t in was.through.at ==> t !in goal.tables.at) &&
      (forall t :: t in goal.through.at ==> t !in was.tables.at)
    && (forall t :: t in goal.tables.at && t !in was.tables.at ==>
      goal.tables.at[t].create == goal.tables.at[t].coldefs.at)
    && (forall t :: t in was.tables.at && t !in goal.tables.at ==>
      was.tables.at[t].create == was.tables.at[t].coldefs.at)
    && (forall t {:trigger Rebuilt(t, was, goal)} :: Rebuilt(t, was, goal) ==>
          && was.tables.at[t].create == was.tables.at[t].coldefs.at &&
            goal.tables.at[t].create == goal.tables.at[t].coldefs.at
          && Temp(t) !in Full(was).tables && Temp(t) !in Full(goal).tables)
  }

  /** A table change takes this index of the old snapshot with it: its table is dropped or rebuilt,
      or one of its columns is dropped. */
  predicate Touched(ix: IndexDef, was: State, goal: State) {
    ix.table !in goal.tables.at || ix.table !in was.tables.at
    || Altered(was.tables.at[ix.table].coldefs, goal.tables.at[ix.table].coldefs)
    || exists c :: c in ix.columns && c !in goal.tables.at[ix.table].coldefs.at
  }

  ghost predicate NoIndexTouched(was: State, goal: State) {
    forall n :: n in was.indexes.at ==> !Touched(was.indexes.at[n], was, goal)
  }

  /** Names kept in both snapshots mean the same; `diff_state` compares only the names. */
  ghost predicate SharedNamesAgree(was: State, goal: State) {
    && (forall t :: t in was.through.at && t in goal.through.at ==> was.through.at[t] == goal.through.at[t])
    && (forall n :: n in was.indexes.at && n in goal.indexes.at ==> was.indexes.at[n] == goal.indexes.at[n])
  }

  /** The schema between the two phases: new tables, old indexes. */
  ghost function Midway(was: State, goal: State): Schema { Schema(Full(goal).tables, was.indexes.at) }

  /** The tables after each loop over tables: created, dropped, altered, through tables created. */
  ghost function Created(was: State, goal: State): map<string, Columns> {
    map t | t in Full(was).tables.Keys + goal.tables.at.Keys ::
      if t in Full(was).tables then Full(was).tables[t] else goal.tables.at[t].create
  }

  ghost function Dropped(was: State, goal: State): map<string, Columns> {
    map t | t in Created(was, goal) && !(t in was.tables.at && t !in goal.tables.at) :: Created(was, goal)[t]
  }

  ghost function Columned(was: State, goal: State): map<string, Columns> {
    map t | t in Dropped(was, goal) ::
      if t in goal.tables.at then goal.tables.at[t].coldefs.at else Dropped(was, goal)[t]
  }

  ghost function Throughs(was: State, goal: State): map<string, Columns> { goal.through.at + Columned(was, goal) }

  lemma CreatedLink(was: State, goal: State)
    requires Comparable(was, goal)
    ensures Links(CreateUnits(goal.tables.keys, Creates(was.tables), Creates(goal.tables)),
                  Full(was), Schema(Created(was, goal), was.indexes.at))
  {
    forall x | x in Fresh(goal.tables.keys, Creates(was.tables))
      ensures x in goal.tables.at && x !in Full(was).tables && Unindexed(was.indexes.at, x, None)
    {
      assert x in goal.tables.at;
    }
    assert Added(Full(was).tables, Fresh(goal.tables.keys, Creates(was.tables)), Creates(goal.tables),
      Created(was, goal));
    CreatesLink(goal.tables.keys, Creates(was.tables), Creates(goal.tables), Full(was),
      Schema(Created(was, goal), was.indexes.at));
  }

  lemma DroppedLink(was: State, goal: State)
    requires Comparable(was, goal) && NoIndexTouched(was, goal)
    ensures Links(DropUnits(was.tables.keys, Creates(was.tables), Creates(goal.tables)),
                  Schema(Created(was, goal), was.indexes.at), Schema(Dropped(was, goal), was.indexes.at))
  {
    forall x | x in Fresh(was.tables.keys, Creates(goal.tables))
      ensures x in was.tables.at && x !in goal.tables.at && Unindexed(was.indexes.at, x, None)
    {
      assert x in was.tables.at;
    }
    assert Added(Dropped(was, goal), Fresh(was.tables.keys, Creates(goal.tables)), Creates(was.tables),
      Created(was, goal));
    DropsLink(was.tables.keys, Creates(was.tables), Creates(goal.tables),
              Schema(Created(was, goal), was.indexes.at), Schema(Dropped(was, goal), was.indexes.at));
  }

  lemma ColumnsChange(was: State, goal: State)
    requires Comparable(was, goal)
    ensures Altering(goal.tables.keys, was, goal, Dropped(was, goal), Columned(was, goal))
  {
    var before, after := Dropped(was, goal), Columned(was, goal);
    assert forall x :: x in goal.tables.keys <==> x in goal.tables.at;
    forall x | x in goal.tables.keys && Survives(x, was, goal)
      ensures x in before && Changes(x, was, goal, before[x], after[x])
    {
      assert x !in was.through.at && before[x] == Full(was).tables[x];
    }
  }

  lemma RebuildPossible(t: string, was: State, goal: State)
    requires Comparable(was, goal) && Survives(t, was, goal)
    ensures CanRebuild(t, was, goal, Dropped(was, goal), was.indexes.at)
  {
    if Rebuilt(t, was, goal) {
      assert Temp(t) !in Full(was).tables && Temp(t) !in goal.tables.at;
      forall n | n in was.indexes.at ensures was.indexes.at[n].table != Temp(t) {
        assert Fits(was.indexes.at[n], Defined(was));
      }
    }
  }

  lemma ColumnedLink(was: State, goal: State)
    requires Comparable(was, goal) && NoIndexTouched(was, goal)
    ensures Links(ColumnUnits(goal.tables.keys, was, goal),
                  Schema(Dropped(was, goal), was.indexes.at), Schema(Columned(was, goal), was.indexes.at))
  {
    forall x | x in goal.tables.keys && Survives(x, was, goal)
      ensures TableKeepsIndexes(x, was.tables.at[x].coldefs, goal.tables.at[x].coldefs, was.indexes.at)
      ensures CanRebuild(x, was, goal, Dropped(was, goal), was.indexes.at)
    {
      RebuildPossible(x, was, goal);
    }
    ColumnsChange(was, goal);
    ColumnsLink(goal.tables.keys, was, goal, Schema(Dropped(was, goal), was.indexes.at),
      Schema(Columned(was, goal), was.indexes.at));
  }

  lemma ThroughsLink(was: State, goal: State)
    requires Comparable(was, goal)
    ensures Links(CreateUnits(goal.through.keys, was.through.at, goal.through.at),
                  Schema(Columned(was, goal), was.indexes.at), Schema(Throughs(was, goal), was.indexes.at))
  {
    assert forall x :: x in Columned(was, goal) <==> x in was.through.at || x in goal.tables.at;
    assert Added(Columned(was, goal), Fresh(goal.through.keys, was.through.at), goal.through.at, Throughs(was, goal));
    CreatesLink(goal.through.keys, was.through.at, goal.through.at,
                Schema(Columned(was, goal), was.indexes.at), Schema(Throughs(was, goal), was.indexes.at));
  }

  lemma ThroughsDroppedLink(was: State, goal: State)
    requires Comparable(was, goal) && SharedNamesAgree(was, goal)
    ensures Links(DropUnits(was.through.keys, was.through.at, goal.through.at),
                  Schema(Throughs(was, goal), was.indexes.at), Midway(was, goal))
  {
    assert forall x :: x in Throughs(was, goal) <==> x in was.through.at || x in Full(goal).tables;
    assert Added(Full(goal).tables, Fresh(was.through.keys, goal.through.at), was.through.at, Throughs(was, goal));
    DropsLink(was.through.keys, was.through.at, goal.through.at, Schema(Throughs(was, goal), was.indexes.at),
      Midway(was, goal));
  }

  lemma TablePhaseLinks(was: State, goal: State)
    requires Comparable(was, goal) && NoIndexTouched(was, goal) && SharedNamesAgree(was, goal)
    ensures Links(TablePhase(was, goal), Full(was), Midway(was, goal))
  {
    var ix, wc, gc := was.indexes.at, Creates(was.tables), Creates(goal.tables);
    var u1, u2, u3 := CreateUnits(goal.tables.keys, wc, gc), DropUnits(was.tables.keys, wc, gc),
      ColumnUnits(goal.tables.keys, was, goal);
    var u4 := CreateUnits(goal.through.keys, was.through.at, goal.through.at);
    var u5 := DropUnits(was.through.keys, was.through.at, goal.through.at);
    var s1, s2 := Schema(Created(was, goal), ix), Schema(Dropped(was, goal), ix);
    var s3, s4 := Schema(Columned(was, goal), ix), Schema(Throughs(was, goal), ix);
    CreatedLink(was, goal);
    DroppedLink(was, goal);
    ColumnedLink(was, goal);
    ThroughsLink(was, goal);
    ThroughsDroppedLink(was, goal);
    LinksAppend(u4, u5, s3, s4, Midway(was, goal));
    LinksAppend(u3, u4 + u5, s2, s3, Midway(was, goal));
    LinksAppend(u2, u3 + (u4 + u5), s1, s2, Midway(was, goal));
    LinksAppend(u1, u2 + (u3 + (u4 + u5)), Full(was), s1, Midway(was, goal));
  }

  lemma IndexesFit(was: State, goal: State)
    requires Comparable(was, goal) && NoIndexTouched(was, goal)
    ensures forall n :: n in was.indexes.at ==> Fits(was.indexes.at[n], Full(goal).tables)
    ensures forall n :: n in goal.indexes.at ==> Fits(goal.indexes.at[n], Full(goal).tables)
  {
    forall n | n in goal.indexes.at ensures Fits(goal.indexes.at[n], Full(goal).tables) {
      assert Fits(goal.indexes.at[n], Defined(goal));
    }
    forall n | n in was.indexes.at ensures Fits(was.indexes.at[n], Full(goal).tables) {
      assert Fits(was.indexes.at[n], Defined(was)) && !Touched(was.indexes.at[n], was, goal);
    }
  }

  lemma IndexesMeet(was: State, goal: State)
    requires Comparable(was, goal) && SharedNamesAgree(was, goal)
    ensures var wi, gi := was.indexes.at, goal.indexes.at;
      && Added(wi, Fresh(goal.indexes.keys, wi), gi, gi + wi) && Added(gi, Fresh(was.indexes.keys, gi), wi, gi + wi)
      && Distinct(goal.indexes.keys) && (forall x :: x in goal.indexes.keys <==> x in gi)
      && Distinct(was.indexes.keys) && (forall x :: x in was.indexes.keys <==> x in wi)
      && (forall x :: x in Fresh(goal.indexes.keys, wi) ==> x in gi)
      && (forall x :: x in Fresh(was.indexes.keys, gi) ==> x in wi)
  {
  }

  lemma IndexPhaseLinks(was: State, goal: State)
    requires Comparable(was, goal) && NoIndexTouched(was, goal) && SharedNamesAgree(was, goal)
    ensures Links(IndexPhase(was, goal), Midway(was, goal), Full(goal))
  {
    var wi, gi := was.indexes.at, goal.indexes.at;
    var mid := Schema(Full(goal).tables, gi + wi);
    IndexesFit(was, goal);
    IndexesMeet(was, goal);
    hide Comparable;
    hide NoIndexTouched;
    hide SharedNamesAgree;
    hide Fresh;
    hide Added;
    hide Fits;
    hide Links;
    IndexCreatesLink(goal.indexes.keys, wi, gi, Midway(was, goal), mid);
    IndexDropsLink(was.indexes.keys, wi, gi, mid, Full(goal));
    LinksAppend(IndexCreateUnits(goal.indexes.keys, wi, gi), IndexDropUnits(was.indexes.keys, wi, gi),
      Midway(was, goal), mid, Full(goal));
  }

  /** Main result: on the old schema the forward program succeeds and ends in the new one, and the
      reverse program leads back to the old one. */
  lemma DiffGoesThereAndBack(was: State, goal: State)
    requires Comparable(was, goal) && NoIndexTouched(was, goal) && SharedNamesAgree(was, goal)
    ensures Run(Forward(Diff(was, goal)), Full(was)) == Some(Full(goal))
    ensures Run(Reverse(Diff(was, goal)), Full(goal)) == Some(Full(was))
  {
    TablePhaseLinks(was, goal);
    IndexPhaseLinks(was, goal);
    LinksAppend(TablePhase(was, goal), IndexPhase(was, goal), Full(was), Midway(was, goal), Full(goal));
  }
}
