/** What the migration commands are for: after `makemigrations` and `migrate` the database is what the
    models say, and a second `makemigrations` has nothing to write. */
module MakingMigrations {
  import opened Basics
  import opened Schemas
  import opened Migrations
  import Effects = MigrationEffects
  import opened FileNames
  import opened Renames
  import opened MigrationHistory

  // ---------------------------------------------------------------- when there is nothing to do

  lemma {:induction false} NothingCreated(keys: seq<string>, was: map<string, Columns>, goal: map<string, Columns>)
    requires forall t :: t in keys && t in goal ==> t in was
    ensures CreateUnits(keys, was, goal) == []
  {
    if keys != [] {
      assert keys[0] in keys;
      NothingCreated(keys[1..], was, goal);
    }
  }

  lemma {:induction false} NothingDropped(keys: seq<string>, was: map<string, Columns>, goal: map<string, Columns>)
    requires forall t :: t in keys && t in was ==> t in goal
    ensures DropUnits(keys, was, goal) == []
  {
    if keys != [] {
      assert keys[0] in keys;
      NothingDropped(keys[1..], was, goal);
    }
  }

  lemma {:induction false} NoColumnAdded(t: string, keys: seq<string>, from: Dict<Column>, to: Dict<Column>)
    requires from.at == to.at
    ensures AddColumnUnits(t, keys, from, to) == [] && DropColumnUnits(t, keys, from, to) == []
  {
    if keys != [] { NoColumnAdded(t, keys[1..], from, to); }
  }

  lemma {:induction false} NothingAltered(keys: seq<string>, was: State, goal: State)
    requires forall t :: t in keys && t in was.tables.at && t in goal.tables.at ==>
      was.tables.at[t].coldefs.at == goal.tables.at[t].coldefs.at
    ensures ColumnUnits(keys, was, goal) == []
  {
    if keys != [] {
      var t := keys[0];
      assert t in keys;
      NothingAltered(keys[1..], was, goal);
      if t in was.tables.at && t in goal.tables.at {
        var a, b := was.tables.at[t].coldefs, goal.tables.at[t].coldefs;
        NoColumnAdded(t, b.keys, a, b);
        NoColumnAdded(t, a.keys, a, b);
      }
    }
  }

  lemma {:induction false} NoIndexCreated(keys: seq<string>, was: map<string, IndexDef>, goal: map<string, IndexDef>)
    requires forall n :: n in keys && n in goal ==> n in was
    ensures IndexCreateUnits(keys, was, goal) == []
  {
    if keys != [] {
      assert keys[0] in keys;
      NoIndexCreated(keys[1..], was, goal);
    }
  }

  lemma {:induction false} NoIndexDropped(keys: seq<string>, was: map<string, IndexDef>, goal: map<string, IndexDef>)
    requires forall n :: n in keys && n in was ==> n in goal
    ensures IndexDropUnits(keys, was, goal) == []
  {
    if keys != [] {
      assert keys[0] in keys;
      NoIndexDropped(keys[1..], was, goal);
    }
  }

  /** Two snapshots with the same names, and the same columns in their tables. */
  ghost predicate SameShape(was: State, goal: State) {
    && was.tables.at.Keys == goal.tables.at.Keys && was.through.at.Keys == goal.through.at.Keys
    && was.indexes.at.Keys == goal.indexes.at.Keys
    && forall t :: t in was.tables.at && t in goal.tables.at ==>
         was.tables.at[t].coldefs.at == goal.tables.at[t].coldefs.at
  }

  lemma SameShapeIsEmpty(was: State, goal: State)
    requires SameShape(was, goal)
    ensures Diff(was, goal) == []
  {
    assert forall t :: t in was.tables.at.Keys <==> t in goal.tables.at.Keys;
    assert forall t :: t in was.through.at.Keys <==> t in goal.through.at.Keys;
    assert forall n :: n in was.indexes.at.Keys <==> n in goal.indexes.at.Keys;
    NothingCreated(goal.tables.keys, Creates(was.tables), Creates(goal.tables));
    NothingDropped(was.tables.keys, Creates(was.tables), Creates(goal.tables));
    NothingAltered(goal.tables.keys, was, goal);
    NothingCreated(goal.through.keys, was.through.at, goal.through.at);
    NothingDropped(was.through.keys, was.through.at, goal.through.at);
    NoIndexCreated(goal.indexes.keys, was.indexes.at, goal.indexes.at);
    NoIndexDropped(was.indexes.keys, was.indexes.at, goal.indexes.at);
  }

  lemma AttainedNames(was: State, goal: State)
    ensures var b := Effects.Attained(was, goal);
      && b.tables == goal.tables && (forall t :: t in b.through.at <==> t in goal.through.at)
      && (forall n :: n in b.indexes.at ==> n in goal.indexes.at)
      && (forall n :: n in goal.indexes.at && n !in was.indexes.at ==> n in b.indexes.at)
  {
    hide Touched;
  }

  /** No name is a model table in one snapshot and a through table in either. */
  lemma KindsApart(was: State, goal: State)
    requires Comparable(was, goal)
    ensures forall t :: t in was.through.at || t in goal.through.at ==> t !in was.tables.at && t !in goal.tables.at
  {
    hide Fits;
    hide Rebuilt;
    hide IsState;
  }

  lemma FullNames(s: State)
    ensures Full(s).indexes == s.indexes.at
    ensures forall t :: t in Full(s).tables <==> t in s.tables.at || t in s.through.at
    ensures forall t :: t in s.tables.at && t !in s.through.at ==> Full(s).tables[t] == s.tables.at[t].coldefs.at
  {
  }

  /** A diff that runs and leads nowhere else is between snapshots of one shape. */
  lemma NowhereIsSameShape(was: State, goal: State)
    requires Comparable(was, goal) && Full(Effects.Attained(was, goal)) == Full(was)
    ensures SameShape(was, goal)
  {
    hide Comparable;
    hide Full;
    hide Effects.Attained;
    AttainedNames(was, goal);
    KindsApart(was, goal);
    FullNames(was);
    FullNames(Effects.Attained(was, goal));
  }

  /** A program is empty exactly when there are no renames and running it would neither fail nor lead
      anywhere. */
  lemma EmptyExactlyWhen(was: State, rs: seq<Rename>, goal: State)
    requires Writable(was, rs, goal)
    ensures Forward(Program(was, rs, goal)) == [] <==>
      rs == [] && !Effects.Blocked(was, goal) && Full(Effects.Attained(was, goal)) == Full(was)
  {
    if rs == [] {
      assert Program(was, rs, goal) == Diff(was, goal);
      Effects.DiffOutcome(was, goal);
      if !Effects.Blocked(was, goal) && Full(Effects.Attained(was, goal)) == Full(was) {
        NowhereIsSameShape(was, goal);
        SameShapeIsEmpty(was, goal);
      }
    } else {
      assert Program(was, rs, goal)[0].fwd == [RenameColumn(rs[0].table, rs[0].column, rs[0].to)];
    }
  }

  // ---------------------------------------------------------------- the file that is written

  /** Numbered worlds: what is recorded last, and room for one more file. */
  ghost predicate Ready(w: World) { AppliedPrefix(w) && |w.dir| < 9999 }

  function Recorded(w: World): State { StateAt(w.dir, |w.dir|) }

  /** A file recording the models is added, under the next number, unless there is nothing to do. */
  lemma FileWritten(w: World, title: string, rs: seq<Rename>, models: State)
    requires Ready(w) && Writable(Recorded(w), rs, models)
    ensures var was, next := Recorded(w), MakeMigrations(w, title, rs, models);
      if rs == [] && !Effects.Blocked(was, models) && Full(Effects.Attained(was, models)) == Full(was) then next == w
      else exists f ::
        && next == w.(dir := w.dir + [f]) && f.stem == Stem(|w.dir| + 1, title)
        && f.body == SchemaChange(Forward(Program(was, rs, models)), Reverse(Program(was, rs, models)), models)
  {
    ListingIsCreationOrder(w.dir);
    LastStateIs(w.dir, |w.dir|);
    var units := Program(Recorded(w), rs, models);
    EmptyExactlyWhen(Recorded(w), rs, models);
    if Forward(units) != [] {
      var f := File(Stem(|w.dir| + 1, title), SchemaChange(Forward(units), Reverse(units), models));
      assert MakeMigrations(w, title, rs, models) == w.(dir := w.dir + [f]);
    }
  }

  /** Without renames, where the diff leads to the models: a file is added exactly when the recorded snapshot
      describes another schema than the models. */
  lemma NothingToDo(w: World, title: string, models: State)
    requires Ready(w) && Writable(Recorded(w), [], models) && Works(Recorded(w), [], models)
    ensures MakeMigrations(w, title, [], models) == w <==> Full(Recorded(w)) == Full(models)
  {
    var was := Recorded(w);
    hide MakeMigrations;
    hide Program;
    hide Writable;
    hide Works;
    hide Full;
    hide Effects.Attained;
    hide Effects.Blocked;
    FileWritten(w, title, [], models);
    ProgramOutcome(was, [], models);
    ProgramWorksExactlyWhen(was, [], models);
  }

  // ---------------------------------------------------------------- and migrated

  lemma {:induction false} ReachAll(names: seq<string>, i: nat)
    requires i <= |names|
    ensures Reach(names, None, i) == |names|
    decreases |names| - i
  {
    if i < |names| { ReachAll(names, i + 1); }
  }

  /** Climbing through one more file. */
  lemma {:induction false} ClimbMore(dir: seq<File>, f: File, p: nat, s: Schema)
    requires p <= |dir|
    ensures var h, more := Climb(dir, p, s, |dir|, {}), Climb(dir + [f], p, s, |dir| + 1, {});
      if !h.ok then more == h
      else
        var next := if f.body.SchemaChange? then Run(f.body.forward, h.schema) else Some(h.schema);
        more == if next.None? then Height(|dir|, h.schema, false) else Height(|dir| + 1, next.value, true)
    decreases |dir| - p
  {
    if p < |dir| {
      var next := Up(dir, p, s, {});
      assert Up(dir + [f], p, s, {}) == next;
      if next.Some? { ClimbMore(dir, f, p + 1, next.value); }
    } else {
      assert (dir + [f])[p] == f;
    }
  }

  /** Migrating everything, from a world in step, with one more file at the end. */
  lemma MigrateOneMore(w: World, f: File)
    requires Ready(w) && InStep(w) && HasStem(f, |w.dir| + 1)
    ensures var r := Migrate(w.(dir := w.dir + [f]), None, {});
      if !AllAdvance(w.dir, |w.applied|, |w.dir|) then !r.ok
      else
        var now := SchemaAt(w.dir, |w.dir|);
        var next := if f.body.SchemaChange? then Run(f.body.forward, now) else Some(now);
        && r.ok == next.Some?
        && r.world == World(w.dir + [f], Names(w.dir + [f])[..|w.dir| + if r.ok then 1 else 0],
                            if r.ok then next.value else now)
  {
    var dir, p := w.dir + [f], |w.applied|;
    AddFile(w, f);
    MigrateAppliesUpToTarget(dir, p, w.schema, None, {});
    ReachAll(Names(dir), 0);
    ClimbMore(w.dir, f, p, w.schema);
    ClimbInStep(w.dir, p, |w.dir|, {});
    assert Names(dir)[..p] == Names(w.dir)[..p];
  }

  /** Migrating everything that was there. */
  lemma MigrateAll(w: World)
    requires Ready(w) && InStep(w)
    ensures var r := Migrate(w, None, {});
      if AllAdvance(w.dir, |w.applied|, |w.dir|) then
        r == Outcome(World(w.dir, Names(w.dir), SchemaAt(w.dir, |w.dir|)), r.names, true)
      else !r.ok
  {
    MigrateAppliesUpToTarget(w.dir, |w.applied|, w.schema, None, {});
    ReachAll(Names(w.dir), 0);
    ClimbInStep(w.dir, |w.applied|, |w.dir|, {});
    assert Names(w.dir)[..|w.dir|] == Names(w.dir);
  }

  /** Main result: `makemigrations` and then `migrate`, from a world in step whose files all advance, end
      where the program leads from the recorded schema, or stop at the new file exactly when the database
      rejects it. */
  lemma MakeThenMigrate(w: World, title: string, rs: seq<Rename>, models: State)
    requires Ready(w) && InStep(w) && Writable(Recorded(w), rs, models)
    ensures var was, r := Recorded(w), Migrate(MakeMigrations(w, title, rs, models), None, {});
      if !AllAdvance(w.dir, |w.applied|, |w.dir|) then !r.ok
      else if Halts(was, rs, models) then !r.ok && r.world.schema == Full(was) && |r.world.applied| == |w.dir|
      else
        && r.ok && r.world.applied == Names(r.world.dir)
        && r.world.schema == Full(Effects.Attained(CarriedAll(was, rs), models))
  {
    var was, made := Recorded(w), MakeMigrations(w, title, rs, models);
    hide Migrate;
    hide Program;
    hide MakeMigrations;
    hide Writable;
    hide InStep;
    hide Effects.Blocked;
    hide Effects.Attained;
    hide Full;
    FileWritten(w, title, rs, models);
    ProgramOutcome(was, rs, models);
    if made == w {
      MigrateAll(w);
    } else {
      var f :| made == w.(dir := w.dir + [f]) && f.stem == Stem(|w.dir| + 1, title) && f.body.SchemaChange?
               && f.body.forward == Forward(Program(was, rs, models));
      assert HasStem(f, |w.dir| + 1);
      MigrateOneMore(w, f);
      assert Names(w.dir + [f])[..|w.dir| + 1] == Names(w.dir + [f]);
    }
  }

  /** So a program that works takes the database to the models. */
  lemma ModelsReached(w: World, title: string, rs: seq<Rename>, models: State)
    requires Ready(w) && InStep(w) && Writable(Recorded(w), rs, models)
    requires AllAdvance(w.dir, |w.applied|, |w.dir|)
    ensures var r := Migrate(MakeMigrations(w, title, rs, models), None, {});
      r.ok && r.world.schema == Full(models) <==> Works(Recorded(w), rs, models)
  {
    var was := Recorded(w);
    hide Migrate;
    hide Program;
    hide MakeMigrations;
    hide Writable;
    hide InStep;
    hide Works;
    hide Halts;
    hide Effects.Attained;
    hide Full;
    MakeThenMigrate(w, title, rs, models);
    ProgramOutcome(was, rs, models);
    ProgramWorksExactlyWhen(was, rs, models);
  }

  /** A second `makemigrations` for the same models writes nothing, whatever the first one did. */
  lemma SecondTimeNothing(w: World, title: string, again: string, rs: seq<Rename>, models: State)
    requires Ready(w) && |w.dir| < 9998 && Writable(Recorded(w), rs, models)
    ensures var made := MakeMigrations(w, title, rs, models); MakeMigrations(made, again, [], models) == made
  {
    var made := MakeMigrations(w, title, rs, models);
    FileWritten(w, title, rs, models);
    if made == w {
      FileWritten(w, again, rs, models);
    } else {
      var f :| made == w.(dir := w.dir + [f]) && f.stem == Stem(|w.dir| + 1, title) && f.body.SchemaChange?
               && f.body.state == models;
      assert HasStem(f, |w.dir| + 1);
      AddFile(w, f);
      ListingIsCreationOrder(made.dir);
      LastStateIs(made.dir, |made.dir|);
      assert Recorded(made) == models;
      SameShapeIsEmpty(models, models);
    }
  }

  /** A data migration is one more file that leaves the schema alone. */
  lemma DataThenMigrate(w: World, title: string, reversible: bool)
    requires Ready(w) && InStep(w) && AllAdvance(w.dir, |w.applied|, |w.dir|)
    ensures var r := Migrate(MakeDataMigration(w, title, reversible), None, {});
      && r.ok && r.world.schema == SchemaAt(w.dir, |w.dir|) && |r.world.applied| == |w.dir| + 1
      && (var back := Rollback(r.world, 1, {});
          if reversible then back.ok && back.world.applied == Names(w.dir) && back.world.schema == r.world.schema
          else !back.ok && back.world == r.world)
  {
    ListingIsCreationOrder(w.dir);
    var f := File(Stem(|w.dir| + 1, title), DataChange(reversible));
    var dir, s := w.dir + [f], SchemaAt(w.dir, |w.dir|);
    assert HasStem(f, |w.dir| + 1);
    hide Migrate;
    hide Rollback;
    hide InStep;
    hide SchemaAt;
    MigrateOneMore(w, f);
    AddFile(w, f);
    assert Names(dir)[..|dir|] == Names(dir);
    DataUndone(w.dir, f, s);
  }

  lemma DataUndone(dir: seq<File>, f: File, s: Schema)
    requires Numbered(dir + [f]) && f.body.DataChange?
    ensures var back := Rollback(World(dir + [f], Names(dir + [f]), s), 1, {});
      if f.body.reversible then back.ok && back.world == World(dir + [f], Names(dir), s)
      else !back.ok && back.world == World(dir + [f], Names(dir + [f]), s)
  {
    var more := dir + [f];
    hide Rollback;
    hide Numbered;
    assert Names(more)[..|more|] == Names(more) && Names(more)[..|dir|] == Names(dir);
    assert more[|dir|] == f;
    RollbackUndoesLast(more, |more|, s, 1, {});
    assert Descend(more, |more|, s, |dir|, {}) ==
      if f.body.reversible then Height(|dir|, s, true) else Height(|more|, s, false);
  }

  // ---------------------------------------------------------------- targets

  /** The first `|t|` characters of the name are `t`. */
  predicate StartsWith(name: string, t: string) { |t| <= |name| && name[..|t|] == t }

  /** `migrate(t)` goes through the first name that starts with `t`, or through all of them. */
  lemma {:induction false} TargetMeans(names: seq<string>, t: string, i: nat)
    requires i <= |names|
    ensures var r := Reach(names, Some(t), i);
      && (forall j :: i <= j < r - 1 ==> !StartsWith(names[j], t))
      && (r > i ==> StartsWith(names[r - 1], t) || r == |names|)
    decreases |names| - i
  {
    if i < |names| && !Stops(Some(t), names[i]) { TargetMeans(names, t, i + 1); }
  }

  lemma StemStartsWith(n: nat, k: nat, title: string)
    requires n <= 9999 && k <= 9999
    ensures StartsWith(Stem(n, title), Padded(4, k)) <==> n == k
  {
    var name := Stem(n, title);
    hide Padded;
    FourDigits(n);
    FourDigits(k);
    assert name[..4] == Digits(4, n);
    if n < k { var d := DigitsDiffer(4, n, k); } else if k < n { var d := DigitsDiffer(4, k, n); }
  }

  /** So a file's number is a target: it stops at that file and at no other. */
  lemma NumberIsTarget(dir: seq<File>, k: nat)
    requires Numbered(dir) && 1 <= k <= |dir|
    ensures Reach(Names(dir), Some(Padded(4, k)), 0) == k
  {
    var t, names := Padded(4, k), Names(dir);
    var r := Reach(names, Some(t), 0);
    hide StartsWith;
    hide Padded;
    forall j | 0 <= j < |dir| ensures StartsWith(names[j], t) <==> j + 1 == k {
      assert HasNumber(dir, j);
      var title :| dir[j].stem == Stem(j + 1, title);
      StemStartsWith(j + 1, k, title);
    }
    TargetMeans(names, t, 0);
    assert StartsWith(names[k - 1], t);
  }
}
