/** `Migrator` as it runs: it reads the directory, writes files, and changes the database in loops. */
module Migrator {
  import opened Basics
  import opened Schemas
  import opened Migrations
  import opened FileNames
  import opened StringOrder
  import opened Renames
  import opened MigrationHistory
  import SchemaDiff

  lemma RenamedIsState(s: State, r: Rename)
    requires IsState(s)
    ensures IsState(Renamed(s, r))
  {
    if r.table in s.tables.at && r.column in s.tables.at[r.table].coldefs.at {
      DroppingKeeps(s.tables.at[r.table].coldefs.keys, r.column);
    }
  }

  /** The rename statements: appended to one program, inserted at the front of the other. */
  method Respell(was: State, renames: seq<Rename>) returns (renamed: State, forward: seq<Ddl>, reverse: seq<Ddl>)
    requires IsState(was)
    ensures IsState(renamed) && renamed == RenamedAll(was, renames)
    ensures forward == Forward(RenameUnits(renames)) && reverse == Reverse(RenameUnits(renames))
  {
    renamed, forward, reverse := was, [], [];
    assert renames[0..] == renames;
    for i := 0 to |renames|
      invariant IsState(renamed) && RenamedAll(renamed, renames[i..]) == RenamedAll(was, renames)
      invariant SchemaDiff.Pending(forward, reverse, RenameUnits(renames[i..]), RenameUnits(renames))
    {
      var r := renames[i];
      assert renames[i..][0] == r && renames[i..][1..] == renames[i + 1..];
      RenamedIsState(renamed, r);
      SchemaDiff.PendingNext(forward, reverse, RenameUnits(renames[i..])[0], RenameUnits(renames[i + 1..]),
        RenameUnits(renames));
      renamed := Renamed(renamed, r);
      forward := forward + [RenameColumn(r.table, r.column, r.to)];
      reverse := [RenameColumn(r.table, r.to, r.column)] + reverse;
    }
    SchemaDiff.PendingDone(forward, reverse, RenameUnits(renames));
  }

  /** Renames first, then the diff; undone in the opposite order. */
  method Generate(was: State, renames: seq<Rename>, models: State) returns (forward: seq<Ddl>, reverse: seq<Ddl>)
    requires IsState(was) && IsState(models)
    ensures forward == Forward(Program(was, renames, models)) && reverse == Reverse(Program(was, renames, models))
  {
    var renamed, f, r := Respell(was, renames);
    var forth, back := SchemaDiff.DiffState(renamed, models);
    ProgramsAppend(RenameUnits(renames), Diff(renamed, models));
    forward, reverse := f + forth, back + r;
  }

  /** `rest`, after the names of `done`, is the whole outcome. */
  ghost predicate Continues(whole: Outcome, done: seq<string>, rest: Outcome) {
    whole.world == rest.world && whole.ok == rest.ok && whole.names == done + rest.names
  }

  lemma MigrateStep(whole: Outcome, done: seq<string>, w: World, names: seq<string>, start: seq<string>,
                    target: Option<string>, crash: set<string>, i: nat)
    requires i < |names| && Continues(whole, done, MigrateFrom(w, names, start, target, crash, i))
    ensures var n := names[i]; var next := if n in start then Some(w) else Apply(w, n, crash);
      var so := if n in start then done else done + [n];
      if next.None? then whole == Outcome(w, done, false)
      else if Stops(target, n) then whole == Outcome(next.value, so, true)
      else Continues(whole, so, MigrateFrom(next.value, names, start, target, crash, i + 1))
  {
  }

  class Migrator {
    var dir: seq<File>
    var applied: seq<string>
    var schema: Schema

    constructor ()
      ensures Now() == World([], [], Schema(map[], map[]))
    {
      dir, applied, schema := [], [], Schema(map[], map[]);
    }

    function Now(): World reads this { World(dir, applied, schema) }

    /** `_last_state`: the files backwards, to the first that records a state. */
    method LastRecorded(names: seq<string>) returns (state: State)
      ensures state == LastState(dir, names, |names|)
    {
      var i: nat := |names|;
      while i > 0
        invariant i <= |names| && LastState(dir, names, |names|) == LastState(dir, names, i)
      {
        var f := Lookup(dir, names[i - 1]);
        if f.Some? && f.value.body.SchemaChange? { return f.value.body.state; }
        i := i - 1;
      }
      state := EmptyState();
    }

    /** `makemigrations(name, renames)` with the models' snapshot. */
    method MakeMigrations(title: string, renames: seq<Rename>, models: State) returns (file: Option<string>)
      requires IsState(models) && IsState(LastState(dir, Listing(dir), |Listing(dir)|))
      modifies this`dir
      ensures Now() == MigrationHistory.MakeMigrations(old(Now()), title, renames, models)
      ensures file.None? <==> dir == old(dir)
      ensures file.Some? ==> dir[|dir| - 1].stem == file.value
    {
      hide Program;
      hide Forward;
      hide Reverse;
      hide LastState;
      hide Listing;
      hide Stem;
      var names := Listing(dir);
      var was := LastRecorded(names);
      var forward, reverse := Generate(was, renames, models);
      if forward == [] { return None; }
      var stem := Stem(|names| + 1, title);
      dir := dir + [File(stem, SchemaChange(forward, reverse, models))];
      file := Some(stem);
    }

    method MakeDataMigration(title: string, reversible: bool) returns (stem: string)
      modifies this`dir
      ensures Now() == MigrationHistory.MakeDataMigration(old(Now()), title, reversible) && dir[|dir| - 1].stem == stem
    {
      stem := Stem(|Listing(dir)| + 1, title);
      dir := dir + [File(stem, DataChange(reversible))];
    }

    /** The statements of one file in one transaction: all of them, or none. */
    method Execute(ops: seq<Ddl>) returns (ok: bool)
      modifies this`schema
      ensures ok == Run(ops, old(schema)).Some?
      ensures schema == if ok then Run(ops, old(schema)).value else old(schema)
    {
      var working := schema;
      assert ops[0..] == ops;
      for i := 0 to |ops|
        invariant schema == old(schema) && Run(ops[i..], working) == Run(ops, schema)
      {
        assert ops[i..][0] == ops[i] && ops[i..][1..] == ops[i + 1..];
        var next := Step(ops[i], working);
        if next.None? { return false; }
        working := next.value;
      }
      schema := working;
      ok := true;
    }

    method ApplyFile(name: string, crash: set<string>) returns (ok: bool)
      modifies this`schema, this`applied
      ensures dir == old(dir)
      ensures var r := Apply(old(Now()), name, crash); ok == r.Some? && Now() == if ok then r.value else old(Now())
    {
      var f := Lookup(dir, name);
      if f.None? || name in crash { return false; }
      ok := true;
      if f.value.body.SchemaChange? { ok := Execute(f.value.body.forward); }
      if ok { applied := applied + [name]; }
    }

    method UndoFile(name: string, crash: set<string>) returns (ok: bool)
      modifies this`schema, this`applied
      ensures dir == old(dir)
      ensures var r := Undo(old(Now()), name, crash); ok == r.Some? && Now() == if ok then r.value else old(Now())
    {
      var f := Lookup(dir, name);
      if f.None? || name in crash { return false; }
      ok := f.value.body.SchemaChange? || f.value.body.reversible;
      if f.value.body.SchemaChange? { ok := Execute(f.value.body.reverse); }
      if ok { applied := Dropping(applied, name); }
    }

    /** `migrate(target)`; `ok` is false when a migration raised. */
    method Migrate(target: Option<string>, crash: set<string>) returns (done: seq<string>, ok: bool)
      modifies this`schema, this`applied
      ensures Outcome(Now(), done, ok) == MigrationHistory.Migrate(old(Now()), target, crash)
    {
      var names, start := Listing(dir), Sorted(applied);
      ghost var whole := MigrationHistory.Migrate(Now(), target, crash);
      done := [];
      for i := 0 to |names|
        invariant dir == old(dir)
        invariant Continues(whole, done, MigrateFrom(Now(), names, start, target, crash, i))
      {
        var n := names[i];
        MigrateStep(whole, done, Now(), names, start, target, crash, i);
        if n !in start {
          var applies := ApplyFile(n, crash);
          if !applies { return done, false; }
          done := done + [n];
        }
        if Stops(target, n) { return done, true; }
      }
      ok := true;
    }

    /** `rollback(steps)`. */
    method Rollback(steps: int, crash: set<string>) returns (reverted: seq<string>, ok: bool)
      modifies this`schema, this`applied
      ensures Outcome(Now(), reverted, ok) == MigrationHistory.Rollback(old(Now()), steps, crash)
    {
      var targets := RollbackTargets(Sorted(applied), steps);
      ghost var whole := MigrationHistory.Rollback(Now(), steps, crash);
      reverted := [];
      for i := 0 to |targets|
        invariant dir == old(dir)
        invariant Continues(whole, reverted, RollbackFrom(Now(), targets, crash, i))
      {
        var undone := UndoFile(targets[i], crash);
        if !undone { return reverted, false; }
        reverted := reverted + [targets[i]];
      }
      ok := true;
    }
  }
}
