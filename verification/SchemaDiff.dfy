/** `diff_state` as it runs: loops that append to one program and insert at the front of the other. */
module SchemaDiff {
  import opened Schemas
  import opened Migrations

  /** What is written so far, with the changes still to come, makes the two programs. */
  ghost predicate Pending(forward: seq<Ddl>, reverse: seq<Ddl>, left: seq<Unit>, whole: seq<Unit>) {
    forward + Forward(left) == Forward(whole) && Reverse(left) + reverse == Reverse(whole)
  }

  lemma PendingStarts(done: seq<Unit>, left: seq<Unit>)
    ensures Pending(Forward(done), Reverse(done), left, done + left)
  {
    ProgramsAppend(done, left);
  }

  /** One more change: its statements go to the end of one program and to the front of the other. */
  lemma PendingNext(forward: seq<Ddl>, reverse: seq<Ddl>, u: Unit, left: seq<Unit>, whole: seq<Unit>)
    requires Pending(forward, reverse, [u] + left, whole)
    ensures Pending(forward + u.fwd, u.rev + reverse, left, whole)
  {
    assert ([u] + left)[1..] == left;
    assert (forward + u.fwd) + Forward(left) == forward + Forward([u] + left);
    assert Reverse(left) + (u.rev + reverse) == Reverse([u] + left) + reverse;
  }

  lemma PendingDone(forward: seq<Ddl>, reverse: seq<Ddl>, whole: seq<Unit>)
    requires Pending(forward, reverse, [], whole)
    ensures forward == Forward(whole) && reverse == Reverse(whole)
  {
    assert forward + [] == forward && [] + reverse == reverse;
  }

  method Creating(f: seq<Ddl>, r: seq<Ddl>, keys: seq<string>, was: map<string, Columns>, goal: map<string, Columns>,
                  ghost done: seq<Unit>)
    returns (forward: seq<Ddl>, reverse: seq<Ddl>)
    requires (forall t :: t in keys ==> t in goal) && f == Forward(done) && r == Reverse(done)
    ensures forward == Forward(done + CreateUnits(keys, was, goal)) &&
      reverse == Reverse(done + CreateUnits(keys, was, goal))
  {
    ghost var whole := done + CreateUnits(keys, was, goal);
    forward, reverse := f, r;
    PendingStarts(done, CreateUnits(keys, was, goal));
    assert keys[0..] == keys;
    for i := 0 to |keys|
      invariant Pending(forward, reverse, CreateUnits(keys[i..], was, goal), whole)
    {
      var t := keys[i];
      assert keys[i..][0] == t && keys[i..][1..] == keys[i + 1..];
      if t !in was {
        PendingNext(forward, reverse, Unit([CreateTable(t, goal[t])], [DropTable(t)]),
          CreateUnits(keys[i + 1..], was, goal), whole);
        forward := forward + [CreateTable(t, goal[t])];
        reverse := [DropTable(t)] + reverse;
      } else {
        assert CreateUnits(keys[i..], was, goal) == CreateUnits(keys[i + 1..], was, goal);
      }
    }
    PendingDone(forward, reverse, whole);
  }

  method Dropping(f: seq<Ddl>, r: seq<Ddl>, keys: seq<string>, was: map<string, Columns>, goal: map<string, Columns>,
                  ghost done: seq<Unit>)
    returns (forward: seq<Ddl>, reverse: seq<Ddl>)
    requires (forall t :: t in keys ==> t in was) && f == Forward(done) && r == Reverse(done)
    ensures forward == Forward(done + DropUnits(keys, was, goal)) &&
      reverse == Reverse(done + DropUnits(keys, was, goal))
  {
    ghost var whole := done + DropUnits(keys, was, goal);
    forward, reverse := f, r;
    PendingStarts(done, DropUnits(keys, was, goal));
    assert keys[0..] == keys;
    for i := 0 to |keys|
      invariant Pending(forward, reverse, DropUnits(keys[i..], was, goal), whole)
    {
      var t := keys[i];
      assert keys[i..][0] == t && keys[i..][1..] == keys[i + 1..];
      if t !in goal {
        PendingNext(forward, reverse, Unit([DropTable(t)], [CreateTable(t, was[t])]),
          DropUnits(keys[i + 1..], was, goal), whole);
        forward := forward + [DropTable(t)];
        reverse := [CreateTable(t, was[t])] + reverse;
      } else {
        assert DropUnits(keys[i..], was, goal) == DropUnits(keys[i + 1..], was, goal);
      }
    }
    PendingDone(forward, reverse, whole);
  }

  method AddingColumns(f: seq<Ddl>, r: seq<Ddl>, t: string, keys: seq<string>, from: Dict<Column>, to: Dict<Column>,
                       ghost done: seq<Unit>)
    returns (forward: seq<Ddl>, reverse: seq<Ddl>)
    requires (forall c :: c in keys ==> c in to.at) && f == Forward(done) && r == Reverse(done)
    ensures forward == Forward(done + AddColumnUnits(t, keys, from, to)) &&
      reverse == Reverse(done + AddColumnUnits(t, keys, from, to))
  {
    ghost var whole := done + AddColumnUnits(t, keys, from, to);
    forward, reverse := f, r;
    PendingStarts(done, AddColumnUnits(t, keys, from, to));
    assert keys[0..] == keys;
    for i := 0 to |keys|
      invariant Pending(forward, reverse, AddColumnUnits(t, keys[i..], from, to), whole)
    {
      var c := keys[i];
      assert keys[i..][0] == c && keys[i..][1..] == keys[i + 1..];
      if c !in from.at {
        PendingNext(forward, reverse, Unit([AddColumn(t, c, to.at[c])], [DropColumn(t, c)]),
          AddColumnUnits(t, keys[i + 1..], from, to), whole);
        forward := forward + [AddColumn(t, c, to.at[c])];
        reverse := [DropColumn(t, c)] + reverse;
      } else {
        assert AddColumnUnits(t, keys[i..], from, to) == AddColumnUnits(t, keys[i + 1..], from, to);
      }
    }
    PendingDone(forward, reverse, whole);
  }

  method DroppingColumns(f: seq<Ddl>, r: seq<Ddl>, t: string, keys: seq<string>, from: Dict<Column>, to: Dict<Column>,
                         ghost done: seq<Unit>)
    returns (forward: seq<Ddl>, reverse: seq<Ddl>)
    requires (forall c :: c in keys ==> c in from.at) && f == Forward(done) && r == Reverse(done)
    ensures forward == Forward(done + DropColumnUnits(t, keys, from, to)) &&
      reverse == Reverse(done + DropColumnUnits(t, keys, from, to))
  {
    ghost var whole := done + DropColumnUnits(t, keys, from, to);
    forward, reverse := f, r;
    PendingStarts(done, DropColumnUnits(t, keys, from, to));
    assert keys[0..] == keys;
    for i := 0 to |keys|
      invariant Pending(forward, reverse, DropColumnUnits(t, keys[i..], from, to), whole)
    {
      var c := keys[i];
      assert keys[i..][0] == c && keys[i..][1..] == keys[i + 1..];
      if c !in to.at {
        PendingNext(forward, reverse, Unit([DropColumn(t, c)], [AddColumn(t, c, from.at[c])]),
          DropColumnUnits(t, keys[i + 1..], from, to), whole);
        forward := forward + [DropColumn(t, c)];
        reverse := [AddColumn(t, c, from.at[c])] + reverse;
      } else {
        assert DropColumnUnits(t, keys[i..], from, to) == DropColumnUnits(t, keys[i + 1..], from, to);
      }
    }
    PendingDone(forward, reverse, whole);
  }

  /** The changes of one surviving table: rebuild it, or add and drop columns. */
  method ChangingTable(f: seq<Ddl>, r: seq<Ddl>, t: string, was: TableDef, goal: TableDef, ghost done: seq<Unit>)
    returns (forward: seq<Ddl>, reverse: seq<Ddl>)
    requires IsDict(was.coldefs) && IsDict(goal.coldefs) && f == Forward(done) && r == Reverse(done)
    ensures forward == Forward(done + TableUnits(t, was, goal)) && reverse == Reverse(done + TableUnits(t, was, goal))
  {
    if Altered(was.coldefs, goal.coldefs) {
      ghost var u := TableUnits(t, was, goal)[0];
      forward := f + Rebuild(t, goal.create, was.coldefs, goal.coldefs);
      reverse := Rebuild(t, was.create, goal.coldefs, was.coldefs) + r;
      PendingStarts(done, [u]);
      assert [u] + [] == [u];
      PendingNext(f, r, u, [], done + [u]);
      PendingDone(forward, reverse, done + [u]);
    } else {
      ghost var added := done + AddColumnUnits(t, goal.coldefs.keys, was.coldefs, goal.coldefs);
      forward, reverse := AddingColumns(f, r, t, goal.coldefs.keys, was.coldefs, goal.coldefs, done);
      forward, reverse := DroppingColumns(forward, reverse, t, was.coldefs.keys, was.coldefs, goal.coldefs, added);
      assert added + DropColumnUnits(t, was.coldefs.keys, was.coldefs, goal.coldefs) == done + TableUnits(t, was, goal);
    }
  }

  lemma NextTable(so: seq<Unit>, keys: seq<string>, i: nat, was: State, goal: State)
    requires i < |keys| && keys[i] in goal.tables.at
    ensures so + ColumnUnits(keys[i..], was, goal) ==
      (if keys[i] in was.tables.at then
         so + TableUnits(keys[i], was.tables.at[keys[i]], goal.tables.at[keys[i]])
       else so)
        + ColumnUnits(keys[i + 1..], was, goal)
  {
    hide TableUnits;
    assert keys[i..][0] == keys[i] && keys[i..][1..] == keys[i + 1..];
  }

  method ChangingTables(f: seq<Ddl>, r: seq<Ddl>, was: State, goal: State, ghost done: seq<Unit>)
    returns (forward: seq<Ddl>, reverse: seq<Ddl>)
    requires IsState(was) && IsState(goal) && f == Forward(done) && r == Reverse(done)
    ensures forward == Forward(done + ColumnUnits(goal.tables.keys, was, goal))
    ensures reverse == Reverse(done + ColumnUnits(goal.tables.keys, was, goal))
  {
    var keys := goal.tables.keys;
    ghost var whole, so := done + ColumnUnits(keys, was, goal), done;
    forward, reverse := f, r;
    assert keys[0..] == keys;
    for i := 0 to |keys|
      invariant forward == Forward(so) && reverse == Reverse(so) && so + ColumnUnits(keys[i..], was, goal) == whole
    {
      var t := keys[i];
      assert t in keys;
      NextTable(so, keys, i, was, goal);
      if t in was.tables.at {
        forward, reverse := ChangingTable(forward, reverse, t, was.tables.at[t], goal.tables.at[t], so);
        so := so + TableUnits(t, was.tables.at[t], goal.tables.at[t]);
      }
    }
    assert so + [] == so;
  }

  method CreatingIndexes(f: seq<Ddl>, r: seq<Ddl>, keys: seq<string>, was: map<string, IndexDef>,
                         goal: map<string, IndexDef>, ghost done: seq<Unit>)
    returns (forward: seq<Ddl>, reverse: seq<Ddl>)
    requires (forall n :: n in keys ==> n in goal) && f == Forward(done) && r == Reverse(done)
    ensures forward == Forward(done + IndexCreateUnits(keys, was, goal)) &&
      reverse == Reverse(done + IndexCreateUnits(keys, was, goal))
  {
    ghost var whole := done + IndexCreateUnits(keys, was, goal);
    forward, reverse := f, r;
    PendingStarts(done, IndexCreateUnits(keys, was, goal));
    assert keys[0..] == keys;
    for i := 0 to |keys|
      invariant Pending(forward, reverse, IndexCreateUnits(keys[i..], was, goal), whole)
    {
      var n := keys[i];
      assert keys[i..][0] == n && keys[i..][1..] == keys[i + 1..];
      if n !in was {
        PendingNext(forward, reverse, Unit([CreateIndex(n, goal[n])], [DropIndex(n)]),
          IndexCreateUnits(keys[i + 1..], was, goal), whole);
        forward := forward + [CreateIndex(n, goal[n])];
        reverse := [DropIndex(n)] + reverse;
      } else {
        assert IndexCreateUnits(keys[i..], was, goal) == IndexCreateUnits(keys[i + 1..], was, goal);
      }
    }
    PendingDone(forward, reverse, whole);
  }

  method DroppingIndexes(f: seq<Ddl>, r: seq<Ddl>, keys: seq<string>, was: map<string, IndexDef>,
                         goal: map<string, IndexDef>, ghost done: seq<Unit>)
    returns (forward: seq<Ddl>, reverse: seq<Ddl>)
    requires (forall n :: n in keys ==> n in was) && f == Forward(done) && r == Reverse(done)
    ensures forward == Forward(done + IndexDropUnits(keys, was, goal)) &&
      reverse == Reverse(done + IndexDropUnits(keys, was, goal))
  {
    ghost var whole := done + IndexDropUnits(keys, was, goal);
    forward, reverse := f, r;
    PendingStarts(done, IndexDropUnits(keys, was, goal));
    assert keys[0..] == keys;
    for i := 0 to |keys|
      invariant Pending(forward, reverse, IndexDropUnits(keys[i..], was, goal), whole)
    {
      var n := keys[i];
      assert keys[i..][0] == n && keys[i..][1..] == keys[i + 1..];
      if n !in goal {
        PendingNext(forward, reverse, Unit([DropIndex(n)], [CreateIndex(n, was[n])]),
          IndexDropUnits(keys[i + 1..], was, goal), whole);
        forward := forward + [DropIndex(n)];
        reverse := [CreateIndex(n, was[n])] + reverse;
      } else {
        assert IndexDropUnits(keys[i..], was, goal) == IndexDropUnits(keys[i + 1..], was, goal);
      }
    }
    PendingDone(forward, reverse, whole);
  }

  /** The loops over tables, in the order of `diff_state`. */
  method DiffTables(was: State, goal: State) returns (forward: seq<Ddl>, reverse: seq<Ddl>)
    requires IsState(was) && IsState(goal)
    ensures forward == Forward(TablePhase(was, goal)) && reverse == Reverse(TablePhase(was, goal))
  {
    var wc, gc := Creates(was.tables), Creates(goal.tables);
    ghost var done: seq<Unit> := [];
    forward, reverse := Creating([], [], goal.tables.keys, wc, gc, done);
    done := done + CreateUnits(goal.tables.keys, wc, gc);
    forward, reverse := Dropping(forward, reverse, was.tables.keys, wc, gc, done);
    done := done + DropUnits(was.tables.keys, wc, gc);
    forward, reverse := ChangingTables(forward, reverse, was, goal, done);
    done := done + ColumnUnits(goal.tables.keys, was, goal);
    forward, reverse := Creating(forward, reverse, goal.through.keys, was.through.at, goal.through.at, done);
    done := done + CreateUnits(goal.through.keys, was.through.at, goal.through.at);
    forward, reverse := Dropping(forward, reverse, was.through.keys, was.through.at, goal.through.at, done);
    Regroup(CreateUnits(goal.tables.keys, wc, gc), DropUnits(was.tables.keys, wc, gc),
            ColumnUnits(goal.tables.keys, was, goal),
            CreateUnits(goal.through.keys, was.through.at, goal.through.at),
            DropUnits(was.through.keys, was.through.at, goal.through.at));
  }

  lemma Regroup(a: seq<Unit>, b: seq<Unit>, c: seq<Unit>, d: seq<Unit>, e: seq<Unit>)
    ensures [] + a + b + c + d + e == a + (b + (c + (d + e)))
  {
  }

  /** `diff_state`. */
  method DiffState(was: State, goal: State) returns (forward: seq<Ddl>, reverse: seq<Ddl>)
    requires IsState(was) && IsState(goal)
    ensures forward == Forward(Diff(was, goal)) && reverse == Reverse(Diff(was, goal))
  {
    hide TablePhase;
    hide Forward;
    hide Reverse;
    hide IndexCreateUnits;
    hide IndexDropUnits;
    ghost var tables := TablePhase(was, goal);
    ghost var created := IndexCreateUnits(goal.indexes.keys, was.indexes.at, goal.indexes.at);
    forward, reverse := DiffTables(was, goal);
    forward, reverse := CreatingIndexes(forward, reverse, goal.indexes.keys, was.indexes.at, goal.indexes.at, tables);
    forward, reverse := DroppingIndexes(forward, reverse, was.indexes.keys, was.indexes.at, goal.indexes.at,
      tables + created);
    assert (tables + created) + IndexDropUnits(was.indexes.keys, was.indexes.at, goal.indexes.at) == Diff(was, goal);
  }
}
