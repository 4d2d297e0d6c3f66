/** The applied-history machine: numbered files, the applied table, migrate and rollback. */
module MigrationHistory {
  import opened Basics
  import opened Schemas
  import opened Migrations
  import opened FileNames
  import opened StringOrder
  import opened Renames
  import opened RenameUndoing

  // ---------------------------------------------------------------- files and commands

  datatype Body =
    | SchemaChange(forward: seq<Ddl>, reverse: seq<Ddl>, state: State)
    | DataChange(reversible: bool)   // Python functions over rows; they leave the schema alone

  datatype File = File(stem: string, body: Body)

  function Names(dir: seq<File>): (names: seq<string>)
    ensures |names| == |dir| && forall i :: 0 <= i < |dir| ==> names[i] == dir[i].stem
  {
    seq(|dir|, i requires 0 <= i < |dir| => dir[i].stem)
  }

  /** The files in the order they were written, the rows of the applied table, and the schema. */
  datatype World = World(dir: seq<File>, applied: seq<string>, schema: Schema)

  function EmptyState(): State { State(Dict([], map[]), Dict([], map[]), Dict([], map[])) }

  /** `_files`. */
  function Listing(dir: seq<File>): seq<string> { Sorted(Names(dir)) }

  function Lookup(dir: seq<File>, name: string): Option<File> {
    if dir == [] then None else if dir[0].stem == name then Some(dir[0]) else Lookup(dir[1..], name)
  }

  /** `_last_state`: walk back over the first `p` names to a schema file. */
  function LastState(dir: seq<File>, names: seq<string>, p: nat): State
    requires p <= |names|
  {
    if p == 0 then EmptyState() else
    var f := Lookup(dir, names[p - 1]);
    if f.Some? && f.value.body.SchemaChange? then f.value.body.state else LastState(dir, names, p - 1)
  }

  function MakeMigrations(w: World, title: string, rs: seq<Rename>, models: State): World {
    var names := Listing(w.dir);
    var units := Program(LastState(w.dir, names, |names|), rs, models);
    if Forward(units) == [] then w
    else w.(dir := w.dir + [File(Stem(|names| + 1, title), SchemaChange(Forward(units), Reverse(units), models))])
  }

  function MakeDataMigration(w: World, title: string, reversible: bool): World {
    w.(dir := w.dir + [File(Stem(|Listing(w.dir)| + 1, title), DataChange(reversible))])
  }

  /** One migration in its own transaction; `None` when it raises and is rolled back. */
  function Apply(w: World, name: string, crash: set<string>): Option<World> {
    var f := Lookup(w.dir, name);
    if f.None? || name in crash then None else
    var s := if f.value.body.SchemaChange? then Run(f.value.body.forward, w.schema) else Some(w.schema);
    if s.None? then None else Some(w.(schema := s.value, applied := w.applied + [name]))
  }

  function Undo(w: World, name: string, crash: set<string>): Option<World> {
    var f := Lookup(w.dir, name);
    if f.None? || name in crash || (f.value.body.DataChange? && !f.value.body.reversible) then None else
    var s := if f.value.body.SchemaChange? then Run(f.value.body.reverse, w.schema) else Some(w.schema);
    if s.None? then None else Some(w.(schema := s.value, applied := Dropping(w.applied, name)))
  }

  /** How a command ended: the world it left, the names it reports, and whether it finished. */
  datatype Outcome = Outcome(world: World, names: seq<string>, ok: bool)

  predicate Stops(target: Option<string>, name: string) { target.Some? && target.value <= name }

  function MigrateFrom(w: World, names: seq<string>, start: seq<string>, target: Option<string>, crash: set<string>,
                       i: nat): Outcome
    requires i <= |names|
    decreases |names| - i
  {
    if i == |names| then Outcome(w, [], true) else
    var n := names[i];
    var next := if n in start then Some(w) else Apply(w, n, crash);
    if next.None? then Outcome(w, [], false) else
    var here := if n in start then [] else [n];
    if Stops(target, n) then Outcome(next.value, here, true) else
    var rest := MigrateFrom(next.value, names, start, target, crash, i + 1);
    rest.(names := here + rest.names)
  }

  function Migrate(w: World, target: Option<string>, crash: set<string>): Outcome {
    MigrateFrom(w, Listing(w.dir), Sorted(w.applied), target, crash, 0)
  }

  function Reversed(s: seq<string>): seq<string> { seq(|s|, i requires 0 <= i < |s| => s[|s| - 1 - i]) }

  /** `list(reversed(applied[-steps:])) if steps > 0 else []`. */
  function RollbackTargets(applied: seq<string>, steps: int): seq<string> {
    if steps <= 0 then [] else if steps >= |applied| then Reversed(applied) else Reversed(applied[|applied| - steps..])
  }

  function RollbackFrom(w: World, targets: seq<string>, crash: set<string>, i: nat): Outcome
    requires i <= |targets|
    decreases |targets| - i
  {
    if i == |targets| then Outcome(w, [], true) else
    var next := Undo(w, targets[i], crash);
    if next.None? then Outcome(w, [], false) else
    var rest := RollbackFrom(next.value, targets, crash, i + 1);
    rest.(names := [targets[i]] + rest.names)
  }

  function Rollback(w: World, steps: int, crash: set<string>): Outcome {
    RollbackFrom(w, RollbackTargets(Sorted(w.applied), steps), crash, 0)
  }

  // ---------------------------------------------------------------- names and positions

  /** The state recorded by the last schema file among the first `p`. */
  function StateAt(dir: seq<File>, p: nat): State
    requires p <= |dir|
  {
    if p == 0 then EmptyState()
    else if dir[p - 1].body.SchemaChange? then dir[p - 1].body.state
    else StateAt(dir, p - 1)
  }

  /** Files are numbered from one, and there are at most 9999 of them. */
  ghost predicate Numbered(dir: seq<File>) {
    |dir| <= 9999 && forall i :: 0 <= i < |dir| ==> HasNumber(dir, i)
  }

  ghost predicate HasNumber(dir: seq<File>, i: nat)
    requires i < |dir|
  {
    HasStem(dir[i], i + 1)
  }

  ghost predicate HasStem(f: File, n: nat) { exists title :: f.stem == Stem(n, title) }

  lemma NamesAscend(dir: seq<File>)
    requires Numbered(dir)
    ensures Ascending(Names(dir)) && Distinct(Names(dir))
  {
    var names := Names(dir);
    forall i, j | 0 <= i < j < |names| ensures Before(names[i], names[j]) && names[i] != names[j] {
      assert HasNumber(dir, i) && HasNumber(dir, j);
      var a :| dir[i].stem == Stem(i + 1, a);
      var b :| dir[j].stem == Stem(j + 1, b);
      NamesInOrder(i + 1, j + 1, a, b);
      BeforeIsStrict(dir[i].stem, dir[j].stem);
    }
  }

  /** Numbered files are listed in the order they were written. */
  lemma ListingIsCreationOrder(dir: seq<File>)
    requires Numbered(dir)
    ensures Listing(dir) == Names(dir)
  {
    NamesAscend(dir);
    SortedAscending(Names(dir));
  }

  lemma AppliedIsSorted(dir: seq<File>, p: nat)
    requires Numbered(dir) && p <= |dir|
    ensures Sorted(Names(dir)[..p]) == Names(dir)[..p]
  {
    NamesAscend(dir);
    SortedAscending(Names(dir)[..p]);
  }

  lemma {:induction false} LookupAt(dir: seq<File>, i: nat)
    requires i < |dir| && forall j :: 0 <= j < i ==> dir[j].stem != dir[i].stem
    ensures Lookup(dir, dir[i].stem) == Some(dir[i])
  {
    if i > 0 {
      assert dir[0].stem != dir[i].stem;
      LookupAt(dir[1..], i - 1);
    }
  }

  /** Each name finds its file. */
  lemma LookupFinds(dir: seq<File>, i: nat)
    requires Numbered(dir) && i < |dir|
    ensures Lookup(dir, Names(dir)[i]) == Some(dir[i])
  {
    NamesAscend(dir);
    forall j | 0 <= j < i ensures dir[j].stem != dir[i].stem {
      assert Names(dir)[j] != Names(dir)[i];
    }
    LookupAt(dir, i);
  }

  lemma InPrefix(dir: seq<File>, start: nat, i: nat)
    requires Numbered(dir) && i < |dir| && start <= |dir|
    ensures Names(dir)[i] in Names(dir)[..start] <==> i < start
  {
    NamesAscend(dir);
    if i < start { assert Names(dir)[..start][i] == Names(dir)[i]; }
  }

  lemma {:induction false} LastStateIs(dir: seq<File>, p: nat)
    requires Numbered(dir) && p <= |dir|
    ensures LastState(dir, Names(dir), p) == StateAt(dir, p)
  {
    if p > 0 {
      LookupFinds(dir, p - 1);
      LastStateIs(dir, p - 1);
    }
  }

  lemma {:induction false} DroppingLast(s: seq<string>, x: string)
    requires x !in s
    ensures Dropping(s + [x], x) == s
  {
    if s == [] {
      assert [] + [x] == [x] && [x][1..] == [];
    } else {
      assert (s + [x])[1..] == s[1..] + [x];
      DroppingLast(s[1..], x);
    }
  }

  // ---------------------------------------------------------------- the commands as moves of a counter

  /** The world in which the first `p` files are applied. */
  function Standing(dir: seq<File>, p: nat, s: Schema): World
    requires p <= |dir|
  {
    World(dir, Names(dir)[..p], s)
  }

  /** What applying file `p`, and undoing it, does to the schema. */
  function Up(dir: seq<File>, p: nat, s: Schema, crash: set<string>): Option<Schema>
    requires p < |dir|
  {
    if Names(dir)[p] in crash then None else if dir[p].body.SchemaChange? then Run(dir[p].body.forward, s) else Some(s)
  }

  function Down(dir: seq<File>, p: nat, s: Schema, crash: set<string>): Option<Schema>
    requires p < |dir|
  {
    if Names(dir)[p] in crash || !Reversible(dir[p]) then None
    else if dir[p].body.SchemaChange? then Run(dir[p].body.reverse, s) else Some(s)
  }

  predicate Reversible(f: File) { f.body.SchemaChange? || f.body.reversible }

  /** Where a command ended, counting applied files. */
  datatype Height = Height(p: nat, schema: Schema, ok: bool)

  function Climb(dir: seq<File>, p: nat, s: Schema, top: nat, crash: set<string>): (h: Height)
    requires p <= top <= |dir|
    ensures p <= h.p <= top && (h.ok ==> h.p == top)
    decreases top - p
  {
    if p == top then Height(p, s, true) else
    var next := Up(dir, p, s, crash);
    if next.None? then Height(p, s, false) else Climb(dir, p + 1, next.value, top, crash)
  }

  function Descend(dir: seq<File>, p: nat, s: Schema, floor: nat, crash: set<string>): (h: Height)
    requires floor <= p <= |dir|
    ensures floor <= h.p <= p && (h.ok ==> h.p == floor)
    decreases p
  {
    if p == floor then Height(p, s, true) else
    var next := Down(dir, p - 1, s, crash);
    if next.None? then Height(p, s, false) else Descend(dir, p - 1, next.value, floor, crash)
  }

  lemma ApplyNext(dir: seq<File>, p: nat, s: Schema, crash: set<string>)
    requires Numbered(dir) && p < |dir|
    ensures Apply(Standing(dir, p, s), Names(dir)[p], crash) ==
      (var next := Up(dir, p, s, crash); if next.None? then None else Some(Standing(dir, p + 1, next.value)))
  {
    LookupFinds(dir, p);
    assert Names(dir)[..p] + [Names(dir)[p]] == Names(dir)[..p + 1];
  }

  lemma UndoLast(dir: seq<File>, p: nat, s: Schema, crash: set<string>)
    requires Numbered(dir) && p < |dir|
    ensures Undo(Standing(dir, p + 1, s), Names(dir)[p], crash) ==
      (var next := Down(dir, p, s, crash); if next.None? then None else Some(Standing(dir, p, next.value)))
  {
    LookupFinds(dir, p);
    InPrefix(dir, p, p);
    assert Names(dir)[..p] + [Names(dir)[p]] == Names(dir)[..p + 1];
    DroppingLast(Names(dir)[..p], Names(dir)[p]);
  }

  /** `part` is what stands in `whole` from `k` on. */
  predicate PartAt(part: seq<string>, whole: seq<string>, k: nat) {
    k + |part| <= |whole| && forall j :: 0 <= j < |part| ==> part[j] == whole[k + j]
  }

  lemma PartCons(part: seq<string>, whole: seq<string>, k: nat)
    requires k < |whole| && PartAt(part, whole, k + 1)
    ensures PartAt([whole[k]] + part, whole, k)
  {
  }

  /** How far `migrate(target)` means to go: through the first name that matches. */
  function Reach(names: seq<string>, target: Option<string>, i: nat): (r: nat)
    requires i <= |names|
    ensures i <= r <= |names|
    decreases |names| - i
  {
    if i == |names| then i else if Stops(target, names[i]) then i + 1 else Reach(names, target, i + 1)
  }

  function Max(a: nat, b: nat): nat { if a < b then b else a }

  lemma {:induction false} MigrateClimbs(dir: seq<File>, s: Schema, start: nat, target: Option<string>,
                                         crash: set<string>, i: nat)
    requires Numbered(dir) && start <= i <= |dir|
    ensures var names := Names(dir);
      var r := MigrateFrom(Standing(dir, i, s), names, names[..start], target, crash, i);
      var h := Climb(dir, i, s, Reach(names, target, i), crash);
      r.world == Standing(dir, h.p, h.schema) && r.ok == h.ok && |r.names| == h.p - i && PartAt(r.names, names, i)
    decreases |dir| - i
  {
    var names := Names(dir);
    if i < |names| {
      InPrefix(dir, start, i);
      ApplyNext(dir, i, s, crash);
      var next := Up(dir, i, s, crash);
      if next.Some? && !Stops(target, names[i]) {
        MigrateClimbs(dir, next.value, start, target, crash, i + 1);
        PartCons(MigrateFrom(Standing(dir, i + 1, next.value), names, names[..start], target, crash, i + 1).names,
          names, i);
      }
    }
  }

  /** Applied files are passed over, unless one of them is the target. */
  lemma {:induction false} MigrateSkips(dir: seq<File>, w: World, start: nat, target: Option<string>,
                                        crash: set<string>, i: nat)
    requires Numbered(dir) && i <= start <= |dir|
    ensures var names := Names(dir); var r := MigrateFrom(w, names, names[..start], target, crash, i);
      if Reach(names, target, i) <= start then r == Outcome(w, [], true)
      else (r == MigrateFrom(w, names, names[..start], target, crash, start) &&
            Reach(names, target, i) == Reach(names, target, start))
    decreases start - i
  {
    if i < start {
      InPrefix(dir, start, i);
      if !Stops(target, Names(dir)[i]) { MigrateSkips(dir, w, start, target, crash, i + 1); }
    } else if i < |dir| {
      assert Reach(Names(dir), target, i) > start;
    }
  }

  /** The names at `targets[i..]` are the last `p` applied ones, newest first, down to `floor`. */
  ghost predicate Newest(dir: seq<File>, p: nat, floor: nat, targets: seq<string>, i: nat) {
    && i <= |targets| && floor <= p <= |dir| && |targets| - i == p - floor
    && forall j :: i <= j < |targets| ==> targets[j] == dir[p - 1 - (j - i)].stem
  }

  lemma {:induction false} RollbackDescends(dir: seq<File>, p: nat, s: Schema, floor: nat, targets: seq<string>,
                                            crash: set<string>, i: nat)
    requires Numbered(dir) && Newest(dir, p, floor, targets, i)
    ensures var r := RollbackFrom(Standing(dir, p, s), targets, crash, i); var h := Descend(dir, p, s, floor, crash);
      r.world == Standing(dir, h.p, h.schema) && r.ok == h.ok && |r.names| == p - h.p && PartAt(r.names, targets, i)
    decreases |targets| - i
  {
    hide Undo;
    hide Down;
    hide Sorted;
    hide Standing;
    if i < |targets| {
      assert targets[i] == dir[p - 1].stem;
      UndoLast(dir, p - 1, s, crash);
      var next := Down(dir, p - 1, s, crash);
      if next.Some? {
        RollbackDescends(dir, p - 1, next.value, floor, targets, crash, i + 1);
        PartCons(RollbackFrom(Standing(dir, p - 1, next.value), targets, crash, i + 1).names, targets, i);
      }
    }
  }

  /** `migrate(target)` applies, in order, the files after the applied ones up to the first that matches. */
  lemma MigrateAppliesUpToTarget(dir: seq<File>, p: nat, s: Schema, target: Option<string>, crash: set<string>)
    requires Numbered(dir) && p <= |dir|
    ensures var r := Migrate(Standing(dir, p, s), target, crash);
      var h := Climb(dir, p, s, Max(Reach(Names(dir), target, 0), p), crash);
      r.world == Standing(dir, h.p, h.schema) && r.ok == h.ok && |r.names| == h.p - p && PartAt(r.names, Names(dir), p)
  {
    ListingIsCreationOrder(dir);
    AppliedIsSorted(dir, p);
    MigrateSkips(dir, Standing(dir, p, s), p, target, crash, 0);
    MigrateClimbs(dir, s, p, target, crash, p);
  }

  function Steps(steps: int, p: nat): (n: nat)
    ensures n <= p
  {
    if steps <= 0 then 0 else if steps >= p then p else steps
  }

  lemma TargetsAreNewest(dir: seq<File>, p: nat, steps: int)
    requires p <= |dir|
    ensures Newest(dir, p, p - Steps(steps, p), RollbackTargets(Names(dir)[..p], steps), 0)
  {
  }

  /** `rollback(k)` undoes exactly the last `k` (all, if there are fewer; none, if `k <= 0`), newest
      first; a failure stops it part way. */
  lemma RollbackUndoesLast(dir: seq<File>, p: nat, s: Schema, steps: int, crash: set<string>)
    requires Numbered(dir) && p <= |dir|
    ensures var r := Rollback(Standing(dir, p, s), steps, crash);
      var h := Descend(dir, p, s, p - Steps(steps, p), crash);
      && r.world == Standing(dir, h.p, h.schema) && r.ok == h.ok && |r.names| == p - h.p
      && forall j :: 0 <= j < |r.names| ==> r.names[j] == Names(dir)[p - 1 - j]
    ensures Steps(steps, p) == if steps <= 0 then 0 else if steps >= p then p else steps
  {
    hide RollbackFrom;
    hide Descend;
    hide Sorted;
    hide RollbackTargets;
    AppliedIsSorted(dir, p);
    TargetsAreNewest(dir, p, steps);
    RollbackDescends(dir, p, s, p - Steps(steps, p), RollbackTargets(Names(dir)[..p], steps), crash, 0);
  }

  // ---------------------------------------------------------------- sound files keep the schema in step

  /** The schema recorded by the last schema file among the first `p`. */
  function SchemaAt(dir: seq<File>, p: nat): Schema
    requires p <= |dir|
  {
    Full(StateAt(dir, p))
  }

  /** Every schema file was written by `makemigrations`, and its forward program works or halts. */
  ghost predicate Sound(dir: seq<File>) { forall i :: 0 <= i < |dir| ==> SoundAt(dir, i) }

  ghost predicate SoundAt(dir: seq<File>, i: nat)
    requires i < |dir|
  {
    dir[i].body.SchemaChange? ==> exists rs :: MadeWith(dir[i].body, StateAt(dir, i), rs)
  }

  ghost predicate MadeWith(body: Body, was: State, rs: seq<Rename>)
    requires body.SchemaChange?
  {
    && Writable(was, rs, body.state) && !Astray(was, rs, body.state)
    && body.forward == Forward(Program(was, rs, body.state)) && body.reverse == Reverse(Program(was, rs, body.state))
  }

  /** Its forward program works. */
  ghost predicate Advances(dir: seq<File>, i: nat)
    requires i < |dir|
  {
    var body, was := dir[i].body, StateAt(dir, i);
    body.SchemaChange? ==> exists rs :: MadeWith(body, was, rs) && Works(was, rs, body.state)
  }

  /** Its renames respelled nothing that undoing it makes again. */
  ghost predicate Returns(dir: seq<File>, i: nat)
    requires i < |dir|
  {
    var body, was := dir[i].body, StateAt(dir, i);
    body.SchemaChange? ==> exists rs :: MadeWith(body, was, rs) && NothingRespelled(was, rs, body.state)
  }

  /** It dropped an index on a column whose name is gone. */
  ghost predicate Stuck(dir: seq<File>, i: nat)
    requires i < |dir|
  {
    dir[i].body.SchemaChange? && exists n, c :: LosesColumn(StateAt(dir, i), dir[i].body.state, n, c)
  }

  lemma ForwardOutcome(body: Body, was: State, rs: seq<Rename>)
    requires body.SchemaChange? && MadeWith(body, was, rs)
    ensures Proper(body.state)
    ensures Run(body.forward, Full(was)) == if Works(was, rs, body.state) then Some(Full(body.state)) else None
  {
    hide Full;
    hide Comparable;
    hide Proper;
    hide Program;
    hide Works;
    hide Halts;
    hide Astray;
    ProgramWorksExactlyWhen(was, rs, body.state);
    ProgramOutcome(was, rs, body.state);
  }

  lemma ReverseOutcome(body: Body, was: State, rs: seq<Rename>)
    requires body.SchemaChange? && MadeWith(body, was, rs) && Works(was, rs, body.state)
    ensures Run(body.reverse, Full(body.state)) == Some(Full(was)) <==> NothingRespelled(was, rs, body.state)
    ensures (exists n, c :: LosesColumn(was, body.state, n, c)) ==> Run(body.reverse, Full(body.state)).None?
  {
    assert Migrated(was, rs, body.state);
    hide Full;
    hide Comparable;
    hide Proper;
    hide Program;
    hide Works;
    hide NothingRespelled;
    hide LosesColumn;
    UndoingWorksExactlyWhen(was, rs, body.state);
    if n, c :| LosesColumn(was, body.state, n, c) {
      MigratedIs(was, rs, body.state);
      LostColumnStopsUndoing(was, rs, body.state, n, c);
    }
  }

  lemma MigratedIs(was: State, rs: seq<Rename>, goal: State)
    requires Migrated(was, rs, goal)
    ensures Proper(was) && Comparable(CarriedAll(was, rs), goal)
  {
  }

  /** A schema file leads to its own schema when it advances and fails otherwise; and it leads back exactly
      when it returns. */
  lemma SoundFile(dir: seq<File>, i: nat)
    requires i < |dir| && SoundAt(dir, i) && dir[i].body.SchemaChange?
    ensures Run(dir[i].body.forward, SchemaAt(dir, i)) == if Advances(dir, i) then Some(SchemaAt(dir, i + 1)) else None
    ensures Advances(dir, i) ==>
      (Run(dir[i].body.reverse, SchemaAt(dir, i + 1)) == Some(SchemaAt(dir, i)) <==> Returns(dir, i))
    ensures Advances(dir, i) && Stuck(dir, i) ==> Run(dir[i].body.reverse, SchemaAt(dir, i + 1)).None?
  {
    var body, was := dir[i].body, StateAt(dir, i);
    assert SchemaAt(dir, i) == Full(was) && SchemaAt(dir, i + 1) == Full(body.state);
    hide Full;
    hide Works;
    hide MadeWith;
    hide LosesColumn;
    hide NothingRespelled;
    var rs :| MadeWith(body, was, rs);
    ForwardOutcome(body, was, rs);
    if Advances(dir, i) {
      var there :| MadeWith(body, was, there) && Works(was, there, body.state);
      ForwardOutcome(body, was, there);
      ReverseOutcome(body, was, there);
      if Returns(dir, i) {
        var back :| MadeWith(body, was, back) && NothingRespelled(was, back, body.state);
        ForwardOutcome(body, was, back);
        ReverseOutcome(body, was, back);
      }
    }
  }

  lemma SoundMoves(dir: seq<File>, p: nat, crash: set<string>)
    requires Sound(dir) && p < |dir|
    ensures Up(dir, p, SchemaAt(dir, p), crash) ==
      if Names(dir)[p] in crash || !Advances(dir, p) then None else Some(SchemaAt(dir, p + 1))
    ensures Advances(dir, p) ==>
      var below := Down(dir, p, SchemaAt(dir, p + 1), crash);
      if Names(dir)[p] in crash || !Reversible(dir[p]) || Stuck(dir, p) then below == None
      else below == Some(SchemaAt(dir, p)) <==> Returns(dir, p)
  {
    assert SoundAt(dir, p);
    hide Returns;
    hide Stuck;
    hide SoundAt;
    hide Advances;
    if dir[p].body.SchemaChange? { SoundFile(dir, p); } else { DataFile(dir, p); }
  }

  lemma DataFile(dir: seq<File>, p: nat)
    requires p < |dir| && dir[p].body.DataChange?
    ensures Advances(dir, p) && Returns(dir, p) && !Stuck(dir, p) && SchemaAt(dir, p + 1) == SchemaAt(dir, p)
  {
  }

  ghost predicate AllAdvance(dir: seq<File>, from: nat, to: nat)
    requires to <= |dir|
  {
    forall q :: from <= q < to ==> Advances(dir, q)
  }

  /** Climbing stays in step, and only a crash or a file that does not advance stops it. */
  lemma {:induction false} ClimbInStep(dir: seq<File>, p: nat, top: nat, crash: set<string>)
    requires Sound(dir) && p <= top <= |dir|
    ensures var h := Climb(dir, p, SchemaAt(dir, p), top, crash);
      && h.schema == SchemaAt(dir, h.p) && AllAdvance(dir, p, h.p)
      && (crash == {} ==> if h.ok then h.p == top else h.p < top && !Advances(dir, h.p))
    decreases top - p
  {
    hide Up;
    hide Names;
    hide Advances;
    hide Sound;
    hide StateAt;
    if p < top {
      SoundMoves(dir, p, crash);
      ClimbInStep(dir, p + 1, top, crash);
    }
  }

  /** Descending past files that return, or that fail to, stays in step. */
  ghost predicate Retraceable(dir: seq<File>, floor: nat, p: nat)
    requires floor <= p <= |dir|
  {
    forall q :: floor <= q < p ==> Returns(dir, q) || Stuck(dir, q)
  }

  /** So does descending, where a data migration without an inverse stops it too. */
  lemma {:induction false} DescendInStep(dir: seq<File>, p: nat, floor: nat, crash: set<string>)
    requires Sound(dir) && floor <= p <= |dir| && AllAdvance(dir, floor, p) && Retraceable(dir, floor, p)
    ensures var h := Descend(dir, p, SchemaAt(dir, p), floor, crash); h.schema == SchemaAt(dir, h.p)
    ensures crash == {} && (forall q :: floor <= q < p ==> Reversible(dir[q]) && !Stuck(dir, q)) ==>
      Descend(dir, p, SchemaAt(dir, p), floor, crash).ok
    decreases p
  {
    hide Down;
    hide Names;
    hide Returns;
    hide Stuck;
    hide Sound;
    hide StateAt;
    hide Advances;
    if p > floor {
      SoundMoves(dir, p - 1, crash);
      DescendInStep(dir, p - 1, floor, crash);
    }
  }

  lemma ReturningIsNotStuck(dir: seq<File>, q: nat)
    requires Sound(dir) && q < |dir| && Advances(dir, q) && Returns(dir, q)
    ensures !Stuck(dir, q)
  {
    assert SoundAt(dir, q);
    if dir[q].body.SchemaChange? { SoundFile(dir, q); }
  }

  /** Migrating, as far as it gets, and rolling back as many steps restores the world; migrating gets
      through exactly when every file on the way advances. */
  lemma MigrateThenRollback(dir: seq<File>, p: nat, target: Option<string>)
    requires Numbered(dir) && Sound(dir) && p <= |dir|
    requires forall q :: p <= q < |dir| && Advances(dir, q) ==> Reversible(dir[q]) && Returns(dir, q)
    ensures var w := Standing(dir, p, SchemaAt(dir, p));
      var there := Migrate(w, target, {}); var back := Rollback(there.world, |there.names|, {});
      && back.ok && back.world == w && |back.names| == |there.names|
      && (there.ok <==> AllAdvance(dir, p, Max(Reach(Names(dir), target, 0), p)))
  {
    hide Migrate;
    hide Rollback;
    hide Climb;
    hide Descend;
    hide Names;
    hide Sound;
    hide Returns;
    hide Stuck;
    hide Advances;
    hide SchemaAt;
    var top := Max(Reach(Names(dir), target, 0), p);
    ClimbInStep(dir, p, top, {});
    MigrateAppliesUpToTarget(dir, p, SchemaAt(dir, p), target, {});
    var h := Climb(dir, p, SchemaAt(dir, p), top, {});
    forall q | p <= q < h.p ensures !Stuck(dir, q) { ReturningIsNotStuck(dir, q); }
    DescendInStep(dir, h.p, p, {});
    RollbackUndoesLast(dir, h.p, h.schema, h.p - p, {});
    assert Steps(h.p - p, h.p) == h.p - p;
  }

  // ---------------------------------------------------------------- new files

  /** The applied names are the first of the sorted files. */
  ghost predicate AppliedPrefix(w: World) {
    Numbered(w.dir) && |w.applied| <= |w.dir| && w == Standing(w.dir, |w.applied|, w.schema)
  }

  /** The schema is the one the last applied schema file records, and no applied file is one that halts. */
  ghost predicate InStep(w: World) {
    && Sound(w.dir) && |w.applied| <= |w.dir| && w.schema == SchemaAt(w.dir, |w.applied|)
    && AllAdvance(w.dir, 0, |w.applied|)
  }

  lemma {:induction false} StateAtStays(dir: seq<File>, f: File, p: nat)
    requires p <= |dir|
    ensures StateAt(dir + [f], p) == StateAt(dir, p)
  {
    if p > 0 { StateAtStays(dir, f, p - 1); }
  }

  lemma AddFile(w: World, f: File)
    requires AppliedPrefix(w) && |w.dir| < 9999 && HasStem(f, |w.dir| + 1)
    ensures AppliedPrefix(w.(dir := w.dir + [f]))
  {
    var dir := w.dir + [f];
    forall i | 0 <= i < |dir| ensures HasNumber(dir, i) {
      if i < |w.dir| { assert HasNumber(w.dir, i); }
    }
    assert Names(dir)[..|w.applied|] == Names(w.dir)[..|w.applied|];
  }

  lemma SoundStays(dir: seq<File>, f: File, i: nat)
    requires i < |dir| && SoundAt(dir, i)
    ensures SoundAt(dir + [f], i) && (Advances(dir, i) ==> Advances(dir + [f], i))
  {
    hide MadeWith;
    hide Works;
    StateAtStays(dir, f, i);
  }

  lemma SoundGrows(w: World, f: File)
    requires InStep(w)
    requires f.body.SchemaChange? ==> exists rs :: MadeWith(f.body, StateAt(w.dir, |w.dir|), rs)
    ensures InStep(w.(dir := w.dir + [f]))
  {
    hide MadeWith;
    hide Advances;
    hide Full;
    var dir := w.dir + [f];
    forall i | 0 <= i < |dir| ensures SoundAt(dir, i) {
      if i < |w.dir| {
        SoundStays(w.dir, f, i);
      } else {
        StateAtStays(w.dir, f, i);
      }
    }
    forall q | 0 <= q < |w.applied| ensures Advances(dir, q) {
      SoundStays(w.dir, f, q);
    }
    StateAtStays(w.dir, f, |w.applied|);
  }

  lemma MakeMigrationsKeeps(w: World, title: string, rs: seq<Rename>, models: State)
    requires AppliedPrefix(w) && |w.dir| < 9999
    ensures AppliedPrefix(MakeMigrations(w, title, rs, models))
    ensures InStep(w) && Tame(Making(title, rs, models), w) ==> InStep(MakeMigrations(w, title, rs, models))
  {
    ListingIsCreationOrder(w.dir);
    LastStateIs(w.dir, |w.dir|);
    var units := Program(StateAt(w.dir, |w.dir|), rs, models);
    var f := File(Stem(|w.dir| + 1, title), SchemaChange(Forward(units), Reverse(units), models));
    AddFile(w, f);
    if InStep(w) && Tame(Making(title, rs, models), w) {
      assert MadeWith(f.body, StateAt(w.dir, |w.dir|), rs);
      SoundGrows(w, f);
    }
  }

  lemma MakeDataKeeps(w: World, title: string, reversible: bool)
    requires AppliedPrefix(w) && |w.dir| < 9999
    ensures AppliedPrefix(MakeDataMigration(w, title, reversible))
    ensures InStep(w) ==> InStep(MakeDataMigration(w, title, reversible))
  {
    ListingIsCreationOrder(w.dir);
    var f := File(Stem(|w.dir| + 1, title), DataChange(reversible));
    AddFile(w, f);
    if InStep(w) { SoundGrows(w, f); }
  }

  // ---------------------------------------------------------------- every run

  datatype Event =
    | Making(title: string, renames: seq<Rename>, models: State)
    | MakingData(title: string, reversible: bool)
    | Migrating(target: Option<string>, crash: set<string>)
    | RollingBack(steps: int, crash: set<string>)

  function After(e: Event, w: World): World {
    match e
    case Making(title, rs, models) => MakeMigrations(w, title, rs, models)
    case MakingData(title, reversible) => MakeDataMigration(w, title, reversible)
    case Migrating(target, crash) => Migrate(w, target, crash).world
    case RollingBack(steps, crash) => Rollback(w, steps, crash).world
  }

  function AfterAll(es: seq<Event>, w: World): World {
    if es == [] then w else AfterAll(es[1..], After(es[0], w))
  }

  /** No command writes a 10000th file. */
  predicate Room(e: Event, w: World) { e.Making? || e.MakingData? ==> |w.dir| < 9999 }

  predicate Roomy(es: seq<Event>, w: World) { es == [] || (Room(es[0], w) && Roomy(es[1..], After(es[0], w))) }

  /** No `makemigrations` writes a forward program that runs astray, and every file rolled back returns or
      is stuck. */
  ghost predicate Tame(e: Event, w: World) {
    && (e.Making? ==>
          var was := StateAt(w.dir, |w.dir|);
          Writable(was, e.renames, e.models) && !Astray(was, e.renames, e.models))
    && (e.RollingBack? ==>
          var p := |w.applied|; p <= |w.dir| && Retraceable(w.dir, p - Steps(e.steps, p), p))
  }

  ghost predicate AllTame(es: seq<Event>, w: World) {
    es == [] || (Tame(es[0], w) && AllTame(es[1..], After(es[0], w)))
  }

  lemma MigratingKeeps(w: World, target: Option<string>, crash: set<string>)
    requires AppliedPrefix(w)
    ensures var w' := Migrate(w, target, crash).world; AppliedPrefix(w') && (InStep(w) ==> InStep(w'))
  {
    var p := |w.applied|;
    MigrateAppliesUpToTarget(w.dir, p, w.schema, target, crash);
    if InStep(w) { ClimbInStep(w.dir, p, Max(Reach(Names(w.dir), target, 0), p), crash); }
  }

  lemma RollingBackKeeps(w: World, steps: int, crash: set<string>)
    requires AppliedPrefix(w)
    ensures var w' := Rollback(w, steps, crash).world; AppliedPrefix(w')
    ensures InStep(w) && Tame(RollingBack(steps, crash), w) ==> InStep(Rollback(w, steps, crash).world)
  {
    var p := |w.applied|;
    RollbackUndoesLast(w.dir, p, w.schema, steps, crash);
    if InStep(w) && Tame(RollingBack(steps, crash), w) { DescendInStep(w.dir, p, p - Steps(steps, p), crash); }
  }

  /** Rolling back one step succeeds and stays in step exactly when the file can be undone and returns. */
  lemma OneStepBackExactlyWhen(w: World)
    requires AppliedPrefix(w) && InStep(w) && w.applied != []
    ensures var r := Rollback(w, 1, {}); var p := |w.applied| - 1;
      r.ok && InStep(r.world) <==> Reversible(w.dir[p]) && Returns(w.dir, p)
  {
    hide Rollback;
    hide Down;
    hide Names;
    hide Returns;
    hide Stuck;
    hide Sound;
    hide Advances;
    hide Numbered;
    hide SchemaAt;
    var p := |w.applied|;
    RollbackUndoesLast(w.dir, p, w.schema, 1, {});
    SoundMoves(w.dir, p - 1, {});
    if Returns(w.dir, p - 1) { ReturningIsNotStuck(w.dir, p - 1); }
  }

  lemma EventKeeps(e: Event, w: World)
    requires AppliedPrefix(w) && Room(e, w)
    ensures AppliedPrefix(After(e, w))
    ensures InStep(w) && Tame(e, w) ==> InStep(After(e, w))
  {
    match e
    case Making(title, rs, models) => MakeMigrationsKeeps(w, title, rs, models);
    case MakingData(title, reversible) => MakeDataKeeps(w, title, reversible);
    case Migrating(target, crash) => MigratingKeeps(w, target, crash);
    case RollingBack(steps, crash) => RollingBackKeeps(w, steps, crash);
  }

  /** Main result, for every run with at most 9999 files, crashes included: the applied names are
      the first of the sorted files. */
  lemma {:induction false} RunKeepsPrefix(es: seq<Event>, w: World)
    requires AppliedPrefix(w) && Roomy(es, w)
    ensures AppliedPrefix(AfterAll(es, w))
  {
    if es != [] {
      EventKeeps(es[0], w);
      RunKeepsPrefix(es[1..], After(es[0], w));
    }
  }

  /** Main result: the schema is always the one recorded by the last applied schema file, and a file whose
      program halts is never applied. */
  lemma {:induction false} RunKeepsSchema(es: seq<Event>, w: World)
    requires AppliedPrefix(w) && InStep(w) && Roomy(es, w) && AllTame(es, w)
    ensures AppliedPrefix(AfterAll(es, w)) && InStep(AfterAll(es, w))
  {
    if es != [] {
      EventKeeps(es[0], w);
      RunKeepsSchema(es[1..], After(es[0], w));
    }
  }

  /** An empty project satisfies all of it. */
  lemma EmptyProject()
    ensures var w := World([], [], Schema(map[], map[])); AppliedPrefix(w) && InStep(w)
  {
    assert Full(EmptyState()) == Schema(map[], map[]);
  }
}
