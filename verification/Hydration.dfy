/** `select_related`: objects built from one joined row, against following the foreign keys lazily. */
module Hydration {
  import opened Basics
  import opened SqlLanguage
  import opened QueryCompiler
  import opened RelationJoins

  /** A model object: the values of its columns. */
  type Object = map<string, Value>

  function Fields(row: Option<Row>, columns: set<string>): Object { map c | c in columns :: Cell(row, c) }

  // ---------------------------------------------------------------- the joined row

  /** What one joined row says in a column of a selected path. */
  function Read(r: Resolver, env: Env, p: Path, column: string): Value { EnvCells(env)(RefsOf(r)(Key(p, column))) }

  /** The object a path's columns spell, or none when its primary key reads NULL. */
  function Spelled(r: Resolver, env: Env, p: Path, pk: string, columns: set<string>): Option<Object> {
    if Read(r, env, p, pk).Null? then None else Some(map c | c in columns :: Read(r, env, p, c))
  }

  function Parent(p: Path): Path requires p != [] { p[..|p| - 1] }

  /** The object at a place: the base object, or what its path spells if that was selected. */
  function Placed(base: Object, spelled: map<Path, Option<Object>>, p: Path): Option<Object> {
    if p == [] then Some(base) else if p in spelled then spelled[p] else None
  }

  /** Shorter paths come first. */
  ghost predicate ByLength(paths: seq<Path>) {
    forall i, j :: 0 <= i < j < |paths| ==> |paths[i]| <= |paths[j]|
  }

  /** An object is attached exactly where its parent object was built, and is the one its columns spell. */
  ghost predicate Attached(base: Object, spelled: map<Path, Option<Object>>, caches: map<Path, Option<Object>>)
    requires [] !in spelled
  {
    && (forall p :: p in caches <==> p in spelled && Placed(base, spelled, Parent(p)).Some?)
    && (forall p :: p in caches ==> caches[p] == spelled[p])
  }

  lemma ParentsFirst(paths: seq<Path>, i: nat)
    requires ByLength(paths) && i < |paths| && [] !in paths
    ensures Parent(paths[i]) in paths ==> Parent(paths[i]) in paths[..i]
  {
    if Parent(paths[i]) in paths {
      var j :| 0 <= j < |paths| && paths[j] == Parent(paths[i]);
      assert |paths[j]| < |paths[i]|;
    }
  }

  /** `_row_to_instance_joined`: parents before children; `caches[p]` is what is set on the object at
      `p`'s parent under `p`'s last name. */
  method Hydrate(base: Object, paths: seq<Path>, spelled: map<Path, Option<Object>>)
    returns (caches: map<Path, Option<Object>>)
    requires ByLength(paths) && Distinct(paths) && (forall p :: p in paths <==> p in spelled) && [] !in paths
    ensures Attached(base, spelled, caches)
  {
    hide ByLength;
    hide Distinct;
    var built: map<Path, Option<Object>> := map[[] := Some(base)];
    caches := map[];
    for i := 0 to |paths|
      invariant forall p :: p in built <==> p == [] || p in paths[..i]
      invariant forall p :: p in built ==> built[p] == Placed(base, spelled, p)
      invariant forall p :: p in caches <==> p in paths[..i] && Placed(base, spelled, Parent(p)).Some?
      invariant forall p :: p in caches ==> caches[p] == spelled[p]
    {
      var p := paths[i];
      ParentsFirst(paths, i);
      assert p in paths && paths[..i + 1] == paths[..i] + [p];
      var related := spelled[p];
      if Parent(p) in built && built[Parent(p)].Some? { caches := caches[p := related]; }
      built := built[p := related];
    }
    assert paths[..|paths|] == paths;
  }

  // ---------------------------------------------------------------- navigation

  /** The foreign key descriptor on an object: None, its row, or an error for a dangling key. */
  datatype Lazy = Got(value: Option<Row>) | DoesNotExist

  function LazyStep(m: Models, db: Database, parent: Row, fk: ForeignKey): Lazy
    requires fk.to in m
  {
    var v := Cell(Some(parent), fk.column);
    if v.Null? then Got(None) else
    var found := RelationJoins.Lookup(TableRows(db, m[fk.to].table), m[fk.to].pk, v);
    if found.Some? then Got(found) else DoesNotExist
  }

  /** The foreign key a path ends with, and the object it leaves from. */
  ghost predicate LeavesFrom(m: Models, db: Database, base: string, row: Row, p: Path, parent: Row, fk: ForeignKey) {
    && p != [] && Target(m, base, p).Some? && LastKey(m, base, p) == fk
    && Navigate(m, db, base, row, Parent(p)) == Some(parent)
  }

  lemma {:induction false} LookupHasKey(rows: seq<Row>, column: string, v: Value)
    ensures RelationJoins.Lookup(rows, column, v).Some? ==>
      Cell(RelationJoins.Lookup(rows, column, v), column) == v && !v.Null?
  {
    if rows != [] && !v.Null? { LookupHasKey(rows[1..], column, v); }
  }

  /** The primary key column of the model at a registered path. */
  function PkAt(m: Models, r: Resolver, p: Path): string
    requires p in r.cache && r.cache[p].model in m
  {
    m[r.cache[p].model].pk
  }

  /** A selected path spells the object that navigation reaches, and none when it reaches none. */
  lemma SpelledIsReached(m: Models, db: Database, base: string, r: Resolver, env: Env, row: Row, p: Path,
                         columns: set<string>)
    requires Good(m, base, r) && Mirrors(m, db, base, r, env, row) && p in r.cache && p != []
    ensures r.cache[p].model in m
    ensures var reached := Navigate(m, db, base, row, p);
      Spelled(r, env, p, PkAt(m, r, p), columns) == if reached.Some? then Some(Fields(reached, columns)) else None
  {
    CachedTarget(m, base, r, p);
    var reached := Navigate(m, db, base, row, p);
    forall c ensures Read(r, env, p, c) == Cell(reached, c) {
      assert EnvCells(env)(RefsOf(r)(Key(p, c))) == NavigationField(m, db, base, row)(Key(p, c));
    }
    var parent, fk := Navigate(m, db, base, row, Parent(p)), LastKey(m, base, p);
    LookupHasKey(TableRows(db, m[fk.to].table), m[fk.to].pk, Cell(parent, fk.column));
    assert (map c | c in columns :: Read(r, env, p, c)) == Fields(reached, columns);
  }

  /** Main result: for a selected path whose parent object exists, hydration attaches exactly what the
      lazy descriptor would load, unless the key dangles: then it attaches None where lazily there is
      an error. */
  lemma AttachedIsLazy(m: Models, db: Database, base: string, r: Resolver, env: Env, row: Row, p: Path, parent: Row,
                       fk: ForeignKey, columns: set<string>)
    requires Good(m, base, r) && Mirrors(m, db, base, r, env, row) && p in r.cache &&
      LeavesFrom(m, db, base, row, p, parent, fk)
    ensures r.cache[p].model in m
    ensures var attached := Spelled(r, env, p, PkAt(m, r, p), columns);
      match LazyStep(m, db, parent, fk)
      case Got(None) => attached == None
      case Got(Some(found)) => attached == Some(Fields(Some(found), columns))
      case DoesNotExist => attached == None
  {
    SpelledIsReached(m, db, base, r, env, row, p, columns);
  }

  /** Every place on the way of a selected path is selected too. */
  ghost predicate PrefixClosed(paths: set<Path>) { forall p :: p in paths && |p| > 1 ==> Parent(p) in paths }

  /** The objects of a joined row, for each selected path. */
  ghost predicate SpelledBy(spelled: map<Path, Option<Object>>, m: Models, r: Resolver, env: Env,
                            columns: map<string, set<string>>)
  {
    forall p :: p in spelled ==>
      && p in r.cache && p != [] && r.cache[p].model in m && r.cache[p].model in columns
      && spelled[p] == Spelled(r, env, p, PkAt(m, r, p), columns[r.cache[p].model])
  }

  /** Main result: when the selection is closed under prefixes, a path's object is attached exactly
      when navigation reaches the object it leaves from. With a gap in the selection the object below
      the gap stays unattached, to be loaded lazily. */
  lemma AttachedWhereReached(m: Models, db: Database, base: string, r: Resolver, env: Env, row: Row, p: Path,
                             spelled: map<Path, Option<Object>>, root: Object, columns: map<string, set<string>>)
    requires Good(m, base, r) && Mirrors(m, db, base, r, env, row) && SpelledBy(spelled, m, r, env, columns) &&
      p in spelled
    ensures p != []
    ensures PrefixClosed(spelled.Keys) ==>
      (Placed(root, spelled, Parent(p)).Some? <==> Navigate(m, db, base, row, Parent(p)).Some?)
    ensures Parent(p) != [] && Parent(p) !in spelled ==> Placed(root, spelled, Parent(p)).None?
  {
    var q := Parent(p);
    if q != [] && q in spelled {
      SpelledIsReached(m, db, base, r, env, row, q, columns[r.cache[q].model]);
    }
  }

  /** What lazy navigation loads at `p`, as an object; None also where it fails on a dangling key. */
  function Loaded(m: Models, db: Database, parent: Row, fk: ForeignKey, columns: set<string>): Option<Object>
    requires fk.to in m
  {
    match LazyStep(m, db, parent, fk)
    case Got(Some(found)) => Some(Fields(Some(found), columns))
    case _ => None
  }

  /** Main result, together: on a joined row with a prefix-closed selection, hydration fills the cache of a
      path exactly when navigation reaches the object it leaves from, with what the descriptor loads there. */
  lemma HydratedIsNavigated(m: Models, db: Database, base: string, r: Resolver, env: Env, row: Row, root: Object,
                            spelled: map<Path, Option<Object>>, columns: map<string, set<string>>,
                            caches: map<Path, Option<Object>>)
    requires Good(m, base, r) && Mirrors(m, db, base, r, env, row)
    requires SpelledBy(spelled, m, r, env, columns) && PrefixClosed(spelled.Keys)
    requires [] !in spelled && Attached(root, spelled, caches)
    ensures forall p :: p in caches ==> p in spelled
    ensures forall p :: p in spelled ==>
      var parent := Navigate(m, db, base, row, Parent(p));
      && r.cache[p].model in columns && Target(m, base, p).Some?
      && (p in caches <==> parent.Some?)
      && (parent.Some? ==> caches[p] == Loaded(m, db, parent.value, LastKey(m, base, p), columns[r.cache[p].model]))
  {
    forall p | p in spelled
      ensures var parent := Navigate(m, db, base, row, Parent(p));
        && r.cache[p].model in columns && Target(m, base, p).Some?
        && (p in caches <==> parent.Some?)
        && (parent.Some? ==> caches[p] == Loaded(m, db, parent.value, LastKey(m, base, p), columns[r.cache[p].model]))
    {
      CachedTarget(m, base, r, p);
      AttachedWhereReached(m, db, base, r, env, row, p, spelled, root, columns);
      var parent := Navigate(m, db, base, row, Parent(p));
      if parent.Some? {
        AttachedIsLazy(m, db, base, r, env, row, p, parent.value, LastKey(m, base, p), columns[r.cache[p].model]);
      }
    }
  }
}
