/** Relation paths to LEFT JOINs, and why one joined row per base row is what navigation sees. */
module RelationJoins {
  import opened Basics
  import opened Decimals
  import opened SqlLanguage
  import opened QueryCompiler
  import Like

  // ---------------------------------------------------------------- models

  type Path = seq<string>

  datatype ForeignKey = ForeignKey(column: string, to: string)

  datatype Meta = Meta(table: string, pk: string, fks: map<string, ForeignKey>)

  type Models = map<string, Meta>

  // ---------------------------------------------------------------- the resolver

  /** What a path resolves to: a table or alias name, and the model it holds rows of. */
  datatype Ref = Ref(name: string, model: string)

  /** `LEFT JOIN table alias ON left = alias.pk`. */
  datatype JoinClause = JoinClause(table: string, alias: string, left: ColRef, pk: string)

  /** `order` is the insertion order of the `cache` keys, without the initial `()`. */
  datatype Resolver = Resolver(joins: seq<JoinClause>, counter: nat, cache: map<Path, Ref>, order: seq<Path>)

  function Alias(n: nat): string { "J" + Decimal(n) }

  function Start(m: Models, base: string): Resolver
    requires base in m
  {
    Resolver([], 0, map[[] := Ref(m[base].table, base)], [])
  }

  /** `follow`; `None` is the FieldError for a name that is not a foreign key. */
  function Follow(m: Models, r: Resolver, parts: Path): (Resolver, Option<Ref>)
    decreases |parts|
  {
    if parts in r.cache then (r, Some(r.cache[parts]))
    else if parts == [] then (r, None)
    else
      var (r1, parent) := Follow(m, r, parts[..|parts| - 1]);
      if parent.None? then (r1, None) else Attach(m, r1, parts, parent.value)
  }

  /** The rest of `follow` once the parent is known: one more alias, join and cache entry. */
  function Attach(m: Models, r: Resolver, parts: Path, parent: Ref): (Resolver, Option<Ref>)
    requires parts != []
  {
    var name := parts[|parts| - 1];
    if parent.model !in m || name !in m[parent.model].fks || m[parent.model].fks[name].to !in m then (r, None) else
    var fk := m[parent.model].fks[name];
    var ref := Ref(Alias(r.counter + 1), fk.to);
    var join := JoinClause(m[fk.to].table, ref.name, ColRef(parent.name, fk.column), m[fk.to].pk);
    (Resolver(r.joins + [join], r.counter + 1, r.cache[parts := ref], r.order + [parts]), Some(ref))
  }

  function FollowAll(m: Models, r: Resolver, paths: seq<Path>): (Resolver, bool)
    decreases |paths|
  {
    if paths == [] then (r, true) else
    var (r1, ref) := Follow(m, r, paths[0]);
    if ref.None? then (r1, false) else FollowAll(m, r1, paths[1..])
  }

  // ---------------------------------------------------------------- what a resolver state means

  /** Join `k` belongs to the `k`-th path: its alias is new, its left side is the parent's name, and
      the parent was registered earlier. */
  ghost predicate JoinOf(m: Models, r: Resolver, k: nat)
    requires k < |r.order| && k < |r.joins|
  {
    var p := r.order[k];
    p != [] &&
    var parent, name := p[..|p| - 1], p[|p| - 1];
    && (parent == [] || parent in r.order[..k]) && parent in r.cache && p in r.cache
    && r.cache[parent].model in m && name in m[r.cache[parent].model].fks
    && var fk := m[r.cache[parent].model].fks[name];
    && fk.to in m && r.cache[p] == Ref(Alias(k + 1), fk.to)
    && r.joins[k] == JoinClause(m[fk.to].table, Alias(k + 1), ColRef(r.cache[parent].name, fk.column), m[fk.to].pk)
  }

  ghost predicate Good(m: Models, base: string, r: Resolver) {
    && base in m && |r.joins| == r.counter == |r.order|
    && [] in r.cache && r.cache[[]] == Ref(m[base].table, base)
    && (forall p :: p in r.cache <==> p == [] || p in r.order)
    && Distinct(r.order)
    && forall k :: 0 <= k < |r.order| ==> JoinOf(m, r, k)
  }

  /** Later states only add: a path keeps the alias it got. */
  ghost predicate Extends(r: Resolver, later: Resolver) {
    r.joins <= later.joins && forall p :: p in r.cache ==> p in later.cache && later.cache[p] == r.cache[p]
  }

  lemma AttachKeepsGood(m: Models, base: string, r: Resolver, parts: Path)
    requires Good(m, base, r) && parts != [] && parts !in r.cache && parts[..|parts| - 1] in r.cache
    ensures var (later, ref) := Attach(m, r, parts, r.cache[parts[..|parts| - 1]]);
      && Good(m, base, later) && Extends(r, later)
      && (ref.Some? ==> parts in later.cache && later.cache[parts] == ref.value)
  {
    var (later, ref) := Attach(m, r, parts, r.cache[parts[..|parts| - 1]]);
    if ref.Some? {
      forall k | 0 <= k < |later.order| ensures JoinOf(m, later, k) {
        if k < |r.order| {
          assert JoinOf(m, r, k);
          assert later.order[..k] == r.order[..k];
        } else {
          assert later.order[..k] == r.order;
        }
      }
    }
  }

  /** Registering a path keeps the state good, never changes earlier aliases, and on success
      caches the path. */
  lemma {:induction false} FollowKeepsGood(m: Models, base: string, r: Resolver, parts: Path)
    requires Good(m, base, r)
    ensures var (later, ref) := Follow(m, r, parts);
      && Good(m, base, later) && Extends(r, later)
      && (ref.Some? ==> parts in later.cache && later.cache[parts] == ref.value)
    decreases |parts|
  {
    if parts !in r.cache && parts != [] {
      var prefix := parts[..|parts| - 1];
      FollowKeepsGood(m, base, r, prefix);
      var (r1, parent) := Follow(m, r, prefix);
      if parent.Some? {
        PathNotAdded(m, base, r, prefix, parts);
        AttachKeepsGood(m, base, r1, parts);
      }
    }
  }

  /** Following a path only adds prefixes of it. */
  lemma {:induction false} PathNotAdded(m: Models, base: string, r: Resolver, prefix: Path, longer: Path)
    requires |prefix| < |longer| && longer !in r.cache
    ensures longer !in Follow(m, r, prefix).0.cache
    decreases |prefix|
  {
    if prefix !in r.cache && prefix != [] {
      PathNotAdded(m, base, r, prefix[..|prefix| - 1], longer);
    }
  }

  lemma {:induction false} FollowAllKeepsGood(m: Models, base: string, r: Resolver, paths: seq<Path>)
    requires Good(m, base, r)
    ensures var (later, ok) := FollowAll(m, r, paths);
      && Good(m, base, later) && Extends(r, later)
      && (ok ==> forall p :: p in paths ==> p in later.cache)
    decreases |paths|
  {
    if paths != [] {
      FollowKeepsGood(m, base, r, paths[0]);
      var (r1, ref) := Follow(m, r, paths[0]);
      if ref.Some? {
        FollowAllKeepsGood(m, base, r1, paths[1..]);
        assert forall p :: p in paths <==> p == paths[0] || p in paths[1..];
      }
    }
  }

  /** The model at the end of a path, read off the declarations. */
  function Target(m: Models, base: string, path: Path): Option<string>
    decreases |path|
  {
    if path == [] then Some(base) else
    var parent, name := Target(m, base, path[..|path| - 1]), path[|path| - 1];
    if parent.None? || parent.value !in m || name !in m[parent.value].fks || m[parent.value].fks[name].to !in m then
      None
    else Some(m[parent.value].fks[name].to)
  }

  /** The foreign key a declared path ends with. */
  function LastKey(m: Models, base: string, path: Path): (fk: ForeignKey)
    requires path != [] && Target(m, base, path).Some?
    ensures fk.to in m && Target(m, base, path) == Some(fk.to)
  {
    m[Target(m, base, path[..|path| - 1]).value].fks[path[|path| - 1]]
  }

  lemma {:induction false} CachedTarget(m: Models, base: string, r: Resolver, p: Path)
    requires Good(m, base, r) && p in r.cache
    ensures Target(m, base, p) == Some(r.cache[p].model)
    decreases |p|
  {
    if p != [] {
      var k :| 0 <= k < |r.order| && r.order[k] == p;
      assert JoinOf(m, r, k);
      CachedTarget(m, base, r, p[..|p| - 1]);
    }
  }

  /** Following a path fails exactly when the declarations do not know it. */
  lemma {:induction false} FollowFindsTarget(m: Models, base: string, r: Resolver, parts: Path)
    requires Good(m, base, r)
    ensures var ref := Follow(m, r, parts).1;
      Target(m, base, parts) == if ref.None? then None else Some(ref.value.model)
    decreases |parts|
  {
    if parts in r.cache {
      CachedTarget(m, base, r, parts);
    } else {
      FollowFindsTarget(m, base, r, parts[..|parts| - 1]);
    }
  }

  lemma {:induction false} FollowAllFindsTargets(m: Models, base: string, r: Resolver, paths: seq<Path>)
    requires Good(m, base, r)
    ensures FollowAll(m, r, paths).1 <==> forall p :: p in paths ==> Target(m, base, p).Some?
    decreases |paths|
  {
    if paths != [] {
      FollowKeepsGood(m, base, r, paths[0]);
      FollowFindsTarget(m, base, r, paths[0]);
      var (r1, ref) := Follow(m, r, paths[0]);
      assert forall p :: p in paths <==> p == paths[0] || p in paths[1..];
      if ref.Some? { FollowAllFindsTargets(m, base, r1, paths[1..]); }
    }
  }

  ghost predicate BaseIsNoAlias(m: Models, base: string, r: Resolver)
    requires base in m
  {
    forall k :: 1 <= k <= r.counter ==> m[base].table != Alias(k)
  }

  /** The names in use are the base table's and the aliases J1 .. Jn, one alias per path. */
  lemma NamesInUse(m: Models, base: string, r: Resolver, p: Path) returns (k: nat)
    requires Good(m, base, r) && p in r.cache
    ensures k <= r.counter && (k == 0 <==> p == [])
    ensures r.cache[p].name == if k == 0 then m[base].table else Alias(k)
    ensures k > 0 ==> r.order[k - 1] == p
  {
    if p == [] {
      k := 0;
    } else {
      var i :| 0 <= i < |r.order| && r.order[i] == p;
      assert JoinOf(m, r, i);
      k := i + 1;
    }
  }

  /** Two paths never share a name, as long as the base table is not called like an alias in use. */
  lemma NamesDistinct(m: Models, base: string, r: Resolver, p: Path, q: Path)
    requires Good(m, base, r) && BaseIsNoAlias(m, base, r) && p in r.cache && q in r.cache && p != q
    ensures r.cache[p].name != r.cache[q].name
  {
    var i := NamesInUse(m, base, r, p);
    var j := NamesInUse(m, base, r, q);
    if i > 0 && j > 0 { AliasesDistinct(i, j); }
  }

  /** And that condition is needed: a base table called `J<k>` clashes with the k-th alias. */
  lemma BaseNamedLikeAliasClashes(m: Models, base: string, r: Resolver)
    requires Good(m, base, r) && !BaseIsNoAlias(m, base, r)
    ensures exists p :: p in r.cache && p != [] && r.cache[p].name == r.cache[[]].name
  {
    var k :| 1 <= k <= r.counter && m[base].table == Alias(k);
    assert JoinOf(m, r, k - 1);
    assert r.order[k - 1] in r.cache && r.cache[r.order[k - 1]].name == Alias(k);
  }

  /** For one, a table `J1` of nodes with parents is joined to itself under its own name. */
  lemma TableNamedJ1()
    ensures var m := map["Node" := Meta("J1", "id", map["parent" := ForeignKey("parent_id", "Node")])];
      var (r, ref) := Follow(m, Start(m, "Node"), ["parent"]);
      Good(m, "Node", r) && ref == Some(r.cache[[]]) &&
        r.joins == [JoinClause("J1", "J1", ColRef("J1", "parent_id"), "id")]
  {
    var m := map["Node" := Meta("J1", "id", map["parent" := ForeignKey("parent_id", "Node")])];
    FollowKeepsGood(m, "Node", Start(m, "Node"), ["parent"]);
    assert ["parent"][..0] == [];
    assert Alias(0 + 1) == "J1" by { assert Decimal(1) == "1"; }
  }

  lemma AliasesDistinct(i: nat, j: nat)
    requires i != j
    ensures Alias(i) != Alias(j)
  {
    if Alias(i) == Alias(j) {
      assert Alias(i)[1..] == Decimal(i) && Alias(j)[1..] == Decimal(j);
      DecimalInjective(i, j);
    }
  }

  // ---------------------------------------------------------------- rows

  type Row = map<string, Value>

  type Database = map<string, seq<Row>>

  function Cell(row: Option<Row>, column: string): Value {
    if row.Some? && column in row.value then row.value[column] else Null
  }

  function TableRows(db: Database, table: string): seq<Row> { if table in db then db[table] else [] }

  /** The row whose `column` equals `v`; NULL equals nothing. */
  function Lookup(rows: seq<Row>, column: string, v: Value): Option<Row> {
    if rows == [] || v.Null? then None
    else if Cell(Some(rows[0]), column) == v then Some(rows[0])
    else Lookup(rows[1..], column, v)
  }

  ghost predicate UniqueKeys(rows: seq<Row>, column: string) {
    forall i, j :: 0 <= i < j < |rows| && !Cell(Some(rows[i]), column).Null? ==>
      Cell(Some(rows[i]), column) != Cell(Some(rows[j]), column)
  }

  ghost predicate UniquePrimaryKeys(m: Models, db: Database) {
    forall name :: name in m ==> UniqueKeys(TableRows(db, m[name].table), m[name].pk)
  }

  /** Following the foreign keys of `path` from `row`, object by object. */
  function Navigate(m: Models, db: Database, base: string, row: Row, path: Path): Option<Row>
    decreases |path|
  {
    if path == [] then Some(row)
    else if Target(m, base, path).None? then None
    else
      var parent, fk := Navigate(m, db, base, row, path[..|path| - 1]), LastKey(m, base, path);
      Lookup(TableRows(db, m[fk.to].table), m[fk.to].pk, Cell(parent, fk.column))
  }

  // ---------------------------------------------------------------- LEFT JOIN (ISO/IEC 9075:1992, 7.5)

  /** A joined row: the row under each name, or none where a LEFT JOIN found no match. */
  type Env = map<string, Option<Row>>

  function EnvCells(env: Env): Cells {
    (ref: ColRef) => if ref.qualifier in env then Cell(env[ref.qualifier], ref.column) else Null
  }

  function Matching(rows: seq<Row>, column: string, v: Value): seq<Row> {
    if rows == [] then [] else
    (if Compare(Eq, v, Cell(Some(rows[0]), column)).True3? then [rows[0]] else []) + Matching(rows[1..], column, v)
  }

  function JoinRow(env: Env, j: JoinClause, db: Database): seq<Env> {
    var found := Matching(TableRows(db, j.table), j.pk, EnvCells(env)(j.left));
    if found == [] then [env[j.alias := None]]
    else seq(|found|, i requires 0 <= i < |found| => env[j.alias := Some(found[i])])
  }

  function JoinRows(envs: seq<Env>, j: JoinClause, db: Database): seq<Env> {
    if envs == [] then [] else JoinRow(envs[0], j, db) + JoinRows(envs[1..], j, db)
  }

  function JoinTables(envs: seq<Env>, joins: seq<JoinClause>, db: Database): seq<Env>
    decreases |joins|
  {
    if joins == [] then envs else JoinTables(JoinRows(envs, joins[0], db), joins[1..], db)
  }

  /** FROM base LEFT JOIN ... */
  function From(m: Models, base: string, joins: seq<JoinClause>, db: Database): seq<Env>
    requires base in m
  {
    var rows := TableRows(db, m[base].table);
    JoinTables(seq(|rows|, i requires 0 <= i < |rows| => map[m[base].table := Some(rows[i])]), joins, db)
  }

  // ---------------------------------------------------------------- one joined row per base row

  lemma {:induction false} MatchingIsLookup(rows: seq<Row>, column: string, v: Value)
    requires UniqueKeys(rows, column)
    ensures Matching(rows, column, v) == match Lookup(rows, column, v) case None => [] case Some(row) => [row]
  {
    if rows != [] {
      forall i, j | 0 <= i < j < |rows| - 1 && !Cell(Some(rows[1..][i]), column).Null?
        ensures Cell(Some(rows[1..][i]), column) != Cell(Some(rows[1..][j]), column)
      {
        assert rows[1..][i] == rows[i + 1] && rows[1..][j] == rows[j + 1];
      }
      MatchingIsLookup(rows[1..], column, v);
      if !v.Null? && Cell(Some(rows[0]), column) == v {
        LookupFinds(rows[1..], column, v);
        assert forall i :: 0 < i < |rows| ==> rows[i] == rows[1..][i - 1];
      }
    }
  }

  lemma {:induction false} LookupFinds(rows: seq<Row>, column: string, v: Value)
    ensures Lookup(rows, column, v).Some? <==> !v.Null? && exists i ::
      0 <= i < |rows| && Cell(Some(rows[i]), column) == v
  {
    if rows != [] && !v.Null? {
      LookupFinds(rows[1..], column, v);
      assert forall i :: 0 < i < |rows| ==> rows[i] == rows[1..][i - 1];
      if Lookup(rows[1..], column, v).Some? {
        var i :| 0 <= i < |rows| - 1 && Cell(Some(rows[1..][i]), column) == v;
        assert rows[i + 1] == rows[1..][i];
      }
    }
  }

  /** After the first `k` joins, `env` shows `row` under the base table's name and, under each alias
      so far, the row reached from it by that alias's path. */
  ghost predicate Sees(m: Models, db: Database, base: string, r: Resolver, env: Env, row: Row, k: nat)
    requires base in m && k <= |r.order|
  {
    && m[base].table in env && env[m[base].table] == Some(row)
    && forall h :: 1 <= h <= k ==> Alias(h) in env && env[Alias(h)] == Navigate(m, db, base, row, r.order[h - 1])
  }

  /** The left side of a join reads the foreign key of the parent object. */
  lemma LeftSideIsParentKey(m: Models, db: Database, base: string, r: Resolver, env: Env, row: Row, k: nat)
    requires Good(m, base, r) && k < |r.order| && Sees(m, db, base, r, env, row, k)
    ensures var p, j := r.order[k], r.joins[k];
      && p != []
      && var v := EnvCells(env)(j.left);
      && v == Cell(Navigate(m, db, base, row, p[..|p| - 1]), j.left.column)
      && Navigate(m, db, base, row, p) == Lookup(TableRows(db, j.table), j.pk, v)
  {
    assert JoinOf(m, r, k);
    var p := r.order[k];
    var parent := p[..|p| - 1];
    CachedTarget(m, base, r, parent);
    CachedTarget(m, base, r, p);
    if parent != [] {
      var h :| 0 <= h < k && r.order[..k][h] == parent;
      assert r.order[h] == parent && JoinOf(m, r, h);
      assert env[Alias(h + 1)] == Navigate(m, db, base, row, r.order[h + 1 - 1]);
    }
  }

  /** Against unique keys a LEFT JOIN adds exactly one row: the match, or none. */
  lemma JoinRowIsLookup(env: Env, j: JoinClause, db: Database)
    requires UniqueKeys(TableRows(db, j.table), j.pk)
    ensures JoinRow(env, j, db) == [env[j.alias := Lookup(TableRows(db, j.table), j.pk, EnvCells(env)(j.left))]]
  {
    MatchingIsLookup(TableRows(db, j.table), j.pk, EnvCells(env)(j.left));
  }

  lemma AddingAliasKeepsSeen(m: Models, db: Database, base: string, r: Resolver, env: Env, row: Row, k: nat)
    requires Good(m, base, r) && BaseIsNoAlias(m, base, r) && k < |r.order| && Sees(m, db, base, r, env, row, k)
    ensures Sees(m, db, base, r, env[Alias(k + 1) := Navigate(m, db, base, row, r.order[k])], row, k + 1)
  {
    forall h | 1 <= h <= k ensures Alias(h) != Alias(k + 1) { AliasesDistinct(h, k + 1); }
    assert m[base].table != Alias(k + 1);
  }

  lemma JoinExtends(m: Models, db: Database, base: string, r: Resolver, env: Env, row: Row, k: nat)
    requires Good(m, base, r) && UniquePrimaryKeys(m, db) && BaseIsNoAlias(m, base, r) && k < |r.order|
    requires Sees(m, db, base, r, env, row, k)
    ensures var out := JoinRow(env, r.joins[k], db); |out| == 1 && Sees(m, db, base, r, out[0], row, k + 1)
  {
    LeftSideIsParentKey(m, db, base, r, env, row, k);
    assert JoinOf(m, r, k);
    JoinRowIsLookup(env, r.joins[k], db);
    AddingAliasKeepsSeen(m, db, base, r, env, row, k);
  }

  lemma {:induction false} JoinRowsPointwise(envs: seq<Env>, j: JoinClause, db: Database)
    requires forall i :: 0 <= i < |envs| ==> |JoinRow(envs[i], j, db)| == 1
    ensures var out := JoinRows(envs, j, db);
      |out| == |envs| && forall i :: 0 <= i < |envs| ==> out[i] == JoinRow(envs[i], j, db)[0]
  {
    if envs != [] {
      var first, rest := JoinRow(envs[0], j, db), JoinRows(envs[1..], j, db);
      JoinRowsPointwise(envs[1..], j, db);
      forall i | 0 <= i < |envs| ensures (first + rest)[i] == JoinRow(envs[i], j, db)[0] {
        if i > 0 { assert (first + rest)[i] == rest[i - 1] && envs[1..][i - 1] == envs[i]; }
      }
    }
  }

  lemma JoinRowsExtend(m: Models, db: Database, base: string, r: Resolver, envs: seq<Env>, rows: seq<Row>, k: nat)
    requires Good(m, base, r) && UniquePrimaryKeys(m, db) && BaseIsNoAlias(m, base, r) && k < |r.order|
    requires |envs| == |rows| && forall i :: 0 <= i < |rows| ==> Sees(m, db, base, r, envs[i], rows[i], k)
    ensures var out := JoinRows(envs, r.joins[k], db);
      |out| == |rows| && forall i :: 0 <= i < |rows| ==> Sees(m, db, base, r, out[i], rows[i], k + 1)
  {
    forall i | 0 <= i < |rows|
      ensures var one := JoinRow(envs[i], r.joins[k], db); |one| == 1 && Sees(m, db, base, r, one[0], rows[i], k + 1)
    {
      JoinExtends(m, db, base, r, envs[i], rows[i], k);
    }
    JoinRowsPointwise(envs, r.joins[k], db);
  }

  lemma {:induction false} JoinsExtend(m: Models, db: Database, base: string, r: Resolver, envs: seq<Env>,
                                       rows: seq<Row>, k: nat)
    requires Good(m, base, r) && UniquePrimaryKeys(m, db) && BaseIsNoAlias(m, base, r) && k <= |r.order|
    requires |envs| == |rows| && forall i :: 0 <= i < |rows| ==> Sees(m, db, base, r, envs[i], rows[i], k)
    ensures var out := JoinTables(envs, r.joins[k..], db);
      |out| == |rows| && forall i :: 0 <= i < |rows| ==> Sees(m, db, base, r, out[i], rows[i], |r.order|)
    decreases |r.order| - k
  {
    if k < |r.order| {
      JoinRowsExtend(m, db, base, r, envs, rows, k);
      assert r.joins[k..][1..] == r.joins[k + 1..];
      JoinsExtend(m, db, base, r, JoinRows(envs, r.joins[k], db), rows, k + 1);
    }
  }

  /** How a key is written once its path is registered. */
  function RefsOf(r: Resolver): Key -> ColRef {
    (k: Key) => if k.path in r.cache then ColRef(r.cache[k.path].name, k.column) else ColRef("", k.column)
  }

  /** The field a key names, found by navigation. */
  function NavigationField(m: Models, db: Database, base: string, row: Row): Key -> Value {
    (k: Key) => Cell(Navigate(m, db, base, row, k.path), k.column)
  }

  /** `env` holds `row`, and each registered key reads in it what navigation from `row` reads. */
  ghost predicate Mirrors(m: Models, db: Database, base: string, r: Resolver, env: Env, row: Row)
    requires base in m
  {
    && m[base].table in env && env[m[base].table] == Some(row)
    && forall k: Key :: k.path in r.cache ==> EnvCells(env)(RefsOf(r)(k)) == NavigationField(m, db, base, row)(k)
  }

  lemma SeesMirrors(m: Models, db: Database, base: string, r: Resolver, env: Env, row: Row)
    requires Good(m, base, r) && Sees(m, db, base, r, env, row, |r.order|)
    ensures Mirrors(m, db, base, r, env, row)
  {
    forall k: Key | k.path in r.cache
      ensures EnvCells(env)(RefsOf(r)(k)) == NavigationField(m, db, base, row)(k)
    {
      if k.path != [] {
        var h :| 0 <= h < |r.order| && r.order[h] == k.path;
        assert JoinOf(m, r, h);
      }
    }
  }

  /** Main result for joins: for any database with unique primary keys and any registered set of
      paths, the generated LEFT JOINs give one joined row per base row, in order, in which each key
      reads what following the foreign keys reads. */
  lemma OneJoinedRowPerBaseRow(m: Models, db: Database, base: string, r: Resolver)
    requires Good(m, base, r) && UniquePrimaryKeys(m, db) && BaseIsNoAlias(m, base, r)
    ensures var rows, out := TableRows(db, m[base].table), From(m, base, r.joins, db);
      |out| == |rows| && forall i :: 0 <= i < |rows| ==> Mirrors(m, db, base, r, out[i], rows[i])
  {
    var rows := TableRows(db, m[base].table);
    var envs: seq<Env> := seq(|rows|, i requires 0 <= i < |rows| => map[m[base].table := Some(rows[i])]);
    assert r.joins[0..] == r.joins;
    JoinsExtend(m, db, base, r, envs, rows, 0);
    var out := From(m, base, r.joins, db);
    forall i | 0 <= i < |rows| ensures Mirrors(m, db, base, r, out[i], rows[i]) {
      SeesMirrors(m, db, base, r, out[i], rows[i]);
    }
  }

  // ---------------------------------------------------------------- filters and counts over joins

  /** Rows of a joined query that its WHERE keeps; COUNT(*) is their number. */
  function KeptEnvs(envs: seq<Env>, where: Option<Pred>, d: Dialect): seq<Env> {
    if envs == [] then [] else
    (if Keeps(where, EnvCells(envs[0]), d) then [envs[0]] else []) + KeptEnvs(envs[1..], where, d)
  }

  /** Base rows that pass every filter by navigation. */
  ghost function PassingRows(m: Models, db: Database, base: string, rows: seq<Row>, wheres: seq<Q>, d: Dialect)
    : seq<Row>
  {
    if rows == [] then [] else
    (if Passes(wheres, NavigationField(m, db, base, rows[0]), d) then [rows[0]] else [])
      + PassingRows(m, db, base, rows[1..], wheres, d)
  }

  ghost predicate Registered(r: Resolver, wheres: seq<Q>) {
    forall i, k :: 0 <= i < |wheres| && k in Keys(wheres[i]) ==> k.path in r.cache
  }

  lemma {:induction false} KeptAreThePassing(m: Models, db: Database, base: string, r: Resolver,
                                             envs: seq<Env>, rows: seq<Row>, wheres: seq<Q>, where: Option<Pred>,
                                             d: Dialect)
    requires base in m && |envs| == |rows|
    requires forall i :: 0 <= i < |rows| ==> Mirrors(m, db, base, r, envs[i], rows[i])
    requires forall i :: 0 <= i < |rows| ==>
      (Keeps(where, EnvCells(envs[i]), d) <==> Passes(wheres, NavigationField(m, db, base, rows[i]), d))
    ensures var kept, passing := KeptEnvs(envs, where, d), PassingRows(m, db, base, rows, wheres, d);
      |kept| == |passing| && forall i :: 0 <= i < |kept| ==> Mirrors(m, db, base, r, kept[i], passing[i])
  {
    if rows != [] {
      KeptAreThePassing(m, db, base, r, envs[1..], rows[1..], wheres, where, d);
    }
  }

  /** A joined SELECT returns, and `COUNT(*)` counts, exactly the base rows whose navigated fields
      pass the filters; each returned row shows its base row and everything it navigates to. */
  lemma JoinedQueryMeansNavigation(m: Models, db: Database, base: string, r: Resolver, wheres: seq<Q>, d: Dialect)
    requires Good(m, base, r) && UniquePrimaryKeys(m, db) && BaseIsNoAlias(m, base, r)
    requires Like.KeepsSpecials(d.strLower) && Registered(r, wheres)
    ensures var c := WhereClause(wheres, RefsOf(r), d);
      var read := ParseWhere(c.sql, 0, c.params, 0);
      && read.Done?
      && var kept := KeptEnvs(From(m, base, r.joins, db), read.tree, d);
      && var passing := PassingRows(m, db, base, TableRows(db, m[base].table), wheres, d);
      && |kept| == |passing|
      && forall i :: 0 <= i < |kept| ==> Mirrors(m, db, base, r, kept[i], passing[i])
  {
    OneJoinedRowPerBaseRow(m, db, base, r);
    var rows, envs := TableRows(db, m[base].table), From(m, base, r.joins, db);
    var c := WhereClause(wheres, RefsOf(r), d);
    WhereReads(wheres, RefsOf(r), d, c.sql, 0, c.params, 0);
    var where := WhereTree(wheres, RefsOf(r), d);
    forall i | 0 <= i < |rows|
      ensures Keeps(where, EnvCells(envs[i]), d) <==> Passes(wheres, NavigationField(m, db, base, rows[i]), d)
    {
      assert Mirrors(m, db, base, r, envs[i], rows[i]);
      WhereMeansFilters(wheres, RefsOf(r), EnvCells(envs[i]), NavigationField(m, db, base, rows[i]), d);
    }
    KeptAreThePassing(m, db, base, r, envs, rows, wheres, where, d);
  }
}
