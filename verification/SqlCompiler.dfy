/** The compiler as it runs: a resolver whose joins and cache grow while `compile_q` walks a tree,
    and the loops that collect fragments and parameters. */
module SqlCompiler {
  import opened Basics
  import opened SqlLanguage
  import opened QueryCompiler
  import opened Statements
  import J = RelationJoins
  import Like

  class RelationResolver {
    const models: J.Models
    const base: string
    var joins: seq<J.JoinClause>
    var counter: nat
    var cache: map<J.Path, J.Ref>
    var order: seq<J.Path>

    function View(): J.Resolver
      reads this
    {
      J.Resolver(joins, counter, cache, order)
    }

    constructor (models: J.Models, base: string)
      requires base in models
      ensures this.models == models && this.base == base && View() == J.Start(models, base)
      ensures J.Good(models, base, View())
    {
      this.models, this.base := models, base;
      joins, counter, order := [], 0, [];
      cache := map[[] := J.Ref(models[base].table, base)];
    }

    /** `follow`: cached, or the parent first and then one more join. */
    method Follow(parts: J.Path) returns (ref: Option<J.Ref>)
      requires J.Good(models, base, View())
      modifies this
      ensures (View(), ref) == J.Follow(models, old(View()), parts)
      ensures J.Good(models, base, View())
      decreases |parts|
    {
      J.FollowKeepsGood(models, base, View(), parts);
      if parts in cache { return Some(cache[parts]); }
      if parts == [] { return None; }
      var parent := Follow(parts[..|parts| - 1]);
      if parent.None? { return None; }
      var name := parts[|parts| - 1];
      if parent.value.model !in models || name !in models[parent.value.model].fks { return None; }
      var fk := models[parent.value.model].fks[name];
      if fk.to !in models { return None; }
      counter := counter + 1;
      var alias := J.Alias(counter);
      joins := joins + [J.JoinClause(models[fk.to].table, alias, ColRef(parent.value.name, fk.column),
        models[fk.to].pk)];
      cache := cache[parts := J.Ref(alias, fk.to)];
      order := order + [parts];
      ref := Some(cache[parts]);
    }
  }

  // ---------------------------------------------------------------- the order of registration

  /** The relation paths of a tree in the order `compile_q` meets them. */
  function Paths(q: Q): seq<J.Path>
    decreases q
  {
    PathsOf(q.children)
  }

  function PathsOf(cs: seq<Child>): seq<J.Path>
    decreases cs
  {
    if cs == [] then [] else
    var c := cs[0];
    (match c case Sub(q) => assert q < c; Paths(q) case Leaf(key, _) => [key.path]) + PathsOf(cs[1..])
  }

  lemma {:induction false} KeysHavePaths(q: Q, k: Key)
    requires k in Keys(q)
    ensures k.path in Paths(q)
    decreases q
  {
    KeysOfHavePaths(q.children, k);
  }

  lemma {:induction false} KeysOfHavePaths(cs: seq<Child>, k: Key)
    requires k in KeysOf(cs)
    ensures k.path in PathsOf(cs)
    decreases cs
  {
    var c := cs[0];
    if k in KeysOf(cs[1..]) {
      KeysOfHavePaths(cs[1..], k);
    } else if c.Sub? {
      assert c.q < c;
      KeysHavePaths(c.q, k);
    }
  }

  lemma {:induction false} FollowAllAppend(m: J.Models, r: J.Resolver, a: seq<J.Path>, b: seq<J.Path>)
    ensures J.FollowAll(m, r, a + b) ==
      (var (r1, ok) := J.FollowAll(m, r, a); if ok then J.FollowAll(m, r1, b) else (r1, false))
    decreases |a|
  {
    if a == [] {
      assert a + b == b;
    } else {
      assert (a + b)[1..] == a[1..] + b;
      FollowAllAppend(m, J.Follow(m, r, a[0]).0, a[1..], b);
    }
  }

  /** Text compiled early in the walk stays right: later registrations never rename a path. */
  lemma {:induction false} CompiledTextIsStable(q: Q, r1: Key -> ColRef, r2: Key -> ColRef, d: Dialect)
    requires forall k :: k in Keys(q) ==> r1(k) == r2(k)
    ensures QueryCompiler.CompileQ(q, r1, d) == QueryCompiler.CompileQ(q, r2, d)
    decreases q
  {
    ChildrenTextIsStable(q.children, r1, r2, d);
  }

  lemma {:induction false} ChildrenTextIsStable(cs: seq<Child>, r1: Key -> ColRef, r2: Key -> ColRef, d: Dialect)
    requires forall k :: k in KeysOf(cs) ==> r1(k) == r2(k)
    ensures CompileChildren(cs, r1, d) == CompileChildren(cs, r2, d)
    decreases cs
  {
    if cs != [] {
      var c := cs[0];
      ChildrenTextIsStable(cs[1..], r1, r2, d);
      if c.Sub? {
        assert c.q < c;
        CompiledTextIsStable(c.q, r1, r2, d);
      }
    }
  }

  lemma {:induction false} CompileChildrenAppend(a: seq<Child>, c: Child, refs: Key -> ColRef, d: Dialect)
    ensures CompileChildren(a + [c], refs, d) == CompileChildren(a, refs, d) + CompileChildren([c], refs, d)
    ensures KeysOf(a + [c]) == KeysOf(a) + KeysOf([c])
  {
    if a == [] {
      assert a + [c] == [c];
    } else {
      assert (a + [c])[1..] == a[1..] + [c];
      CompileChildrenAppend(a[1..], c, refs, d);
    }
  }

  lemma {:induction false} ParamsAppend(a: seq<Compiled>, b: seq<Compiled>)
    ensures Params(a + b) == Params(a) + Params(b)
  {
    if a == [] {
      assert a + b == b;
    } else {
      assert (a + b)[1..] == a[1..] + b;
      ParamsAppend(a[1..], b);
    }
  }

  // ---------------------------------------------------------------- the collecting loops

  /** `sep.join(texts)`. */
  function JoinTexts(texts: seq<seq<Token>>, sep: Token): seq<Token> {
    if texts == [] then [] else if |texts| == 1 then texts[0] else texts[0] + ([sep] + JoinTexts(texts[1..], sep))
  }

  /** The two lists a loop has built are the texts and the parameters of these fragments. */
  ghost predicate Collected(texts: seq<seq<Token>>, params: seq<Value>, parts: seq<Compiled>) {
    && |texts| == |parts| && (forall i :: 0 <= i < |parts| ==> texts[i] == parts[i].sql)
    && params == Params(parts)
  }

  lemma {:induction false} CollectedJoins(texts: seq<seq<Token>>, parts: seq<Compiled>, sep: Token)
    requires |texts| == |parts| && forall i :: 0 <= i < |parts| ==> texts[i] == parts[i].sql
    ensures JoinTexts(texts, sep) == Join(parts, sep)
  {
    if |parts| > 1 { CollectedJoins(texts[1..], parts[1..], sep); }
  }

  lemma CollectOne(texts: seq<seq<Token>>, params: seq<Value>, parts: seq<Compiled>, c: Compiled)
    requires Collected(texts, params, parts)
    ensures Collected(texts + [c.sql], params + c.params, parts + [c])
  {
    ParamsAppend(parts, [c]);
    assert Params([c]) == c.params;
  }

  function Refs(resolver: RelationResolver?): Key -> ColRef
    reads resolver
  {
    if resolver == null then PlainRef else J.RefsOf(resolver.View())
  }

  ghost predicate ResolverOk(resolver: RelationResolver?)
    reads resolver
  {
    resolver != null ==> J.Good(resolver.models, resolver.base, resolver.View())
  }

  /** One turn of the loop in `compile_q`, as far as the fragments go. */
  lemma ChildCollected(cs: seq<Child>, i: nat, before: Key -> ColRef, after: Key -> ColRef, part: Compiled, d: Dialect)
    requires i < |cs| && forall k :: k in KeysOf(cs[..i]) ==> before(k) == after(k)
    requires CompileChildren([cs[i]], after, d) == if part.sql == [] then [] else [part]
    ensures CompileChildren(cs[..i + 1], after, d) ==
      CompileChildren(cs[..i], before, d) + if part.sql == [] then [] else [part]
    ensures KeysOf(cs[..i + 1]) == KeysOf(cs[..i]) + KeysOf([cs[i]])
  {
    ChildrenTextIsStable(cs[..i], before, after, d);
    CompileChildrenAppend(cs[..i], cs[i], after, d);
    assert cs[..i + 1] == cs[..i] + [cs[i]];
  }

  /** The same turn, as far as the joins go: this child's paths, then the others'. */
  lemma ChildRegistered(m: J.Models, base: string, r: J.Resolver, cs: seq<Child>, i: nat)
    requires i < |cs| && J.Good(m, base, r)
    ensures var (r1, ok) := J.FollowAll(m, r, PathsOf([cs[i]]));
      && J.Extends(r, r1)
      && J.FollowAll(m, r, PathsOf(cs[i..])) == if ok then J.FollowAll(m, r1, PathsOf(cs[i + 1..])) else (r1, false)
  {
    assert cs[i..][1..] == cs[i + 1..] && cs[i..][0] == cs[i];
    assert PathsOf([cs[i]]) + PathsOf(cs[i + 1..]) == PathsOf(cs[i..]) by {
      var c := cs[i];
      var own := match c case Sub(q) => Paths(q) case Leaf(key, _) => [key.path];
      assert [c][1..] == [] && PathsOf([c]) == own + [] == own;
    }
    FollowAllAppend(m, r, PathsOf([cs[i]]), PathsOf(cs[i + 1..]));
    J.FollowAllKeepsGood(m, base, r, PathsOf([cs[i]]));
  }

  /** `compile_q`; `None` is the FieldError of an unknown relation. Joins registered on the way stay
      in the resolver. */
  method CompileQ(q: Q, resolver: RelationResolver?, d: Dialect) returns (c: Option<Compiled>)
    requires ResolverOk(resolver)
    modifies resolver
    ensures ResolverOk(resolver) && (resolver == null ==> c.Some?)
    ensures resolver != null ==>
      (resolver.View(), c.Some?) == J.FollowAll(resolver.models, old(resolver.View()), Paths(q))
    ensures c.Some? ==> c.value == QueryCompiler.CompileQ(q, Refs(resolver), d)
    ensures c.Some? ==> AllRegistered(resolver, Keys(q))
    decreases q, 1
  {
    ghost var start := if resolver == null then J.Resolver([], 0, map[], []) else resolver.View();
    var texts: seq<seq<Token>> := [];
    var params: seq<Value> := [];
    ghost var parts: seq<Compiled> := [];
    var i := 0;
    assert q.children[0..] == q.children;
    while i < |q.children|
      invariant 0 <= i <= |q.children| && ResolverOk(resolver)
      invariant Collected(texts, params, parts)
      invariant parts == CompileChildren(q.children[..i], Refs(resolver), d)
      invariant AllRegistered(resolver, KeysOf(q.children[..i]))
      invariant resolver != null ==>
        J.FollowAll(resolver.models, start, Paths(q)) ==
          J.FollowAll(resolver.models, resolver.View(), PathsOf(q.children[i..]))
    {
      ghost var before := Refs(resolver);
      if resolver != null { ChildRegistered(resolver.models, resolver.base, resolver.View(), q.children, i); }
      assert q.children[i] < q;
      var part := Fragment(q.children[i], resolver, d);
      if part.None? { return None; }
      ChildCollected(q.children, i, before, Refs(resolver), part.value, d);
      if part.value.sql != [] {
        CollectOne(texts, params, parts, part.value);
        texts, params := texts + [part.value.sql], params + part.value.params;
        parts := parts + [part.value];
      }
      i := i + 1;
    }
    assert q.children[..i] == q.children;
    c := Some(Finish(q, texts, params, parts));
  }

  /** The end of `compile_q`, on its two lists. */
  function Finish(q: Q, texts: seq<seq<Token>>, params: seq<Value>, ghost parts: seq<Compiled>): (c: Compiled)
    requires Collected(texts, params, parts)
    ensures c == Assemble(q, parts)
  {
    CollectedJoins(texts, parts, Kw(q.connector));
    if texts == [] then Compiled([], []) else
    var joined := JoinTexts(texts, Kw(q.connector));
    Compiled(if q.negated then [NotKw, LParen] + (joined + [RParen]) else joined, params)
  }

  /** One child of a tree: a parenthesised subtree, nothing for an empty one, or an operator. */
  method Fragment(child: Child, resolver: RelationResolver?, d: Dialect) returns (part: Option<Compiled>)
    requires ResolverOk(resolver)
    modifies resolver
    ensures ResolverOk(resolver) && (resolver == null ==> part.Some?)
    ensures resolver != null ==>
      (resolver.View(), part.Some?) == J.FollowAll(resolver.models, old(resolver.View()), PathsOf([child]))
    ensures part.Some? ==>
      CompileChildren([child], Refs(resolver), d) == if part.value.sql == [] then [] else [part.value]
    ensures part.Some? ==> AllRegistered(resolver, KeysOf([child]))
    decreases child, 0
  {
    match child {
      case Sub(q) =>
        assert q < child;
        assert Paths(q) + [] == Paths(q);
        var sub := CompileQ(q, resolver, d);
        if sub.None? { return None; }
        part := Some(if sub.value.sql == [] then Compiled([], []) else Wrap(sub.value));
      case Leaf(key, lookup) =>
        if resolver == null { return Some(OperatorSql(PlainRef(key), lookup, d)); }
        J.FollowKeepsGood(resolver.models, resolver.base, resolver.View(), key.path);
        var ref := resolver.Follow(key.path);
        if ref.None? { return None; }
        part := Some(OperatorSql(ColRef(ref.value.name, key.column), lookup, d));
    }
  }

  ghost predicate AllRegistered(resolver: RelationResolver?, keys: set<Key>)
    reads resolver
  {
    resolver != null ==> forall k :: k in keys ==> k.path in resolver.cache
  }

  /** The relation paths of all filters, in order. */
  function WherePaths(wheres: seq<Q>): seq<J.Path> {
    if wheres == [] then [] else Paths(wheres[0]) + WherePaths(wheres[1..])
  }

  /** `_where_clause`. */
  method WhereClause(wheres: seq<Q>, resolver: RelationResolver?, d: Dialect) returns (c: Option<Compiled>)
    requires ResolverOk(resolver)
    modifies resolver
    ensures ResolverOk(resolver) && (resolver == null ==> c.Some?)
    ensures resolver != null ==>
      (resolver.View(), c.Some?) == J.FollowAll(resolver.models, old(resolver.View()), WherePaths(wheres))
    ensures c.Some? ==> c.value == QueryCompiler.WhereClause(wheres, Refs(resolver), d)
    ensures c.Some? ==> forall q :: q in wheres ==> AllRegistered(resolver, Keys(q))
  {
    ghost var start := if resolver == null then J.Resolver([], 0, map[], []) else resolver.View();
    var texts: seq<seq<Token>> := [];
    var params: seq<Value> := [];
    ghost var parts: seq<Compiled> := [];
    var i := 0;
    assert wheres[0..] == wheres;
    while i < |wheres|
      invariant 0 <= i <= |wheres| && ResolverOk(resolver)
      invariant Collected(texts, params, parts)
      invariant parts == WhereParts(wheres[..i], Refs(resolver), d)
      invariant forall q :: q in wheres[..i] ==> AllRegistered(resolver, Keys(q))
      invariant resolver != null ==>
        J.FollowAll(resolver.models, start, WherePaths(wheres)) ==
          J.FollowAll(resolver.models, resolver.View(), WherePaths(wheres[i..]))
    {
      ghost var before := Refs(resolver);
      if resolver != null { WhereRegistered(resolver.models, resolver.base, resolver.View(), wheres, i); }
      var node := CompileQ(wheres[i], resolver, d);
      if node.None? { return None; }
      WhereCollected(wheres, i, before, Refs(resolver), d);
      if node.value.sql != [] {
        var part := Wrap(node.value);
        CollectOne(texts, params, parts, part);
        texts, params := texts + [part.sql], params + part.params;
        parts := parts + [part];
      }
      i := i + 1;
    }
    assert wheres[..i] == wheres;
    if texts == [] { return Some(Compiled([], [])); }
    CollectedJoins(texts, parts, AndKw);
    c := Some(Compiled([WhereKw] + JoinTexts(texts, AndKw), params));
  }

  lemma WhereRegistered(m: J.Models, base: string, r: J.Resolver, wheres: seq<Q>, i: nat)
    requires i < |wheres| && J.Good(m, base, r)
    ensures var (r1, ok) := J.FollowAll(m, r, Paths(wheres[i]));
      && J.Extends(r, r1)
      && J.FollowAll(m, r, WherePaths(wheres[i..])) ==
        if ok then J.FollowAll(m, r1, WherePaths(wheres[i + 1..])) else (r1, false)
  {
    assert wheres[i..][1..] == wheres[i + 1..] && wheres[i..][0] == wheres[i];
    FollowAllAppend(m, r, Paths(wheres[i]), WherePaths(wheres[i + 1..]));
    J.FollowAllKeepsGood(m, base, r, Paths(wheres[i]));
  }

  lemma WhereCollected(wheres: seq<Q>, i: nat, before: Key -> ColRef, after: Key -> ColRef, d: Dialect)
    requires i < |wheres| && forall q, k :: q in wheres[..i] && k in Keys(q) ==> before(k) == after(k)
    ensures var c := QueryCompiler.CompileQ(wheres[i], after, d);
      WhereParts(wheres[..i + 1], after, d) ==
        WhereParts(wheres[..i], before, d) + if c.sql == [] then [] else [Wrap(c)]
    ensures forall q :: q in wheres[..i + 1] <==> q in wheres[..i] || q == wheres[i]
  {
    WherePartsStable(wheres[..i], before, after, d);
    WherePartsAppend(wheres[..i], wheres[i], after, d);
    assert wheres[..i + 1] == wheres[..i] + [wheres[i]];
  }

  lemma {:induction false} WherePartsStable(wheres: seq<Q>, r1: Key -> ColRef, r2: Key -> ColRef, d: Dialect)
    requires forall q, k :: q in wheres && k in Keys(q) ==> r1(k) == r2(k)
    ensures WhereParts(wheres, r1, d) == WhereParts(wheres, r2, d)
  {
    if wheres != [] {
      CompiledTextIsStable(wheres[0], r1, r2, d);
      WherePartsStable(wheres[1..], r1, r2, d);
    }
  }

  lemma {:induction false} WherePartsAppend(wheres: seq<Q>, q: Q, refs: Key -> ColRef, d: Dialect)
    ensures WhereParts(wheres + [q], refs, d) == WhereParts(wheres, refs, d) + WhereParts([q], refs, d)
  {
    if wheres == [] {
      assert wheres + [q] == [q];
    } else {
      assert (wheres + [q])[1..] == wheres[1..] + [q];
      WherePartsAppend(wheres[1..], q, refs, d);
    }
  }

  /** `update`; `None` is the FieldError for an empty assignment list. */
  method Update(table: string, sets: seq<Assignment>, wheres: seq<Q>, d: Dialect) returns (c: Option<Compiled>)
    ensures c == UpdateSql(table, sets, wheres, d)
  {
    if sets == [] { return None; }
    var texts: seq<seq<Token>> := [];
    var params: seq<Value> := [];
    ghost var parts: seq<Compiled> := [];
    var i := 0;
    while i < |sets|
      invariant 0 <= i <= |sets| && Collected(texts, params, parts) && parts == SetParts(sets[..i])
    {
      var part := SetPart(sets[i]);
      SetPartsAppend(sets[..i], sets[i]);
      assert sets[..i + 1] == sets[..i] + [sets[i]];
      CollectOne(texts, params, parts, part);
      texts, params := texts + [part.sql], params + part.params;
      parts := parts + [part];
      i := i + 1;
    }
    assert sets[..i] == sets;
    CollectedJoins(texts, parts, Comma);
    var w := WhereClause(wheres, null, d);
    c := Some(Compiled([UpdateKw, Name(table), SetKw] + (JoinTexts(texts, Comma) + w.value.sql),
      params + w.value.params));
  }

  lemma {:induction false} SetPartsAppend(sets: seq<Assignment>, a: Assignment)
    ensures SetParts(sets + [a]) == SetParts(sets) + [SetPart(a)]
  {
    if sets == [] {
      assert sets + [a] == [a];
    } else {
      assert (sets + [a])[1..] == sets[1..] + [a];
      SetPartsAppend(sets[1..], a);
    }
  }

  /** `aggregate`, from ready-made fragments. */
  method Aggregate(table: string, frags: seq<Compiled>, wheres: seq<Q>, d: Dialect) returns (c: Compiled)
    ensures c == AggregateSql(table, frags, wheres, d)
  {
    var params: seq<Value> := [];
    var i := 0;
    while i < |frags|
      invariant 0 <= i <= |frags| && params == Params(frags[..i])
    {
      ParamsAppend(frags[..i], [frags[i]]);
      assert frags[..i + 1] == frags[..i] + [frags[i]] && Params([frags[i]]) == frags[i].params;
      params := params + frags[i].params;
      i := i + 1;
    }
    assert frags[..i] == frags;
    var w := WhereClause(wheres, null, d);
    c := Compiled([SelectKw] + (Join(frags, Comma) + ([FromKw, Name(table)] + w.value.sql)), params + w.value.params);
  }

  /** `count_joined`: compile the filters, then join whatever they registered. Run on any database,
      it counts the base rows whose navigated fields pass. `None` is the FieldError. */
  method CountJoined(models: J.Models, base: string, wheres: seq<Q>, d: Dialect)
    returns (joins: seq<J.JoinClause>, where: Option<Compiled>)
    requires base in models && Like.KeepsSpecials(d.strLower)
    ensures where.Some? <==> forall p :: p in WherePaths(wheres) ==> J.Target(models, base, p).Some?
    ensures where.Some? && (forall k :: 1 <= k <= |joins| ==> models[base].table != J.Alias(k)) ==>
      var read := ParseWhere(where.value.sql, 0, where.value.params, 0);
      && read.Done?
      && forall db: J.Database :: J.UniquePrimaryKeys(models, db) ==>
           |J.KeptEnvs(J.From(models, base, joins, db), read.tree, d)| ==
           |J.PassingRows(models, db, base, J.TableRows(db, models[base].table), wheres, d)|
  {
    var resolver := new RelationResolver(models, base);
    J.FollowAllFindsTargets(models, base, resolver.View(), WherePaths(wheres));
    where := WhereClause(wheres, resolver, d);
    joins := resolver.joins;
    if where.Some? && forall k :: 1 <= k <= |joins| ==> models[base].table != J.Alias(k) {
      ghost var r := resolver.View();
      WhereReads(wheres, J.RefsOf(r), d, where.value.sql, 0, where.value.params, 0);
      forall db: J.Database | J.UniquePrimaryKeys(models, db)
        ensures |J.KeptEnvs(J.From(models, base, joins, db),
          ParseWhere(where.value.sql, 0, where.value.params, 0).tree, d)| ==
          |J.PassingRows(models, db, base, J.TableRows(db, models[base].table), wheres, d)|
      {
        J.JoinedQueryMeansNavigation(models, db, base, r, wheres, d);
      }
    }
  }
}
