/** Eager loading: one batched query per relation, against one lazy query per instance. */
module Prefetch {
  import opened Basics

  /** A hydrated row: its key, one foreign key, and the rest. */
  datatype Obj = Obj(pk: int, fk: Option<int>, rest: string)

  /** A table stands for its rows in the order the model's queries return them. */
  type Table = seq<Obj>

  ghost predicate UniquePks(t: Table) { forall i, j :: 0 <= i < j < |t| ==> t[i].pk != t[j].pk }

  /** `filter(pk__in=keys)`. */
  function WithPk(t: Table, keys: set<int>): Table {
    if t == [] then [] else (if t[0].pk in keys then [t[0]] else []) + WithPk(t[1..], keys)
  }

  /** `filter(fk__in=keys)`. */
  function WithFk(t: Table, keys: set<int>): Table {
    if t == [] then [] else (if t[0].fk.Some? && t[0].fk.value in keys then [t[0]] else []) + WithFk(t[1..], keys)
  }

  // ---------------------------------------------------------------- lazy loading

  datatype Outcome = Got(value: Option<Obj>) | DoesNotExist | MultipleObjects

  /** The foreign key descriptor, without a cache: `objects.get(pk=id)`. */
  function LazyFk(target: Table, fk: Option<int>): Outcome {
    if fk.None? then Got(None) else
    var found := WithPk(target, {fk.value});
    if |found| == 0 then DoesNotExist else if |found| == 1 then Got(Some(found[0])) else MultipleObjects
  }

  /** The reverse accessor: `filter(fk=instance)`; an unsaved instance matches nothing. */
  function LazyReverse(source: Table, pk: Option<int>): Table {
    if pk.None? then [] else WithFk(source, {pk.value})
  }

  /** The target keys of one instance's rows in the through table. */
  function TargetIds(through: seq<(int, int)>, pk: Option<int>): seq<int> {
    if through == [] then [] else
    (if pk == Some(through[0].0) then [through[0].1] else []) + TargetIds(through[1..], pk)
  }

  function Keys(ids: seq<int>): set<int> { set x | x in ids }

  /** `ManyRelatedManager.all`. */
  function LazyM2m(target: Table, through: seq<(int, int)>, pk: Option<int>): Table {
    WithPk(target, Keys(TargetIds(through, pk)))
  }

  // ---------------------------------------------------------------- what eager loading attaches

  /** A dictionary of objects by key: the last one with a key wins. */
  function ByPk(t: Table): map<int, Obj> {
    if t == [] then map[] else ByPk(t[..|t| - 1])[t[|t| - 1].pk := t[|t| - 1]]
  }

  function Get(objmap: map<int, Obj>, key: Option<int>): Option<Obj> {
    if key.Some? && key.value in objmap then Some(objmap[key.value]) else None
  }

  function EagerFk(target: Table, fk: Option<int>): Option<Obj> { Get(ByPk(target), fk) }

  /** The objects for some keys, in that order, unknown keys left out. */
  function Pick(objmap: map<int, Obj>, ids: seq<int>): Table {
    if ids == [] then [] else (if ids[0] in objmap then [objmap[ids[0]]] else []) + Pick(objmap, ids[1..])
  }

  function EagerM2m(target: Table, through: seq<(int, int)>, pk: Option<int>): Table {
    Pick(ByPk(target), TargetIds(through, pk))
  }

  // ---------------------------------------------------------------- foreign keys

  lemma {:induction false} WithPkMeans(t: Table, keys: set<int>, o: Obj)
    ensures o in WithPk(t, keys) <==> o in t && o.pk in keys
    ensures |WithPk(t, keys)| > 0 <==> exists i :: 0 <= i < |t| && t[i].pk in keys
  {
    if t != [] {
      WithPkMeans(t[1..], keys, o);
      assert o in t <==> o == t[0] || o in t[1..];
      if i :| 0 <= i < |t| && t[i].pk in keys && i > 0 { assert t[1..][i - 1].pk in keys; }
      if i :| 0 <= i < |t[1..]| && t[1..][i].pk in keys { assert t[i + 1].pk in keys; }
    }
  }

  lemma {:induction false} UniqueMeansOne(t: Table, k: int)
    requires UniquePks(t)
    ensures |WithPk(t, {k})| <= 1
  {
    if t != [] {
      assert UniquePks(t[1..]);
      UniqueMeansOne(t[1..], k);
      if t[0].pk == k {
        WithPkMeans(t[1..], {k}, t[0]);
      }
    }
  }

  lemma {:induction false} ByPkMeans(t: Table, k: int)
    ensures k in ByPk(t) <==> exists i :: 0 <= i < |t| && t[i].pk == k
    ensures k in ByPk(t) ==> ByPk(t)[k] in t && ByPk(t)[k].pk == k
  {
    if t != [] {
      var rest, last := t[..|t| - 1], t[|t| - 1];
      ByPkMeans(rest, k);
      assert t == rest + [last];
      if i :| 0 <= i < |rest| && rest[i].pk == k { assert t[i].pk == k; }
      if i :| 0 <= i < |t| && t[i].pk == k && i < |rest| { assert rest[i].pk == k; }
      assert last.pk == k ==> t[|t| - 1].pk == k;
    }
  }

  lemma UniqueObject(t: Table, a: Obj, b: Obj)
    requires UniquePks(t) && a in t && b in t && a.pk == b.pk
    ensures a == b
  {
    var i :| 0 <= i < |t| && t[i] == a;
    var j :| 0 <= j < |t| && t[j] == b;
    if i < j { assert false; }
    if j < i { assert false; }
  }

  /** Main result: eager and lazy foreign objects are the same exactly when the key does not dangle;
      a dangling key is an error when loaded lazily and None when loaded eagerly. */
  lemma EagerFkIsLazy(target: Table, fk: Option<int>)
    requires UniquePks(target)
    ensures LazyFk(target, fk) == Got(EagerFk(target, fk)) <==>
      fk.None? || exists i :: 0 <= i < |target| && target[i].pk == fk.value
    ensures LazyFk(target, fk) == Got(EagerFk(target, fk)) ||
      (LazyFk(target, fk) == DoesNotExist && EagerFk(target, fk) == None)
  {
    if fk.Some? {
      var k, found := fk.value, WithPk(target, {fk.value});
      ByPkMeans(target, k);
      UniqueMeansOne(target, k);
      WithPkMeans(target, {k}, Obj(k, None, ""));
      if k in ByPk(target) {
        WithPkMeans(target, {k}, ByPk(target)[k]);
        var i :| 0 <= i < |target| && target[i].pk == k;
        assert target[i].pk in {k};
        UniqueObject(target, ByPk(target)[k], found[0]);
      }
    }
  }

  // ---------------------------------------------------------------- reverse foreign keys

  /** Narrowing the batch to one key gives that key's own query, in the same order. */
  lemma {:induction false} WithFkTwice(t: Table, keys: set<int>, k: int)
    requires k in keys
    ensures WithFk(WithFk(t, keys), {k}) == WithFk(t, {k})
  {
    if t != [] {
      WithFkTwice(t[1..], keys, k);
      var rest := WithFk(t[1..], keys);
      if t[0].fk.Some? && t[0].fk.value in keys {
        assert ([t[0]] + rest)[1..] == rest;
      } else {
        assert [] + rest == rest && [] + WithFk(t[1..], {k}) == WithFk(t[1..], {k});
      }
    }
  }

  // ---------------------------------------------------------------- many to many

  lemma {:induction false} PickMeans(objmap: map<int, Obj>, ids: seq<int>, o: Obj)
    ensures o in Pick(objmap, ids) <==> exists i :: 0 <= i < |ids| && ids[i] in objmap && objmap[ids[i]] == o
  {
    if ids != [] {
      PickMeans(objmap, ids[1..], o);
      if i :| 0 <= i < |ids[1..]| && ids[1..][i] in objmap && objmap[ids[1..][i]] == o { assert ids[i + 1] in objmap; }
      if i :| 0 <= i < |ids| && ids[i] in objmap && objmap[ids[i]] == o && i > 0 { assert ids[1..][i - 1] in objmap; }
      if ids[0] in objmap && objmap[ids[0]] == o { assert ids[0] in objmap; }
    }
  }

  /** Main result: eager and lazy many-to-many lists hold the same objects. */
  lemma EagerM2mIsLazy(target: Table, through: seq<(int, int)>, pk: Option<int>, o: Obj)
    requires UniquePks(target)
    ensures o in EagerM2m(target, through, pk) <==> o in LazyM2m(target, through, pk)
  {
    var ids := TargetIds(through, pk);
    PickMeans(ByPk(target), ids, o);
    WithPkMeans(target, Keys(ids), o);
    ByPkMeans(target, o.pk);
    if o in target && o.pk in ids {
      var j :| 0 <= j < |target| && target[j] == o;
      assert target[j].pk == o.pk;
      UniqueObject(target, o, ByPk(target)[o.pk]);
      var i :| 0 <= i < |ids| && ids[i] == o.pk;
      assert ids[i] in ByPk(target);
    }
    if i :| 0 <= i < |ids| && ids[i] in ByPk(target) && ByPk(target)[ids[i]] == o { ByPkMeans(target, ids[i]); }
  }

  lemma {:induction false} TargetIdsMeans(through: seq<(int, int)>, pk: int, t: int)
    ensures t in TargetIds(through, Some(pk)) <==> (pk, t) in through
  {
    if through != [] {
      TargetIdsMeans(through[1..], pk, t);
      assert (pk, t) in through <==> (pk, t) == through[0] || (pk, t) in through[1..];
    }
  }

  lemma {:induction false} TargetIdsDistinct(through: seq<(int, int)>, pk: Option<int>)
    requires Distinct(through)
    ensures Distinct(TargetIds(through, pk))
  {
    if through != [] {
      assert Distinct(through[1..]);
      TargetIdsDistinct(through[1..], pk);
      if pk == Some(through[0].0) { TargetIdsMeans(through[1..], through[0].0, through[0].1); }
    }
  }

  lemma {:induction false} PickDistinct(target: Table, ids: seq<int>)
    requires Distinct(ids)
    ensures Distinct(Pick(ByPk(target), ids))
  {
    if ids != [] {
      assert Distinct(ids[1..]);
      PickDistinct(target, ids[1..]);
      if ids[0] in ByPk(target) {
        var o := ByPk(target)[ids[0]];
        ByPkMeans(target, ids[0]);
        PickMeans(ByPk(target), ids[1..], o);
        forall i | 0 <= i < |ids[1..]| && ids[1..][i] in ByPk(target) ensures ByPk(target)[ids[1..][i]] != o {
          ByPkMeans(target, ids[1..][i]);
          assert ids[1..][i] == ids[i + 1];
        }
      }
    }
  }

  lemma {:induction false} WithPkDistinct(t: Table, keys: set<int>)
    requires UniquePks(t)
    ensures Distinct(WithPk(t, keys))
  {
    if t != [] {
      assert UniquePks(t[1..]);
      WithPkDistinct(t[1..], keys);
      WithPkMeans(t[1..], keys, t[0]);
    }
  }

  /** With the through table's composite key, neither list repeats an object, so they are the same
      list up to order: through-table order against the target's own. */
  lemma NoneTwice(target: Table, through: seq<(int, int)>, pk: Option<int>)
    requires UniquePks(target) && Distinct(through)
    ensures Distinct(EagerM2m(target, through, pk)) && Distinct(LazyM2m(target, through, pk))
  {
    TargetIdsDistinct(through, pk);
    PickDistinct(target, TargetIds(through, pk));
    WithPkDistinct(target, Keys(TargetIds(through, pk)));
  }

  // ---------------------------------------------------------------- in the rows' own terms

  /** The eager foreign object is the row with that key. */
  lemma FkMeans(target: Table, fk: Option<int>, o: Obj)
    requires UniquePks(target)
    ensures EagerFk(target, fk) == Some(o) <==> o in target && fk == Some(o.pk)
  {
    if fk.Some? {
      ByPkMeans(target, fk.value);
      if o in target && fk == Some(o.pk) {
        var i :| 0 <= i < |target| && target[i] == o;
        assert target[i].pk == fk.value;
        UniqueObject(target, o, ByPk(target)[fk.value]);
      }
    }
  }

  lemma {:induction false} WithFkAppend(a: Table, b: Table, keys: set<int>)
    ensures WithFk(a + b, keys) == WithFk(a, keys) + WithFk(b, keys)
  {
    if a == [] {
      assert a + b == b;
    } else {
      assert (a + b)[1..] == a[1..] + b && (a + b)[0] == a[0];
      WithFkAppend(a[1..], b, keys);
    }
  }

  /** The reverse accessor of an instance: of one row itself if the row points there, and of a table the rows'
      in the table's order. */
  lemma ReverseMeans(a: Table, o: Obj, b: Table, pk: Option<int>)
    ensures LazyReverse([o], pk) == if pk.Some? && o.fk == pk then [o] else []
    ensures LazyReverse([], pk) == []
    ensures LazyReverse(a + b, pk) == LazyReverse(a, pk) + LazyReverse(b, pk)
  {
    if pk.Some? {
      WithFkAppend(a, b, {pk.value});
      WithFkOne(o, pk.value);
    }
  }

  lemma WithFkOne(o: Obj, k: int)
    ensures WithFk([o], {k}) == if o.fk == Some(k) then [o] else []
  {
    assert [o][1..] == [] && WithFk([], {k}) == [];
    assert [o] + [] == [o];
  }

  /** The lazy many-to-many list holds the rows that the through table pairs with the instance. */
  lemma M2mMeans(target: Table, through: seq<(int, int)>, pk: Option<int>, o: Obj)
    ensures o in LazyM2m(target, through, pk) <==> o in target && pk.Some? && (pk.value, o.pk) in through
  {
    var ids := TargetIds(through, pk);
    WithPkMeans(target, Keys(ids), o);
    if pk.Some? { TargetIdsMeans(through, pk.value, o.pk); } else { NoKeyNoTargets(through); }
  }

  lemma {:induction false} NoKeyNoTargets(through: seq<(int, int)>)
    ensures TargetIds(through, None) == []
  {
    if through != [] { NoKeyNoTargets(through[1..]); }
  }

  lemma {:induction false} TargetIdsAppend(a: seq<(int, int)>, b: seq<(int, int)>, pk: Option<int>)
    ensures TargetIds(a + b, pk) == TargetIds(a, pk) + TargetIds(b, pk)
  {
    if a == [] {
      assert a + b == b;
    } else {
      var own := if pk == Some(a[0].0) then [a[0].1] else [];
      assert TargetIds(a + b, pk) == own + TargetIds(a[1..] + b, pk) by {
        assert (a + b)[1..] == a[1..] + b && (a + b)[0] == a[0];
      }
      assert TargetIds(a, pk) == own + TargetIds(a[1..], pk);
      hide TargetIds;
      TargetIdsAppend(a[1..], b, pk);
    }
  }

  lemma {:induction false} PickAppend(objmap: map<int, Obj>, a: seq<int>, b: seq<int>)
    ensures Pick(objmap, a + b) == Pick(objmap, a) + Pick(objmap, b)
  {
    if a == [] {
      assert a + b == b;
    } else {
      assert (a + b)[1..] == a[1..] + b && (a + b)[0] == a[0];
      PickAppend(objmap, a[1..], b);
    }
  }

  /** And the eager one in the through table's order. */
  lemma EagerM2mInOrder(target: Table, a: seq<(int, int)>, b: seq<(int, int)>, pk: Option<int>)
    ensures EagerM2m(target, a + b, pk) == EagerM2m(target, a, pk) + EagerM2m(target, b, pk)
  {
    TargetIdsAppend(a, b, pk);
    PickAppend(ByPk(target), TargetIds(a, pk), TargetIds(b, pk));
  }
}
