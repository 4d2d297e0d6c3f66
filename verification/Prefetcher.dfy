/** The prefetch methods as they run: they fill caches on the instances of one query. */
module Prefetcher {
  import opened Basics
  import opened Prefetch

  class Instance {
    const pk: Option<int>
    const fk: Option<int>
    var related: Option<Option<Obj>>
    var children: Option<Table>
    var tags: Option<Table>

    constructor (pk: Option<int>, fk: Option<int>)
      ensures this.pk == pk && this.fk == fk && related == None && children == None && tags == None
    {
      this.pk, this.fk := pk, fk;
      related, children, tags := None, None, None;
    }

    /** The foreign key descriptor: the cache, or a query whose answer is cached. */
    method Related(target: Table) returns (r: Outcome)
      modifies this`related
      ensures r == if old(related).Some? then Got(old(related).value) else LazyFk(target, fk)
      ensures related == if r.Got? then Some(r.value) else old(related)
    {
      if related.Some? { return Got(related.value); }
      r := LazyFk(target, fk);
      if r.Got? { related := Some(r.value); }
    }

    method Children(source: Table) returns (r: Table)
      ensures r == if children.Some? then children.value else LazyReverse(source, pk)
    {
      r := if children.Some? then children.value else LazyReverse(source, pk);
    }

    method Tags(target: Table, through: seq<(int, int)>) returns (r: Table)
      ensures r == if tags.Some? then tags.value else LazyM2m(target, through, pk)
    {
      r := if tags.Some? then tags.value else LazyM2m(target, through, pk);
    }
  }

  /** The dictionary of a query's objects. */
  method Dictionary(found: Table) returns (objmap: map<int, Obj>)
    ensures objmap == ByPk(found)
  {
    objmap := map[];
    for i := 0 to |found|
      invariant objmap == ByPk(found[..i])
    {
      assert found[..i + 1][..i] == found[..i];
      objmap := objmap[found[i].pk := found[i]];
    }
    assert found[..|found|] == found;
  }

  /** Fetching only the wanted keys loses none of them. */
  lemma {:induction false} WantedKept(t: Table, keys: set<int>, k: int)
    requires UniquePks(t) && k in keys
    ensures Get(ByPk(WithPk(t, keys)), Some(k)) == Get(ByPk(t), Some(k))
  {
    var found := WithPk(t, keys);
    ByPkMeans(t, k);
    ByPkMeans(found, k);
    if k in ByPk(t) {
      WithPkMeans(t, keys, ByPk(t)[k]);
    }
    if k in ByPk(found) {
      WithPkMeans(t, keys, ByPk(found)[k]);
      UniqueObject(t, ByPk(t)[k], ByPk(found)[k]);
    }
  }

  /** `_prefetch_fk`: one query for all the keys, then one lookup for each instance. */
  method PrefetchFk(instances: seq<Instance>, target: Table)
    requires UniquePks(target)
    modifies set i | i in instances :: i`related
    ensures forall i :: i in instances ==> i.related == Some(EagerFk(target, i.fk))
  {
    var ids := set i | i in instances && i.fk.Some? :: i.fk.value;
    var objmap := map[];
    if ids != {} { objmap := Dictionary(WithPk(target, ids)); }
    for k := 0 to |instances|
      invariant forall j :: 0 <= j < k ==> instances[j].related == Some(EagerFk(target, instances[j].fk))
    {
      var inst := instances[k];
      assert inst in instances;
      if inst.fk.Some? {
        assert inst.fk.value in ids;
        WantedKept(target, ids, inst.fk.value);
      }
      inst.related := Some(Get(objmap, inst.fk));
    }
  }

  /** Objects grouped by their foreign key, in the order they came. */
  function Group(found: Table, k: int): Table { WithFk(found, {k}) }

  lemma GroupGrows(found: Table, o: Obj, k: int)
    ensures Group(found + [o], k) == Group(found, k) + if o.fk == Some(k) then [o] else []
  {
    WithFkAppend(found, [o], {k});
    WithFkOne(o, k);
  }

  lemma {:induction false} WithFkKeyed(t: Table, keys: set<int>)
    ensures forall o :: o in WithFk(t, keys) ==> o.fk.Some? && o.fk.value in keys
  {
    if t != [] { WithFkKeyed(t[1..], keys); }
  }

  /** The dictionary of groups that a batch of related objects makes. */
  method Groups(found: Table) returns (groups: map<int, Table>)
    requires forall o :: o in found ==> o.fk.Some?
    ensures forall k :: (if k in groups then groups[k] else []) == Group(found, k)
  {
    groups := map[];
    for i := 0 to |found|
      invariant forall k :: (if k in groups then groups[k] else []) == Group(found[..i], k)
    {
      var o := found[i];
      assert o in found && found[..i + 1] == found[..i] + [o];
      forall k ensures Group(found[..i + 1], k) == Group(found[..i], k) + if o.fk == Some(k) then [o] else [] {
        GroupGrows(found[..i], o, k);
      }
      var k := o.fk.value;
      groups := groups[k := (if k in groups then groups[k] else []) + [o]];
    }
    assert found[..|found|] == found;
  }

  /** `_prefetch_reverse_fk`: one ordered query, split by key without reordering. */
  method PrefetchReverse(instances: seq<Instance>, source: Table)
    modifies set i | i in instances :: i`children
    ensures forall i :: i in instances ==> i.children == Some(LazyReverse(source, i.pk))
  {
    var pks := set i | i in instances && i.pk.Some? :: i.pk.value;
    var related := [];
    if pks != {} { related := WithFk(source, pks); }
    WithFkKeyed(source, pks);
    var groups := Groups(related);
    for n := 0 to |instances|
      invariant forall j :: 0 <= j < n ==> instances[j].children == Some(LazyReverse(source, instances[j].pk))
    {
      var inst := instances[n];
      assert inst in instances;
      var mine := [];
      if inst.pk.Some? {
        var k := inst.pk.value;
        assert k in pks;
        WithFkTwice(source, pks, k);
        assert (if k in groups then groups[k] else []) == Group(related, k);
        if k in groups { mine := groups[k]; }
      }
      inst.children := Some(mine);
    }
  }

  // ---------------------------------------------------------------- many to many

  /** `SELECT source, target ... WHERE source IN (...)`. */
  function PairsOf(through: seq<(int, int)>, pks: set<int>): seq<(int, int)> {
    if through == [] then [] else (if through[0].0 in pks then [through[0]] else []) + PairsOf(through[1..], pks)
  }

  lemma {:induction false} PairsKeepIds(through: seq<(int, int)>, pks: set<int>, pk: int)
    requires pk in pks
    ensures TargetIds(PairsOf(through, pks), Some(pk)) == TargetIds(through, Some(pk))
  {
    if through != [] {
      PairsKeepIds(through[1..], pks, pk);
      var rest := PairsOf(through[1..], pks);
      if through[0].0 in pks {
        assert ([through[0]] + rest)[1..] == rest;
      } else {
        assert [] + rest == rest && [] + TargetIds(through[1..], Some(pk)) == TargetIds(through[1..], Some(pk));
      }
    }
  }

  lemma IdsGrow(pairs: seq<(int, int)>, p: (int, int), pk: Option<int>)
    ensures TargetIds(pairs + [p], pk) == TargetIds(pairs, pk) + if pk == Some(p.0) then [p.1] else []
  {
    TargetIdsAppend(pairs, [p], pk);
    assert TargetIds([p], pk) == if pk == Some(p.0) then [p.1] else [];
  }

  ghost predicate Grouped(groups: map<int, seq<int>>, pairs: seq<(int, int)>) {
    forall k :: (if k in groups then groups[k] else []) == TargetIds(pairs, Some(k))
  }

  lemma GroupedNext(groups: map<int, seq<int>>, pairs: seq<(int, int)>, p: (int, int))
    requires Grouped(groups, pairs)
    ensures Grouped(groups[p.0 := (if p.0 in groups then groups[p.0] else []) + [p.1]], pairs + [p])
  {
    hide TargetIds;
    forall k ensures TargetIds(pairs + [p], Some(k)) == TargetIds(pairs, Some(k)) + if p.0 == k then [p.1] else [] {
      IdsGrow(pairs, p, Some(k));
    }
  }

  /** The target keys of each source key, and all of them together. */
  method GroupPairs(pairs: seq<(int, int)>) returns (groups: map<int, seq<int>>, targets: set<int>)
    ensures Grouped(groups, pairs) && forall p :: p in pairs ==> p.1 in targets
  {
    groups, targets := map[], {};
    for i := 0 to |pairs|
      invariant Grouped(groups, pairs[..i])
      invariant forall j :: 0 <= j < i ==> pairs[j].1 in targets
    {
      hide Grouped;
      var p := pairs[i];
      assert pairs[..i + 1] == pairs[..i] + [p];
      GroupedNext(groups, pairs[..i], p);
      groups := groups[p.0 := (if p.0 in groups then groups[p.0] else []) + [p.1]];
      targets := targets + {p.1};
    }
    assert pairs[..|pairs|] == pairs;
  }

  lemma {:induction false} PickAgrees(a: map<int, Obj>, b: map<int, Obj>, ids: seq<int>)
    requires forall i :: 0 <= i < |ids| ==> Get(a, Some(ids[i])) == Get(b, Some(ids[i]))
    ensures Pick(a, ids) == Pick(b, ids)
  {
    if ids != [] {
      assert Get(a, Some(ids[0])) == Get(b, Some(ids[0]));
      forall i | 0 <= i < |ids[1..]| ensures Get(a, Some(ids[1..][i])) == Get(b, Some(ids[1..][i])) {
        assert ids[1..][i] == ids[i + 1];
      }
      PickAgrees(a, b, ids[1..]);
    }
  }

  /** The objects fetched for a whole batch serve each instance of it. */
  lemma BatchServes(target: Table, pairs: seq<(int, int)>, targets: set<int>, pk: int)
    requires UniquePks(target) && forall p :: p in pairs ==> p.1 in targets
    ensures Pick(ByPk(WithPk(target, targets)), TargetIds(pairs, Some(pk))) ==
      Pick(ByPk(target), TargetIds(pairs, Some(pk)))
  {
    var ids := TargetIds(pairs, Some(pk));
    forall i | 0 <= i < |ids|
      ensures Get(ByPk(WithPk(target, targets)), Some(ids[i])) == Get(ByPk(target), Some(ids[i]))
    {
      TargetIdsMeans(pairs, pk, ids[i]);
      assert (pk, ids[i]).1 in targets;
      WantedKept(target, targets, ids[i]);
    }
    PickAgrees(ByPk(WithPk(target, targets)), ByPk(target), ids);
  }

  /** What the batch gives one of its instances. */
  lemma BatchGives(target: Table, through: seq<(int, int)>, pks: set<int>, groups: map<int, seq<int>>,
                   targets: set<int>, k: int)
    requires UniquePks(target) && k in pks && Grouped(groups, PairsOf(through, pks))
    requires forall p :: p in PairsOf(through, pks) ==> p.1 in targets
    ensures (if k in groups then Pick(ByPk(WithPk(target, targets)), groups[k]) else []) ==
      EagerM2m(target, through, Some(k))
  {
    hide TargetIds;
    hide PairsOf;
    PairsKeepIds(through, pks, k);
    BatchServes(target, PairsOf(through, pks), targets, k);
    assert (if k in groups then groups[k] else []) == TargetIds(through, Some(k));
  }

  lemma NoKeyGivesNothing(target: Table, through: seq<(int, int)>)
    ensures EagerM2m(target, through, None) == []
  {
    NoKeyNoTargets(through);
  }

  /** `_prefetch_m2m`: the pairs of all instances, then the targets of all pairs. */
  method PrefetchM2m(instances: seq<Instance>, target: Table, through: seq<(int, int)>)
    requires UniquePks(target)
    modifies set i | i in instances :: i`tags
    ensures forall i :: i in instances ==> i.tags == Some(EagerM2m(target, through, i.pk))
  {
    var pks := set i | i in instances && i.pk.Some? :: i.pk.value;
    NoKeyGivesNothing(target, through);
    var groups, objmap: map<int, Obj> := map[], map[];
    ghost var targets := {};
    if pks != {} {
      var g, t := GroupPairs(PairsOf(through, pks));
      groups, targets := g, t;
      objmap := Dictionary(WithPk(target, t));
    }
    for n := 0 to |instances|
      invariant forall j :: 0 <= j < n ==> instances[j].tags == Some(EagerM2m(target, through, instances[j].pk))
    {
      hide *;
      var inst := instances[n];
      assert inst in instances;
      var mine := [];
      if inst.pk.Some? {
        var k := inst.pk.value;
        assert k in pks;
        BatchGives(target, through, pks, groups, targets, k);
        if k in groups { mine := Pick(objmap, groups[k]); }
      }
      inst.tags := Some(mine);
    }
  }
}
