/** Dependency injection: memoised resolution against plain evaluation. */
module Dependencies {
  import opened Basics

  /** Values as terms: equal terms are equal values for functions that depend on their arguments only. */
  datatype Value = Scope(id: int) | Text(text: string) | Const(n: int) | Made(func: string, args: seq<Value>)

  datatype Param = Param(name: string, annotation: Option<string>, depends: Option<string>, default_: Option<Value>)

  datatype Provider = Provider(factory: string, singleton: bool)

  datatype App = App(funcs: map<string, seq<Param>>, byType: map<string, Provider>, byName: map<string, Provider>)

  /** One request or one websocket. */
  datatype Context = Context(request: Value, socket: Value, pathParams: map<string, string>)

  // ---------------------------------------------------------------- where a parameter comes from

  datatype Source = Depends(f: string) | Given(value: Value) | Provided(f: string, singleton: bool) | Unresolved

  function GetProvider(app: App, p: Param): Option<Provider> {
    if p.annotation.Some? && p.annotation.value in app.byType then Some(app.byType[p.annotation.value])
    else if p.name in app.byName then Some(app.byName[p.name])
    else None
  }

  /** The resolution rules, in order. */
  function SourceOf(app: App, c: Context, p: Param): Source {
    if p.depends.Some? then Depends(p.depends.value)
    else if p.name == "request" || p.annotation == Some("Request") then Given(c.request)
    else if p.name == "websocket" || p.annotation == Some("WebSocket") then Given(c.socket)
    else if p.name in c.pathParams then Given(Text(c.pathParams[p.name]))
    else if GetProvider(app, p).Some? then
      Provided(GetProvider(app, p).value.factory, GetProvider(app, p).value.singleton)
    else if p.default_.Some? then Given(p.default_.value)
    else Unresolved
  }

  /** Every function a parameter may need is declared and ranks below the one that needs it. */
  ghost predicate Acyclic(app: App, rank: map<string, nat>) {
    forall f :: f in app.funcs ==> f in rank && forall i :: 0 <= i < |app.funcs[f]| ==>
      ParamBelow(app, rank, f, app.funcs[f][i])
  }

  ghost predicate ParamBelow(app: App, rank: map<string, nat>, f: string, p: Param)
    requires f in rank
  {
    && (p.depends.Some? ==> Below(app, rank, f, p.depends.value))
    && (GetProvider(app, p).Some? ==> Below(app, rank, f, GetProvider(app, p).value.factory))
  }

  ghost predicate Below(app: App, rank: map<string, nat>, f: string, g: string)
    requires f in rank
  {
    g in app.funcs && g in rank && rank[g] < rank[f]
  }

  // ---------------------------------------------------------------- evaluation

  /** The values of singleton factories that an application remembers between requests. */
  type Table = map<string, Value>

  /** Calling `f` with every parameter evaluated afresh, except for the singletons in `m`; `None` when
      some parameter is unresolved. */
  ghost function EvalWith(app: App, rank: map<string, nat>, m: Table, c: Context, f: string): Option<Value>
    requires Acyclic(app, rank) && f in app.funcs
    decreases rank[f], |app.funcs[f]| + 1
  {
    var args := ArgsWith(app, rank, m, c, f, |app.funcs[f]|);
    if args.None? then None else Some(Made(f, args.value))
  }

  ghost function ArgsWith(app: App, rank: map<string, nat>, m: Table, c: Context, f: string, n: nat): Option<seq<Value>>
    requires Acyclic(app, rank) && f in app.funcs && n <= |app.funcs[f]|
    decreases rank[f], n
  {
    if n == 0 then Some([]) else
    var before := ArgsWith(app, rank, m, c, f, n - 1);
    if before.None? then None else
    assert ParamBelow(app, rank, f, app.funcs[f][n - 1]);
    var value := ParamWith(app, rank, m, c, f, app.funcs[f][n - 1]);
    if value.None? then None else Some(before.value + [value.value])
  }

  ghost function ParamWith(app: App, rank: map<string, nat>, m: Table, c: Context, f: string, p: Param): Option<Value>
    requires Acyclic(app, rank) && f in app.funcs && ParamBelow(app, rank, f, p)
    decreases rank[f], 0
  {
    match SourceOf(app, c, p)
    case Depends(g) => EvalWith(app, rank, m, c, g)
    case Provided(g, singleton) => if singleton && g in m then Some(m[g]) else EvalWith(app, rank, m, c, g)
    case Given(v) => Some(v)
    case Unresolved => None
  }

  /** Plain evaluation: nothing is remembered. */
  ghost function Eval(app: App, rank: map<string, nat>, c: Context, f: string): Option<Value>
    requires Acyclic(app, rank) && f in app.funcs
  {
    EvalWith(app, rank, map[], c, f)
  }

  /** The singleton factories that evaluating the first `n` parameters of `f` calls. */
  ghost function Met(app: App, rank: map<string, nat>, m: Table, c: Context, f: string, n: nat): set<string>
    requires Acyclic(app, rank) && f in app.funcs && n <= |app.funcs[f]|
    decreases rank[f], n
  {
    if n == 0 then {} else
    assert ParamBelow(app, rank, f, app.funcs[f][n - 1]);
    Met(app, rank, m, c, f, n - 1) + MetParam(app, rank, m, c, f, app.funcs[f][n - 1])
  }

  ghost function MetParam(app: App, rank: map<string, nat>, m: Table, c: Context, f: string, p: Param): set<string>
    requires Acyclic(app, rank) && f in app.funcs && ParamBelow(app, rank, f, p)
    decreases rank[f], 0
  {
    match SourceOf(app, c, p)
    case Depends(g) => MetBy(app, rank, m, c, g)
    case Provided(g, singleton) =>
      if singleton && g in m then {} else (if singleton then {g} else {}) + MetBy(app, rank, m, c, g)
    case Given(_) => {}
    case Unresolved => {}
  }

  ghost function MetBy(app: App, rank: map<string, nat>, m: Table, c: Context, f: string): set<string>
    requires Acyclic(app, rank) && f in app.funcs
    decreases rank[f], |app.funcs[f]| + 1
  {
    Met(app, rank, m, c, f, |app.funcs[f]|)
  }

  // ---------------------------------------------------------------- the memoising resolver

  /** What resolving parameters of `f` adds to the keys of the cache, and of the table: functions ranking
      below `f`, to the table only singletons of `met`, and all of them when `done`. */
  ghost predicate Progress(cache: set<string>, table: set<string>, cache': set<string>, table': set<string>,
                           rank: map<string, nat>, f: string, met: set<string>, done: bool)
    requires f in rank
  {
    && cache <= cache' && table <= table' <= table + met && (done ==> met <= table')
    && (forall g :: g in cache' - cache ==> g in rank && rank[g] < rank[f])
    && (forall g :: g in table' - table ==> g in rank && rank[g] < rank[f])
  }

  lemma ProgressMore(c0: set<string>, t0: set<string>, c1: set<string>, t1: set<string>,
                     c2: set<string>, t2: set<string>,
                     rank: map<string, nat>, f: string, met: set<string>, one: set<string>, done: bool)
    requires f in rank
    requires Progress(c0, t0, c1, t1, rank, f, met, true) && Progress(c1, t1, c2, t2, rank, f, one, done)
    ensures Progress(c0, t0, c2, t2, rank, f, met + one, done)
  {
  }

  lemma ProgressPart(c0: set<string>, t0: set<string>, c1: set<string>, t1: set<string>,
                     rank: map<string, nat>, f: string, met: set<string>, more: set<string>)
    requires f in rank && met <= more && Progress(c0, t0, c1, t1, rank, f, met, false)
    ensures Progress(c0, t0, c1, t1, rank, f, more, false)
  {
  }

  /** Resolution for one request: its own cache, and the application's singletons, of which `before`
      were there when it came. `runs` and `built` count the calls of dependencies and of singleton
      factories in this request. */
  class Resolver {
    const app: App
    const c: Context
    ghost const rank: map<string, nat>
    ghost const before: Table
    var cache: map<string, Value>
    var singletons: Table
    ghost var runs: multiset<string>
    ghost var built: multiset<string>

    /** Whatever is remembered is what evaluation with the earlier table gives, and was computed once. */
    ghost predicate Valid()
      reads this
    {
      Acyclic(app, rank) && CacheOk() && TableOk()
    }

    ghost predicate CacheOk()
      requires Acyclic(app, rank)
      reads this`cache, this`singletons, this`runs
    {
      && (forall f :: f in cache ==> Remembers(f, cache, singletons.Keys))
      && (forall f :: runs[f] == if f in cache then 1 else 0)
    }

    ghost predicate TableOk()
      requires Acyclic(app, rank)
      reads this`singletons, this`built
    {
      && (forall g :: g in before ==> g in singletons && singletons[g] == before[g])
      && (forall g :: g in singletons && g !in before ==> Remembers(g, singletons, singletons.Keys))
      && (forall g :: built[g] == if g in singletons && g !in before then 1 else 0)
    }

    ghost predicate Remembers(f: string, values: map<string, Value>, table: set<string>)
      requires Acyclic(app, rank) && f in values
    {
      f in app.funcs && EvalWith(app, rank, before, c, f) == Some(values[f]) && MetBy(app, rank, before, c, f) <= table
    }

    constructor (app: App, c: Context, ghost rank: map<string, nat>, singletons: Table)
      requires Acyclic(app, rank)
      ensures Valid() && this.app == app && this.c == c && this.rank == rank &&
        before == this.singletons == singletons && cache == map[]
    {
      this.app, this.c, this.rank, this.before := app, c, rank, singletons;
      this.cache, this.singletons := map[], singletons;
      runs, built := multiset{}, multiset{};
    }

    lemma Ranked(f: string)
      requires Valid() && f in app.funcs
      ensures Acyclic(app, rank) && f in rank && before.Keys <= singletons.Keys
    {
    }

    /** `solve`: the arguments of `f`, and every singleton met on the way remembered. */
    method Solve(f: string) returns (args: Option<seq<Value>>)
      requires Valid() && f in app.funcs
      modifies this
      ensures Valid() && args == ArgsWith(app, rank, before, c, f, |app.funcs[f]|)
      ensures Progress(old(cache.Keys), old(singletons.Keys), cache.Keys, singletons.Keys, rank, f,
        MetBy(app, rank, before, c, f), args.Some?)
      decreases rank[f], 2
    {
      hide *;
      ghost var c0, t0, n := cache.Keys, singletons.Keys, |app.funcs[f]|;
      Ranked(f);
      NothingYet(app, rank, before, c, f, c0, t0);
      args := Some([]);
      for i := 0 to |app.funcs[f]|
        invariant Valid() && args.Some? && ArgsWith(app, rank, before, c, f, i) == args
        invariant Progress(c0, t0, cache.Keys, singletons.Keys, rank, f, Met(app, rank, before, c, f, i), true)
      {
        ghost var c1, t1 := cache.Keys, singletons.Keys;
        args := SolveNext(f, i, args.value, c0, t0);
        if args.None? {
          Stopped(app, rank, before, c, f, i + 1, n);
          ProgressPart(c0, t0, cache.Keys, singletons.Keys, rank, f, Met(app, rank, before, c, f, i + 1),
            Met(app, rank, before, c, f, n));
          return;
        }
      }
    }

    /** One parameter more. */
    method SolveNext(f: string, i: nat, got: seq<Value>, ghost c0: set<string>, ghost t0: set<string>)
      returns (more: Option<seq<Value>>)
      requires Valid() && f in app.funcs && i < |app.funcs[f]| && ArgsWith(app, rank, before, c, f, i) == Some(got)
      requires Progress(c0, t0, cache.Keys, singletons.Keys, rank, f, Met(app, rank, before, c, f, i), true)
      modifies this
      ensures Valid() && more == ArgsWith(app, rank, before, c, f, i + 1)
      ensures Progress(c0, t0, cache.Keys, singletons.Keys, rank, f, Met(app, rank, before, c, f, i + 1), more.Some?)
      decreases rank[f], 1
    {
      ghost var c1, t1 := cache.Keys, singletons.Keys;
      ghost var met, one := Met(app, rank, before, c, f, i), MetParam(app, rank, before, c, f, app.funcs[f][i]);
      assert Met(app, rank, before, c, f, i + 1) == met + one;
      assert f in rank && Acyclic(app, rank);
      hide Acyclic;
      hide Valid;
      hide EvalWith;
      hide MetParam;
      hide Met;
      hide ParamWith;
      hide Progress;
      var value := Resolve(f, app.funcs[f][i]);
      more := if value.None? then None else Some(got + [value.value]);
      ProgressMore(c0, t0, c1, t1, cache.Keys, singletons.Keys, rank, f, met, one, value.Some?);
    }

    /** `_resolve`. */
    method Resolve(ghost f: string, p: Param) returns (value: Option<Value>)
      requires Valid() && f in app.funcs && ParamBelow(app, rank, f, p)
      modifies this
      ensures Valid() && value == ParamWith(app, rank, before, c, f, p)
      ensures Progress(old(cache.Keys), old(singletons.Keys), cache.Keys, singletons.Keys, rank, f,
        MetParam(app, rank, before, c, f, p), value.Some?)
      decreases rank[f], 0
    {
      hide Valid;
      hide EvalWith;
      hide MetBy;
      hide GetProvider;
      match SourceOf(app, c, p)
      case Depends(g) => value := ResolveDepends(g);
      case Provided(g, singleton) => value := ResolveProvider(g, singleton);
      case Given(v) => value := Some(v);
      case Unresolved => value := None;
    }

    /** `_resolve_depends`: at most one call for each dependency of the request. */
    method ResolveDepends(g: string) returns (value: Option<Value>)
      requires Valid() && g in app.funcs
      modifies this
      ensures Valid() && value == EvalWith(app, rank, before, c, g)
      ensures Progress(old(cache.Keys) + {g}, old(singletons.Keys), cache.Keys + {g}, singletons.Keys, rank, g,
        MetBy(app, rank, before, c, g), value.Some?)
      ensures old(cache.Keys) <= cache.Keys
      decreases rank[g], 3
    {
      hide Valid;
      hide Remembers;
      hide Acyclic;
      Ranked(g);
      if g in cache {
        Seen(g);
        return Some(cache[g]);
      }
      var args := Solve(g);
      if args.None? { return None; }
      value := Some(Made(g, args.value));
      Keep(g, value.value);
    }

    lemma Seen(g: string)
      requires Valid() && g in cache
      ensures g in app.funcs && EvalWith(app, rank, before, c, g) == Some(cache[g])
      ensures MetBy(app, rank, before, c, g) <= singletons.Keys
    {
    }

    /** The dependency has just been called. */
    method Keep(g: string, value: Value)
      requires Valid() && g in app.funcs && g !in cache && EvalWith(app, rank, before, c, g) == Some(value)
      requires MetBy(app, rank, before, c, g) <= singletons.Keys
      modifies this`cache, this`runs
      ensures Valid() && cache == old(cache)[g := value]
    {
      hide Acyclic;
      hide Remembers;
      hide TableOk;
      ghost var was, table := cache, singletons.Keys;
      cache := cache[g := value];
      runs := runs + multiset{g};
      forall f | f in cache ensures Remembers(f, cache, table) {
        if f == g { Learns(g, cache, table); } else { StillRemembers(f, was, table, cache, table); }
      }
    }

    lemma Learns(f: string, values: map<string, Value>, table: set<string>)
      requires Acyclic(app, rank) && f in app.funcs && f in values
      requires EvalWith(app, rank, before, c, f) == Some(values[f]) && MetBy(app, rank, before, c, f) <= table
      ensures Remembers(f, values, table)
    {
    }

    lemma StillRemembers(f: string, was: map<string, Value>, table: set<string>, now: map<string, Value>,
                         more: set<string>)
      requires Acyclic(app, rank) && f in was && f in now && now[f] == was[f] && table <= more
      requires Remembers(f, was, table)
      ensures Remembers(f, now, more)
    {
    }

    /** `_resolve_provider`: a singleton factory is called when the table does not have it, and then it
        has. */
    method ResolveProvider(g: string, singleton: bool) returns (value: Option<Value>)
      requires Valid() && g in app.funcs
      modifies this
      ensures Valid()
      ensures value == if singleton && g in before then Some(before[g]) else EvalWith(app, rank, before, c, g)
      ensures var met := if singleton && g in before then {}
        else (if singleton then {g} else {}) + MetBy(app, rank, before, c, g);
        old(singletons.Keys) <= singletons.Keys <= old(singletons.Keys) + met &&
          (value.Some? ==> met <= singletons.Keys)
      ensures forall h :: h in cache && h !in old(cache) ==> h in rank && rank[h] < rank[g]
      ensures forall h :: h in singletons && h !in old(singletons) ==> h == g || (h in rank && rank[h] < rank[g])
      ensures old(cache).Keys <= cache.Keys
      decreases rank[g], 3
    {
      hide Valid;
      hide Remembers;
      hide Acyclic;
      Ranked(g);
      if singleton && g in singletons {
        Recalled(g);
        return Some(singletons[g]);
      }
      var args := Solve(g);
      if args.None? { return None; }
      value := Some(Made(g, args.value));
      if singleton { Remember(g, value.value); }
    }

    lemma Recalled(g: string)
      requires Valid() && g in singletons && g in app.funcs
      ensures Some(singletons[g]) == if g in before then Some(before[g]) else EvalWith(app, rank, before, c, g)
      ensures g !in before ==> MetBy(app, rank, before, c, g) <= singletons.Keys
    {
    }

    /** The factory has just been called. */
    method Remember(g: string, value: Value)
      requires Valid() && g in app.funcs && g !in singletons && EvalWith(app, rank, before, c, g) == Some(value)
      requires MetBy(app, rank, before, c, g) <= singletons.Keys
      modifies this`singletons, this`built
      ensures Valid() && singletons == old(singletons)[g := value]
    {
      hide Acyclic;
      hide Remembers;
      ghost var was := singletons;
      singletons := singletons[g := value];
      built := built + multiset{g};
      assert Acyclic(app, rank) && was.Keys <= singletons.Keys && before.Keys <= was.Keys;
      forall f | f in cache ensures Remembers(f, cache, singletons.Keys) {
        StillRemembers(f, cache, was.Keys, cache, singletons.Keys);
      }
      forall h | h in singletons && h !in before ensures Remembers(h, singletons, singletons.Keys) {
        if h == g {
          Learns(g, singletons, singletons.Keys);
        } else {
          StillRemembers(h, was, was.Keys, singletons, singletons.Keys);
        }
      }
    }
  }

  lemma {:induction false} NoneStays(app: App, rank: map<string, nat>, m: Table, c: Context, f: string, i: nat, n: nat)
    requires Acyclic(app, rank) && f in app.funcs && i <= n <= |app.funcs[f]| && ArgsWith(app, rank, m, c, f, i).None?
    ensures ArgsWith(app, rank, m, c, f, n).None?
    decreases n
  {
    if i < n { NoneStays(app, rank, m, c, f, i, n - 1); }
  }

  lemma NothingYet(app: App, rank: map<string, nat>, m: Table, c: Context, f: string, c0: set<string>, t0: set<string>)
    requires Acyclic(app, rank) && f in app.funcs && f in rank
    ensures ArgsWith(app, rank, m, c, f, 0) == Some([])
    ensures Progress(c0, t0, c0, t0, rank, f, Met(app, rank, m, c, f, 0), true)
    ensures MetBy(app, rank, m, c, f) == Met(app, rank, m, c, f, |app.funcs[f]|)
  {
  }

  lemma Stopped(app: App, rank: map<string, nat>, m: Table, c: Context, f: string, i: nat, n: nat)
    requires Acyclic(app, rank) && f in app.funcs && i <= n <= |app.funcs[f]| && ArgsWith(app, rank, m, c, f, i).None?
    ensures ArgsWith(app, rank, m, c, f, n).None? && Met(app, rank, m, c, f, i) <= Met(app, rank, m, c, f, n)
  {
    NoneStays(app, rank, m, c, f, i, n);
    MetGrows(app, rank, m, c, f, i, n);
  }

  lemma {:induction false} MetGrows(app: App, rank: map<string, nat>, m: Table, c: Context, f: string, i: nat, n: nat)
    requires Acyclic(app, rank) && f in app.funcs && i <= n <= |app.funcs[f]|
    ensures Met(app, rank, m, c, f, i) <= Met(app, rank, m, c, f, n)
    decreases n
  {
    if i < n { MetGrows(app, rank, m, c, f, i, n - 1); }
  }

  // ---------------------------------------------------------------- what evaluation depends on

  lemma Whole(app: App, rank: map<string, nat>, m: Table, c: Context, f: string)
    requires Acyclic(app, rank) && f in app.funcs
    ensures MetBy(app, rank, m, c, f) == Met(app, rank, m, c, f, |app.funcs[f]|)
    ensures EvalWith(app, rank, m, c, f).Some? <==> ArgsWith(app, rank, m, c, f, |app.funcs[f]|).Some?
  {
  }

  /** The arguments are the parameters' values, and all of them are there. */
  lemma {:induction false} ArgsAre(app: App, rank: map<string, nat>, m: Table, c: Context, f: string, n: nat)
    requires Acyclic(app, rank) && f in app.funcs && n <= |app.funcs[f]|
    ensures var args := ArgsWith(app, rank, m, c, f, n);
      args.Some? ==> |args.value| == n && forall i :: 0 <= i < n ==>
        ParamBelow(app, rank, f, app.funcs[f][i]) &&
          ParamWith(app, rank, m, c, f, app.funcs[f][i]) == Some(args.value[i])
    decreases n
  {
    if n > 0 { ArgsAre(app, rank, m, c, f, n - 1); }
  }

  lemma {:induction false} MetIs(app: App, rank: map<string, nat>, m: Table, c: Context, f: string, n: nat, g: string)
    requires Acyclic(app, rank) && f in app.funcs && n <= |app.funcs[f]|
    ensures g in Met(app, rank, m, c, f, n) <==> exists i :: 0 <= i < n && MeetsAt(app, rank, m, c, f, i, g)
    decreases n
  {
    if n > 0 {
      MetIs(app, rank, m, c, f, n - 1, g);
      assert ParamBelow(app, rank, f, app.funcs[f][n - 1]);
      assert g in MetParam(app, rank, m, c, f, app.funcs[f][n - 1]) <==> MeetsAt(app, rank, m, c, f, n - 1, g);
    }
  }

  ghost predicate MeetsAt(app: App, rank: map<string, nat>, m: Table, c: Context, f: string, i: nat, g: string)
    requires Acyclic(app, rank) && f in app.funcs && i < |app.funcs[f]|
  {
    ParamBelow(app, rank, f, app.funcs[f][i]) && g in MetParam(app, rank, m, c, f, app.funcs[f][i])
  }

  /** The remembered values of some singletons are the ones this request would compute. */
  ghost predicate Agrees(app: App, rank: map<string, nat>, m: Table, c: Context, met: set<string>)
    requires Acyclic(app, rank)
  {
    forall g :: g in met && g in m && g in app.funcs ==> Eval(app, rank, c, g) == Some(m[g])
  }

  /** With a table that agrees on what is met, evaluation is plain. */
  lemma {:induction false} AgreeingTable(app: App, rank: map<string, nat>, m: Table, c: Context, f: string, n: nat)
    requires Acyclic(app, rank) && f in app.funcs && n <= |app.funcs[f]|
    requires Agrees(app, rank, m, c, Met(app, rank, map[], c, f, n))
    ensures ArgsWith(app, rank, m, c, f, n) == ArgsWith(app, rank, map[], c, f, n)
    ensures n == |app.funcs[f]| ==> EvalWith(app, rank, m, c, f) == Eval(app, rank, c, f)
    decreases rank[f], n
  {
    if n > 0 {
      var p := app.funcs[f][n - 1];
      assert ParamBelow(app, rank, f, p);
      var met := Met(app, rank, map[], c, f, n);
      assert met == Met(app, rank, map[], c, f, n - 1) + MetParam(app, rank, map[], c, f, p);
      AgreeingTable(app, rank, m, c, f, n - 1);
      match SourceOf(app, c, p)
      case Depends(g) =>
        Whole(app, rank, map[], c, g);
        assert Met(app, rank, map[], c, g, |app.funcs[g]|) <= met;
        AgreeingTable(app, rank, m, c, g, |app.funcs[g]|);
      case Provided(g, singleton) =>
        Whole(app, rank, map[], c, g);
        assert Met(app, rank, map[], c, g, |app.funcs[g]|) <= met && (singleton ==> g in met);
        AgreeingTable(app, rank, m, c, g, |app.funcs[g]|);
      case _ =>
    }
  }

  /** Remembered values only mean that less is met. */
  lemma {:induction false} MetShrinks(app: App, rank: map<string, nat>, m: Table, c: Context, f: string, n: nat)
    requires Acyclic(app, rank) && f in app.funcs && n <= |app.funcs[f]|
    ensures Met(app, rank, m, c, f, n) <= Met(app, rank, map[], c, f, n)
    ensures n == |app.funcs[f]| ==> MetBy(app, rank, m, c, f) <= MetBy(app, rank, map[], c, f)
    decreases rank[f], n
  {
    if n > 0 {
      MetShrinks(app, rank, m, c, f, n - 1);
      var p := app.funcs[f][n - 1];
      assert ParamBelow(app, rank, f, p);
      match SourceOf(app, c, p)
      case Depends(g) => MetShrinks(app, rank, m, c, g, |app.funcs[g]|);
      case Provided(g, _) => MetShrinks(app, rank, m, c, g, |app.funcs[g]|);
      case _ =>
    }
  }

  /** What is met by something met is met. */
  lemma {:induction false} MetThrough(app: App, rank: map<string, nat>, c: Context, f: string, n: nat, g: string)
    requires Acyclic(app, rank) && f in app.funcs && n <= |app.funcs[f]| && g in Met(app, rank, map[], c, f, n)
    ensures g in app.funcs && MetBy(app, rank, map[], c, g) <= Met(app, rank, map[], c, f, n)
    decreases rank[f], n
  {
    var p := app.funcs[f][n - 1];
    assert ParamBelow(app, rank, f, p);
    if g in Met(app, rank, map[], c, f, n - 1) {
      MetThrough(app, rank, c, f, n - 1, g);
    } else {
      match SourceOf(app, c, p)
      case Depends(h) =>
        Whole(app, rank, map[], c, h);
        MetThrough(app, rank, c, h, |app.funcs[h]|, g);
      case Provided(h, _) =>
        Whole(app, rank, map[], c, h);
        if g != h { MetThrough(app, rank, c, h, |app.funcs[h]|, g); }
    }
  }

  /** Where a parameter comes from depends only on which path parameters there are. */
  ghost predicate SameRoute(a: Context, b: Context) { a.pathParams.Keys == b.pathParams.Keys }

  lemma {:induction false} RouteMeets(app: App, rank: map<string, nat>, a: Context, b: Context, f: string, n: nat)
    requires Acyclic(app, rank) && f in app.funcs && n <= |app.funcs[f]| && SameRoute(a, b)
    ensures Met(app, rank, map[], a, f, n) == Met(app, rank, map[], b, f, n)
    ensures n == |app.funcs[f]| ==> MetBy(app, rank, map[], a, f) == MetBy(app, rank, map[], b, f)
    decreases rank[f], n
  {
    if n > 0 {
      RouteMeets(app, rank, a, b, f, n - 1);
      var p := app.funcs[f][n - 1];
      assert ParamBelow(app, rank, f, p);
      match SourceOf(app, a, p)
      case Depends(g) => RouteMeets(app, rank, a, b, g, |app.funcs[g]|);
      case Provided(g, _) => RouteMeets(app, rank, a, b, g, |app.funcs[g]|);
      case _ =>
    }
  }

  lemma {:induction false} RouteSucceeds(app: App, rank: map<string, nat>, a: Context, b: Context, f: string, n: nat)
    requires Acyclic(app, rank) && f in app.funcs && n <= |app.funcs[f]| && SameRoute(a, b)
    ensures ArgsWith(app, rank, map[], a, f, n).Some? == ArgsWith(app, rank, map[], b, f, n).Some?
    ensures n == |app.funcs[f]| ==> Eval(app, rank, a, f).Some? == Eval(app, rank, b, f).Some?
    decreases rank[f], n
  {
    if n > 0 {
      RouteSucceeds(app, rank, a, b, f, n - 1);
      var p := app.funcs[f][n - 1];
      assert ParamBelow(app, rank, f, p);
      match SourceOf(app, a, p)
      case Depends(g) => RouteSucceeds(app, rank, a, b, g, |app.funcs[g]|);
      case Provided(g, _) => RouteSucceeds(app, rank, a, b, g, |app.funcs[g]|);
      case _ =>
    }
  }

  /** What a successful evaluation meets can itself be evaluated. */
  lemma {:induction false} MetSucceeds(app: App, rank: map<string, nat>, m: Table, c: Context, f: string, n: nat,
                                       g: string)
    requires Acyclic(app, rank) && f in app.funcs && n <= |app.funcs[f]|
    requires ArgsWith(app, rank, m, c, f, n).Some? && g in Met(app, rank, m, c, f, n)
    ensures g in app.funcs && EvalWith(app, rank, m, c, g).Some?
    decreases rank[f], n
  {
    var p := app.funcs[f][n - 1];
    assert ParamBelow(app, rank, f, p);
    if g in Met(app, rank, m, c, f, n - 1) {
      MetSucceeds(app, rank, m, c, f, n - 1, g);
    } else {
      match SourceOf(app, c, p)
      case Depends(h) =>
        Whole(app, rank, m, c, h);
        MetSucceeds(app, rank, m, c, h, |app.funcs[h]|, g);
      case Provided(h, _) =>
        Whole(app, rank, m, c, h);
        if g != h { MetSucceeds(app, rank, m, c, h, |app.funcs[h]|, g); }
    }
  }

  /** Where an argument comes from: `Depends`, then the request or websocket itself, then a path parameter, then
      the provider of the annotation, then that of the name, and a default only when there is none of them. */
  lemma ArgumentIs(app: App, rank: map<string, nat>, m: Table, c: Context, f: string, i: nat)
    requires Acyclic(app, rank) && f in app.funcs && i < |app.funcs[f]| && EvalWith(app, rank, m, c, f).Some?
    ensures var p, arg := app.funcs[f][i], ArgOf(app, rank, m, c, f, i);
      if p.depends.Some? then
        p.depends.value in app.funcs && EvalWith(app, rank, m, c, p.depends.value) == Some(arg)
      else if p.name == "request" || p.annotation == Some("Request") then arg == c.request
      else if p.name == "websocket" || p.annotation == Some("WebSocket") then arg == c.socket
      else if p.name in c.pathParams then arg == Text(c.pathParams[p.name])
      else if p.annotation.Some? && p.annotation.value in app.byType then
        FromProvider(app, rank, m, c, app.byType[p.annotation.value], arg)
      else if p.name in app.byName then FromProvider(app, rank, m, c, app.byName[p.name], arg)
      else p.default_ == Some(arg)
  {
    ArgsAre(app, rank, m, c, f, |app.funcs[f]|);
  }

  /** The argument that a function is called with. */
  ghost function ArgOf(app: App, rank: map<string, nat>, m: Table, c: Context, f: string, i: nat): Value
    requires Acyclic(app, rank) && f in app.funcs && i < |app.funcs[f]| && EvalWith(app, rank, m, c, f).Some?
  {
    ArgsAre(app, rank, m, c, f, |app.funcs[f]|);
    EvalWith(app, rank, m, c, f).value.args[i]
  }

  /** A value a provider gives: the remembered one of a singleton, else what its factory makes. */
  ghost predicate FromProvider(app: App, rank: map<string, nat>, m: Table, c: Context, pr: Provider, value: Value)
    requires Acyclic(app, rank)
  {
    if pr.singleton && pr.factory in m then value == m[pr.factory]
    else pr.factory in app.funcs && EvalWith(app, rank, m, c, pr.factory) == Some(value)
  }

  // ---------------------------------------------------------------- singletons that read the request

  /** Nothing `f` needs, directly or further down, comes from the request, on a route with path
      parameters `names`. */
  ghost predicate RequestFree(app: App, rank: map<string, nat>, names: set<string>, f: string)
    requires Acyclic(app, rank) && f in app.funcs
    decreases rank[f], 1
  {
    forall i :: 0 <= i < |app.funcs[f]| ==> FreeAt(app, rank, names, f, i)
  }

  ghost predicate FreeAt(app: App, rank: map<string, nat>, names: set<string>, f: string, i: nat)
    requires Acyclic(app, rank) && f in app.funcs && i < |app.funcs[f]|
    decreases rank[f], 0
  {
    var p := app.funcs[f][i];
    assert ParamBelow(app, rank, f, p);
    if p.depends.Some? then RequestFree(app, rank, names, p.depends.value)
    else
      && p.name != "request" && p.annotation != Some("Request") && p.name != "websocket" &&
        p.annotation != Some("WebSocket")
      && p.name !in names
      && (GetProvider(app, p).Some? ==> RequestFree(app, rank, names, GetProvider(app, p).value.factory))
  }

  /** Such a function has the same value in every request. */
  lemma {:induction false} SameInEveryRequest(app: App, rank: map<string, nat>, names: set<string>, f: string,
                                              a: Context, b: Context, n: nat)
    requires Acyclic(app, rank) && f in app.funcs && n <= |app.funcs[f]| && RequestFree(app, rank, names, f)
    requires a.pathParams.Keys <= names && b.pathParams.Keys <= names
    ensures ArgsWith(app, rank, map[], a, f, n) == ArgsWith(app, rank, map[], b, f, n)
    ensures n == |app.funcs[f]| ==> Eval(app, rank, a, f) == Eval(app, rank, b, f)
    decreases rank[f], n
  {
    if n > 0 {
      SameInEveryRequest(app, rank, names, f, a, b, n - 1);
      var p := app.funcs[f][n - 1];
      assert ParamBelow(app, rank, f, p) && FreeAt(app, rank, names, f, n - 1);
      match SourceOf(app, a, p)
      case Depends(g) => SameInEveryRequest(app, rank, names, g, a, b, |app.funcs[g]|);
      case Provided(g, _) => SameInEveryRequest(app, rank, names, g, a, b, |app.funcs[g]|);
      case _ =>
    }
  }

  /** It meets the same singletons. */
  lemma {:induction false} FreeMeetsSame(app: App, rank: map<string, nat>, names: set<string>, f: string, a: Context,
                                         b: Context, n: nat)
    requires Acyclic(app, rank) && f in app.funcs && n <= |app.funcs[f]| && RequestFree(app, rank, names, f)
    requires a.pathParams.Keys <= names && b.pathParams.Keys <= names
    ensures Met(app, rank, map[], a, f, n) == Met(app, rank, map[], b, f, n)
    ensures n == |app.funcs[f]| ==> MetBy(app, rank, map[], a, f) == MetBy(app, rank, map[], b, f)
    decreases rank[f], n
  {
    if n > 0 {
      FreeMeetsSame(app, rank, names, f, a, b, n - 1);
      var p := app.funcs[f][n - 1];
      assert ParamBelow(app, rank, f, p) && FreeAt(app, rank, names, f, n - 1);
      match SourceOf(app, a, p)
      case Depends(g) => FreeMeetsSame(app, rank, names, g, a, b, |app.funcs[g]|);
      case Provided(g, _) => FreeMeetsSame(app, rank, names, g, a, b, |app.funcs[g]|);
      case _ =>
    }
  }

  /** Freedom on two routes is freedom on both together. */
  lemma {:induction false} FreeOnBoth(app: App, rank: map<string, nat>, x: set<string>, y: set<string>, f: string)
    requires Acyclic(app, rank) && f in app.funcs && RequestFree(app, rank, x, f) && RequestFree(app, rank, y, f)
    ensures RequestFree(app, rank, x + y, f)
    decreases rank[f]
  {
    forall i | 0 <= i < |app.funcs[f]| ensures FreeAt(app, rank, x + y, f, i) {
      var p := app.funcs[f][i];
      assert ParamBelow(app, rank, f, p) && FreeAt(app, rank, x, f, i) && FreeAt(app, rank, y, f, i);
      if p.depends.Some? {
        FreeOnBoth(app, rank, x, y, p.depends.value);
      } else if GetProvider(app, p).Some? {
        FreeOnBoth(app, rank, x, y, GetProvider(app, p).value.factory);
      }
    }
  }

  /** Two requests of one route that differ in everything. */
  ghost predicate Unlike(a: Context, b: Context) {
    SameRoute(a, b) && a.request != b.request && a.socket != b.socket
    && forall x :: x in a.pathParams ==> a.pathParams[x] != b.pathParams[x]
  }

  /** A function that reads the request has different values in them. */
  lemma {:induction false} DiffersWhenNotFree(app: App, rank: map<string, nat>, a: Context, b: Context, f: string)
    requires Acyclic(app, rank) && f in app.funcs && Unlike(a, b) && Eval(app, rank, a, f).Some?
    requires !RequestFree(app, rank, a.pathParams.Keys, f)
    ensures Eval(app, rank, a, f) != Eval(app, rank, b, f)
    decreases rank[f]
  {
    var n := |app.funcs[f]|;
    var i :| 0 <= i < n && !FreeAt(app, rank, a.pathParams.Keys, f, i);
    var p := app.funcs[f][i];
    ArgsAre(app, rank, map[], a, f, n);
    ArgsAre(app, rank, map[], b, f, n);
    assert ParamBelow(app, rank, f, p);
    match SourceOf(app, a, p)
    case Depends(g) => DiffersWhenNotFree(app, rank, a, b, g);
    case Provided(g, _) => DiffersWhenNotFree(app, rank, a, b, g);
    case _ =>
  }

  /** A wrong argument makes a wrong value. */
  lemma WrongArgument(app: App, rank: map<string, nat>, m: Table, b: Context, f: string, i: nat)
    requires Acyclic(app, rank) && f in app.funcs && Eval(app, rank, b, f).Some?
    requires i < |app.funcs[f]| && ParamBelow(app, rank, f, app.funcs[f][i])
    requires ParamWith(app, rank, m, b, f, app.funcs[f][i]) != ParamWith(app, rank, map[], b, f, app.funcs[f][i])
    ensures EvalWith(app, rank, m, b, f) != Eval(app, rank, b, f)
  {
    var n := |app.funcs[f]|;
    ArgsAre(app, rank, map[], b, f, n);
    ArgsAre(app, rank, m, b, f, n);
    Whole(app, rank, map[], b, f);
  }

  /** What one parameter meets, and that it can be evaluated. */
  lemma OneParam(app: App, rank: map<string, nat>, a: Context, f: string, i: nat)
    requires Acyclic(app, rank) && f in app.funcs && i < |app.funcs[f]| && Eval(app, rank, a, f).Some?
    ensures ParamBelow(app, rank, f, app.funcs[f][i]) && ParamWith(app, rank, map[], a, f, app.funcs[f][i]).Some?
    ensures MetParam(app, rank, map[], a, f, app.funcs[f][i]) <= MetBy(app, rank, map[], a, f)
  {
    var n := |app.funcs[f]|;
    Whole(app, rank, map[], a, f);
    ArgsAre(app, rank, map[], a, f, n);
    forall h | h in MetParam(app, rank, map[], a, f, app.funcs[f][i]) ensures h in MetBy(app, rank, map[], a, f) {
      assert MeetsAt(app, rank, map[], a, f, i, h);
      MetIs(app, rank, map[], a, f, n, h);
    }
  }

  /** The parameter through which something is met. */
  lemma MetAt(app: App, rank: map<string, nat>, a: Context, f: string, g: string) returns (i: nat)
    requires Acyclic(app, rank) && f in app.funcs && g in MetBy(app, rank, map[], a, f)
    ensures i < |app.funcs[f]| && MeetsAt(app, rank, map[], a, f, i, g)
  {
    Whole(app, rank, map[], a, f);
    MetIs(app, rank, map[], a, f, |app.funcs[f]|, g);
    i :| 0 <= i < |app.funcs[f]| && MeetsAt(app, rank, map[], a, f, i, g);
  }

  /** The remembered value of `g` is not the one request `b` would compute. */
  ghost predicate Stale(app: App, rank: map<string, nat>, m: Table, b: Context, g: string)
    requires Acyclic(app, rank)
  {
    g in m && g in app.funcs && Eval(app, rank, b, g) != Some(m[g])
  }

  /** A stale singleton spoils the answer, if what is remembered of its users is stale too. */
  lemma {:induction false} WrongWhenStale(app: App, rank: map<string, nat>, m: Table, b: Context, f: string, g: string)
    requires Acyclic(app, rank) && f in app.funcs && Eval(app, rank, b, f).Some?
    requires g in MetBy(app, rank, map[], b, f) && Stale(app, rank, m, b, g)
    requires forall h ::
      (h in MetBy(app, rank, map[], b, f) && h in m && h in app.funcs && g in MetBy(app, rank, map[], b, h)) ==>
      Stale(app, rank, m, b, h)
    ensures EvalWith(app, rank, m, b, f) != Eval(app, rank, b, f)
    decreases rank[f]
  {
    var i := MetAt(app, rank, b, f, g);
    OneParam(app, rank, b, f, i);
    match SourceOf(app, b, app.funcs[f][i])
    case Depends(h) =>
      WrongWhenStale(app, rank, m, b, h, g);
      WrongArgument(app, rank, m, b, f, i);
    case Provided(h, singleton) =>
      if !(singleton && h in m) { WrongWhenStale(app, rank, m, b, h, g); }
      WrongArgument(app, rank, m, b, f, i);
  }

  /** Equal values are equal all the way down. */
  lemma {:induction false} EqualBelow(app: App, rank: map<string, nat>, a: Context, b: Context, f: string, g: string)
    requires Acyclic(app, rank) && f in app.funcs && Eval(app, rank, a, f).Some? &&
      Eval(app, rank, a, f) == Eval(app, rank, b, f)
    requires g in MetBy(app, rank, map[], b, f) && g in app.funcs
    ensures Eval(app, rank, a, g) == Eval(app, rank, b, g)
    decreases rank[f]
  {
    var n := |app.funcs[f]|;
    var i := MetAt(app, rank, b, f, g);
    ArgsAre(app, rank, map[], a, f, n);
    ArgsAre(app, rank, map[], b, f, n);
    OneParam(app, rank, b, f, i);
    match SourceOf(app, b, app.funcs[f][i])
    case Depends(h) => EqualBelow(app, rank, a, b, h, g);
    case Provided(h, _) => if g != h { EqualBelow(app, rank, a, b, h, g); }
  }

  // ---------------------------------------------------------------- requests one after another

  /** A handler and the path parameters of its route. */
  datatype Route = Route(handler: string, names: set<string>)

  datatype Request = Request(handler: string, c: Context)

  function RouteOf(q: Request): Route { Route(q.handler, q.c.pathParams.Keys) }

  /** The table that resolving `f` for request `c` leaves, as the resolver promises it. */
  ghost predicate Leaves(app: App, rank: map<string, nat>, m: Table, c: Context, f: string, after: Table)
    requires Acyclic(app, rank) && f in app.funcs
  {
    && (forall g :: g in m ==> g in after && after[g] == m[g])
    && (forall g :: g in after && g !in m ==>
          g in MetBy(app, rank, m, c, f) && g in app.funcs && EvalWith(app, rank, m, c, g) == Some(after[g]))
    && (EvalWith(app, rank, m, c, f).Some? ==> MetBy(app, rank, m, c, f) <= after.Keys)
  }

  ghost predicate Declared(app: App, routes: set<Route>) { forall r :: r in routes ==> r.handler in app.funcs }

  /** Requests on some routes of an application that starts with nothing remembered. */
  ghost predicate Served(app: App, rank: map<string, nat>, routes: set<Route>, requests: seq<Request>,
                         tables: seq<Table>)
    requires Acyclic(app, rank) && Declared(app, routes)
  {
    && |tables| == |requests| + 1 && tables[0] == map[]
    && (forall i :: 0 <= i < |requests| ==> RouteOf(requests[i]) in routes)
    && forall i :: 0 <= i < |requests| ==> ServedAt(app, rank, requests[i], tables[i], tables[i + 1])
  }

  ghost predicate ServedAt(app: App, rank: map<string, nat>, q: Request, before: Table, after: Table)
    requires Acyclic(app, rank)
  {
    q.handler in app.funcs && Leaves(app, rank, before, q.c, q.handler, after)
  }

  /** The request got what it would have got alone. */
  ghost predicate Plain(app: App, rank: map<string, nat>, q: Request, m: Table)
    requires Acyclic(app, rank) && q.handler in app.funcs
  {
    EvalWith(app, rank, m, q.c, q.handler) == Eval(app, rank, q.c, q.handler)
  }

  /** Every request on route `r` got what it would have got alone. */
  ghost predicate AllPlain(app: App, rank: map<string, nat>, r: Route, requests: seq<Request>, tables: seq<Table>)
    requires Acyclic(app, rank) && r.handler in app.funcs && |tables| == |requests| + 1
  {
    forall i :: 0 <= i < |requests| && RouteOf(requests[i]) == r ==> Plain(app, rank, requests[i], tables[i])
  }

  /** Some request of a route; which singletons are met does not depend on which. */
  function AnyOn(names: set<string>): (c: Context)
    ensures c.pathParams.Keys == names
  {
    Context(Const(0), Const(0), map x | x in names :: "")
  }

  ghost function MetOn(app: App, rank: map<string, nat>, r: Route): set<string>
    requires Acyclic(app, rank) && r.handler in app.funcs
  {
    MetBy(app, rank, map[], AnyOn(r.names), r.handler)
  }

  /** Requests on the route can be resolved. */
  ghost predicate Resolvable(app: App, rank: map<string, nat>, r: Route)
    requires Acyclic(app, rank) && r.handler in app.funcs
  {
    Eval(app, rank, AnyOn(r.names), r.handler).Some?
  }

  /** Every singleton met on route `r` is request-free on every route that meets it. */
  ghost predicate SharedFree(app: App, rank: map<string, nat>, routes: set<Route>, r: Route)
    requires Acyclic(app, rank) && Declared(app, routes) && r.handler in app.funcs
  {
    forall g, s :: g in MetOn(app, rank, r) && s in routes && g in MetOn(app, rank, s) ==> FreeOn(app, rank, s, g)
  }

  ghost predicate FreeOn(app: App, rank: map<string, nat>, s: Route, g: string)
    requires Acyclic(app, rank)
  {
    g in app.funcs && RequestFree(app, rank, s.names, g)
  }

  lemma OnRoute(app: App, rank: map<string, nat>, q: Request)
    requires Acyclic(app, rank) && q.handler in app.funcs
    ensures MetBy(app, rank, map[], q.c, q.handler) == MetOn(app, rank, RouteOf(q))
    ensures Eval(app, rank, q.c, q.handler).Some? == Resolvable(app, rank, RouteOf(q))
  {
    RouteMeets(app, rank, q.c, AnyOn(q.c.pathParams.Keys), q.handler, |app.funcs[q.handler]|);
    RouteSucceeds(app, rank, q.c, AnyOn(q.c.pathParams.Keys), q.handler, |app.funcs[q.handler]|);
  }

  // ---------------------------------------------------------------- free singletons stay right

  /** A singleton met on `r` and on the route of `q` is the same there, and meets nothing else. */
  lemma SameOnBoth(app: App, rank: map<string, nat>, routes: set<Route>, r: Route, q: Request, g: string)
    requires Acyclic(app, rank) && Declared(app, routes) && r in routes && RouteOf(q) in routes &&
      q.handler in app.funcs
    requires SharedFree(app, rank, routes, r)
    requires g in MetOn(app, rank, r) && g in MetOn(app, rank, RouteOf(q))
    ensures g in app.funcs && Eval(app, rank, q.c, g) == Eval(app, rank, AnyOn(r.names), g)
    ensures MetBy(app, rank, map[], q.c, g) <= MetOn(app, rank, r) * MetOn(app, rank, RouteOf(q))
  {
    var s, c := RouteOf(q), AnyOn(r.names);
    assert FreeOn(app, rank, r, g) && FreeOn(app, rank, s, g);
    FreeOnBoth(app, rank, r.names, s.names, g);
    SameInEveryRequest(app, rank, r.names + s.names, g, q.c, c, |app.funcs[g]|);
    FreeMeetsSame(app, rank, r.names + s.names, g, q.c, c, |app.funcs[g]|);
    OnRoute(app, rank, q);
    Whole(app, rank, map[], c, r.handler);
    Whole(app, rank, map[], q.c, q.handler);
    MetThrough(app, rank, c, r.handler, |app.funcs[r.handler]|, g);
    MetThrough(app, rank, q.c, q.handler, |app.funcs[q.handler]|, g);
  }

  /** The table is right for what route `r` meets. */
  ghost predicate RightFor(app: App, rank: map<string, nat>, r: Route, m: Table)
    requires Acyclic(app, rank) && r.handler in app.funcs
  {
    Agrees(app, rank, m, AnyOn(r.names), MetOn(app, rank, r))
  }

  /** So it is right for what a request meets of that. */
  lemma RightForRequest(app: App, rank: map<string, nat>, routes: set<Route>, r: Route, q: Request, m: Table,
                        met: set<string>)
    requires Acyclic(app, rank) && Declared(app, routes) && r in routes && RouteOf(q) in routes &&
      q.handler in app.funcs
    requires SharedFree(app, rank, routes, r) && RightFor(app, rank, r, m)
    requires met <= MetOn(app, rank, r) * MetOn(app, rank, RouteOf(q))
    ensures Agrees(app, rank, m, q.c, met)
  {
    forall g | g in met && g in m && g in app.funcs ensures Eval(app, rank, q.c, g) == Some(m[g]) {
      SameOnBoth(app, rank, routes, r, q, g);
    }
  }

  lemma StaysRight(app: App, rank: map<string, nat>, routes: set<Route>, r: Route, q: Request, m: Table, after: Table)
    requires Acyclic(app, rank) && Declared(app, routes) && r in routes && RouteOf(q) in routes &&
      q.handler in app.funcs
    requires SharedFree(app, rank, routes, r) && RightFor(app, rank, r, m) &&
      Leaves(app, rank, m, q.c, q.handler, after)
    ensures RightFor(app, rank, r, after)
  {
    OnRoute(app, rank, q);
    MetShrinks(app, rank, m, q.c, q.handler, |app.funcs[q.handler]|);
    forall g | g in MetOn(app, rank, r) && g in after && g in app.funcs
      ensures Eval(app, rank, AnyOn(r.names), g) == Some(after[g])
    {
      if g !in m {
        SameOnBoth(app, rank, routes, r, q, g);
        Whole(app, rank, map[], q.c, g);
        RightForRequest(app, rank, routes, r, q, m, MetBy(app, rank, map[], q.c, g));
        AgreeingTable(app, rank, m, q.c, g, |app.funcs[g]|);
      }
    }
  }

  lemma {:induction false} AlwaysRight(app: App, rank: map<string, nat>, routes: set<Route>, r: Route,
                                       requests: seq<Request>, tables: seq<Table>, k: nat)
    requires Acyclic(app, rank) && Declared(app, routes) && r in routes && SharedFree(app, rank, routes, r)
    requires Served(app, rank, routes, requests, tables) && k <= |requests|
    ensures RightFor(app, rank, r, tables[k])
    decreases k
  {
    if k > 0 {
      AlwaysRight(app, rank, routes, r, requests, tables, k - 1);
      assert ServedAt(app, rank, requests[k - 1], tables[k - 1], tables[k - 1 + 1]) &&
        RouteOf(requests[k - 1]) in routes;
      StaysRight(app, rank, routes, r, requests[k - 1], tables[k - 1], tables[k]);
    }
  }

  lemma FreeIsPlain(app: App, rank: map<string, nat>, routes: set<Route>, r: Route, requests: seq<Request>,
                    tables: seq<Table>)
    requires Acyclic(app, rank) && Declared(app, routes) && r in routes && SharedFree(app, rank, routes, r)
    requires Served(app, rank, routes, requests, tables)
    ensures AllPlain(app, rank, r, requests, tables)
  {
    forall i | 0 <= i < |requests| && RouteOf(requests[i]) == r ensures Plain(app, rank, requests[i], tables[i]) {
      var q := requests[i];
      AlwaysRight(app, rank, routes, r, requests, tables, i);
      OnRoute(app, rank, q);
      Whole(app, rank, map[], q.c, q.handler);
      RightForRequest(app, rank, routes, r, q, tables[i], MetOn(app, rank, r));
      AgreeingTable(app, rank, tables[i], q.c, q.handler, |app.funcs[q.handler]|);
    }
  }

  // ---------------------------------------------------------------- and others go wrong

  /** A request of the same route with nothing in common. */
  function Other(c: Context): (d: Context)
    ensures Unlike(c, d)
  {
    Context(if c.request == Const(0) then Const(1) else Const(0), if c.socket == Const(0) then Const(1) else Const(0),
            map x | x in c.pathParams :: c.pathParams[x] + "'")
  }

  /** The table after one more request. */
  ghost function Filled(app: App, rank: map<string, nat>, m: Table, c: Context, f: string): (after: Table)
    requires Acyclic(app, rank) && f in app.funcs
    ensures Leaves(app, rank, m, c, f, after)
    ensures forall g :: g in after && g !in m ==> g in app.funcs && EvalWith(app, rank, m, c, g) == Some(after[g])
  {
    assert EvalWith(app, rank, m, c, f).Some? ==>
      forall g :: g in MetBy(app, rank, m, c, f) ==> g in app.funcs && EvalWith(app, rank, m, c, g).Some? by {
      if EvalWith(app, rank, m, c, f).Some? {
        Whole(app, rank, m, c, f);
        forall g | g in MetBy(app, rank, m, c, f) ensures g in app.funcs && EvalWith(app, rank, m, c, g).Some? {
          MetSucceeds(app, rank, m, c, f, |app.funcs[f]|, g);
        }
      }
    }
    map g | g in m.Keys + MetBy(app, rank, m, c, f) &&
      (g in m || (g in app.funcs && EvalWith(app, rank, m, c, g).Some?)) ::
      if g in m then m[g] else EvalWith(app, rank, m, c, g).value
  }

  /** A table filled by request `a` answers request `b` wrongly when a singleton differs. */
  lemma FilledIsStale(app: App, rank: map<string, nat>, a: Request, b: Request, g: string)
    requires Acyclic(app, rank) && a.handler in app.funcs && b.handler in app.funcs
    requires Eval(app, rank, a.c, a.handler).Some? && Eval(app, rank, b.c, b.handler).Some?
    requires g in MetBy(app, rank, map[], a.c, a.handler) && g in MetBy(app, rank, map[], b.c, b.handler) &&
      g in app.funcs
    requires Eval(app, rank, a.c, g) != Eval(app, rank, b.c, g)
    ensures !Plain(app, rank, b, Filled(app, rank, map[], a.c, a.handler))
  {
    var m := Filled(app, rank, map[], a.c, a.handler);
    forall h | h in MetBy(app, rank, map[], b.c, b.handler) && h in m && h in app.funcs &&
      g in MetBy(app, rank, map[], b.c, h)
      ensures Stale(app, rank, m, b.c, h)
    {
      if Eval(app, rank, b.c, h) == Some(m[h]) { EqualBelow(app, rank, a.c, b.c, h, g); }
    }
    WrongWhenStale(app, rank, m, b.c, b.handler, g);
  }

  /** A request on route `s` in which `g` has another value than in `b`. */
  lemma AnotherValue(app: App, rank: map<string, nat>, s: Route, b: Context, g: string) returns (a: Request)
    requires Acyclic(app, rank) && s.handler in app.funcs && Resolvable(app, rank, s)
    requires g in MetOn(app, rank, s) && !FreeOn(app, rank, s, g)
    ensures RouteOf(a) == s && g in app.funcs && Eval(app, rank, a.c, g) != Eval(app, rank, b, g)
  {
    var c := AnyOn(s.names);
    Whole(app, rank, map[], c, s.handler);
    MetSucceeds(app, rank, map[], c, s.handler, |app.funcs[s.handler]|, g);
    DiffersWhenNotFree(app, rank, c, Other(c), g);
    a := Request(s.handler, if Eval(app, rank, c, g) != Eval(app, rank, b, g) then c else Other(c));
  }

  /** Two requests, of which the second is answered wrongly. */
  lemma SecondRequestWrong(app: App, rank: map<string, nat>, routes: set<Route>, r: Route, s: Route, g: string)
    requires Acyclic(app, rank) && Declared(app, routes) && r in routes && s in routes
    requires Resolvable(app, rank, r) && Resolvable(app, rank, s)
    requires g in MetOn(app, rank, r) && g in MetOn(app, rank, s) && !FreeOn(app, rank, s, g)
    ensures exists requests, tables ::
      Served(app, rank, routes, requests, tables) && !AllPlain(app, rank, r, requests, tables)
  {
    var b := Request(r.handler, AnyOn(r.names));
    var a := AnotherValue(app, rank, s, b.c, g);
    hide Acyclic;
    hide RequestFree;
    OnRoute(app, rank, a);
    FilledIsStale(app, rank, a, b, g);
    var m := Filled(app, rank, map[], a.c, a.handler);
    var requests, tables := [a, b], [map[], m, Filled(app, rank, m, b.c, b.handler)];
    assert RouteOf(requests[0]) == s && RouteOf(requests[1]) == r;
    assert ServedAt(app, rank, requests[0], tables[0], tables[1]) &&
      ServedAt(app, rank, requests[1], tables[1], tables[2]);
    assert Served(app, rank, routes, requests, tables);
    assert !Plain(app, rank, requests[1], tables[1]);
  }

  /** Main result: whatever requests an application serves on its routes one after another, those on route
      `r` get what they would have got alone, if and only if every singleton met on `r` is request-free on
      every route that meets it. */
  lemma PlainExactlyWhen(app: App, rank: map<string, nat>, routes: set<Route>, r: Route)
    requires Acyclic(app, rank) && Declared(app, routes) && r in routes
    requires forall s :: s in routes ==> Resolvable(app, rank, s)
    ensures (forall requests, tables :: Served(app, rank, routes, requests, tables) ==>
      AllPlain(app, rank, r, requests, tables))
      <==> SharedFree(app, rank, routes, r)
  {
    if SharedFree(app, rank, routes, r) {
      forall requests, tables | Served(app, rank, routes, requests, tables)
        ensures AllPlain(app, rank, r, requests, tables)
      {
        FreeIsPlain(app, rank, routes, r, requests, tables);
      }
    } else {
      var g, s :| g in MetOn(app, rank, r) && s in routes && g in MetOn(app, rank, s) && !FreeOn(app, rank, s, g);
      SecondRequestWrong(app, rank, routes, r, s, g);
    }
  }

  // ---------------------------------------------------------------- two ways to go wrong

  /** A parameter with a name, and maybe a default. */
  function Named(name: string, default_: Option<Value>): Param { Param(name, None, None, default_) }

  /** Two handlers take a session, which the singleton factory `connect` makes from one parameter. */
  function Sessions(param: Param): App {
    App(map["a" := [Named("session", None)], "b" := [Named("session", None)], "connect" := [param]],
        map[], map["session" := Provider("connect", true)])
  }

  function Ranks(): map<string, nat> { map["a" := 1, "b" := 1, "connect" := 0] }

  lemma SessionsAcyclic(param: Param)
    requires param.depends.None? && param.annotation.None? && param.name != "session"
    ensures Acyclic(Sessions(param), Ranks())
  {
  }

  /** What `connect` makes. */
  lemma Connected(param: Param, m: Table, c: Context)
    requires Acyclic(Sessions(param), Ranks())
    ensures EvalWith(Sessions(param), Ranks(), m, c, "connect") ==
      match SourceOf(Sessions(param), c, param)
      case Given(v) => Some(Made("connect", [v]))
      case Unresolved => None
      case _ => EvalWith(Sessions(param), Ranks(), m, c, "connect")
  {
    var app, rank := Sessions(param), Ranks();
    assert ArgsWith(app, rank, m, c, "connect", 0) == Some([]);
    assert ParamBelow(app, rank, "connect", app.funcs["connect"][0]);
    var value := ParamWith(app, rank, m, c, "connect", param);
    assert value.Some? ==> [] + [value.value] == [value.value];
    assert ArgsWith(app, rank, m, c, "connect", 1) == if value.None? then None else Some([value.value]);
  }

  /** What a handler is given. */
  lemma SessionTaken(param: Param, m: Table, c: Context, f: string)
    requires Acyclic(Sessions(param), Ranks()) && f in {"a", "b"} && "session" !in c.pathParams
    ensures var app, rank := Sessions(param), Ranks();
      var session := if "connect" in m then Some(m["connect"]) else EvalWith(app, rank, m, c, "connect");
      EvalWith(app, rank, m, c, f) == if session.None? then None else Some(Made(f, [session.value]))
    ensures "connect" !in m ==> "connect" in MetBy(Sessions(param), Ranks(), m, c, f)
  {
    var app, rank := Sessions(param), Ranks();
    var p := app.funcs[f][0];
    assert ArgsWith(app, rank, m, c, f, 0) == Some([]);
    assert ParamBelow(app, rank, f, p) && SourceOf(app, c, p) == Provided("connect", true);
    var session := ParamWith(app, rank, m, c, f, p);
    assert session.Some? ==> [] + [session.value] == [session.value];
    assert ArgsWith(app, rank, m, c, f, 1) == if session.None? then None else Some([session.value]);
    Whole(app, rank, m, c, f);
    assert Met(app, rank, m, c, f, 1) == Met(app, rank, m, c, f, 0) + MetParam(app, rank, m, c, f, p);
  }

  /** After a request of `a` the other handler is given that request's session. */
  lemma SessionShared(param: Param, c: Context, d: Context, after: Table)
    requires Acyclic(Sessions(param), Ranks()) && "session" !in c.pathParams && "session" !in d.pathParams
    requires Eval(Sessions(param), Ranks(), c, "connect").Some? && Eval(Sessions(param), Ranks(), d, "connect").Some?
    requires Leaves(Sessions(param), Ranks(), map[], c, "a", after)
    ensures var app, rank := Sessions(param), Ranks();
      && EvalWith(app, rank, after, d, "b") == Some(Made("b", [Eval(app, rank, c, "connect").value]))
      && Eval(app, rank, d, "b") == Some(Made("b", [Eval(app, rank, d, "connect").value]))
  {
    SessionTaken(param, map[], c, "a");
    SessionTaken(param, map[], d, "b");
    SessionTaken(param, after, d, "b");
  }

  /** For one, a singleton factory that takes the request answers every later request with the first one's. */
  lemma FirstRequestLeaks(c: Context, d: Context, after: Table)
    requires c.pathParams == d.pathParams == map[] && c.request != d.request
    ensures var app, rank := Sessions(Named("request", None)), Ranks();
      Acyclic(app, rank) && (Leaves(app, rank, map[], c, "a", after) ==>
        && EvalWith(app, rank, after, d, "b") == Some(Made("b", [Made("connect", [c.request])]))
        && Eval(app, rank, d, "b") == Some(Made("b", [Made("connect", [d.request])])))
  {
    var param := Named("request", None);
    SessionsAcyclic(param);
    Connected(param, map[], c);
    Connected(param, map[], d);
    if Leaves(Sessions(param), Ranks(), map[], c, "a", after) { SessionShared(param, c, d, after); }
  }

  /** For another, a singleton factory with a default takes a path parameter of the first route, and then
      serves a route without that parameter. */
  lemma OtherRouteLeaks(c: Context, d: Context, after: Table, id: string)
    requires c.pathParams == map["id" := id] && d.pathParams == map[]
    ensures var app, rank := Sessions(Named("id", Some(Const(0)))), Ranks();
      Acyclic(app, rank) && (Leaves(app, rank, map[], c, "a", after) ==>
        && EvalWith(app, rank, after, d, "b") == Some(Made("b", [Made("connect", [Text(id)])]))
        && Eval(app, rank, d, "b") == Some(Made("b", [Made("connect", [Const(0)])])))
  {
    var param := Named("id", Some(Const(0)));
    SessionsAcyclic(param);
    Connected(param, map[], c);
    Connected(param, map[], d);
    if Leaves(Sessions(param), Ranks(), map[], c, "a", after) { SessionShared(param, c, d, after); }
  }

  // ---------------------------------------------------------------- an application at work

  /** One request: its answer, the table it leaves, and how often it called which factory. */
  method Handle(app: App, q: Request, singletons: Table, ghost rank: map<string, nat>)
    returns (answer: Option<Value>, after: Table, ghost calls: multiset<string>)
    requires Acyclic(app, rank) && q.handler in app.funcs
    ensures answer == EvalWith(app, rank, singletons, q.c, q.handler) && ServedAt(app, rank, q, singletons, after)
    ensures forall g :: calls[g] == if g in after && g !in singletons then 1 else 0
  {
    var resolver := new Resolver(app, q.c, rank, singletons);
    var args := resolver.Solve(q.handler);
    answer := if args.None? then None else Some(Made(q.handler, args.value));
    after, calls := resolver.singletons, resolver.built;
  }

  lemma Kept(app: App, rank: map<string, nat>, q: Request, before: Table, after: Table)
    requires Acyclic(app, rank) && ServedAt(app, rank, q, before, after)
    ensures forall g :: g in before ==> g in after
  {
  }

  /** Requests on any routes, one after another: they are answered as `PlainExactlyWhen` says, and no
      singleton factory is called twice. */
  method ServeAll(app: App, requests: seq<Request>, ghost rank: map<string, nat>, ghost routes: set<Route>)
    returns (answers: seq<Option<Value>>, ghost tables: seq<Table>, ghost calls: multiset<string>)
    requires Acyclic(app, rank) && Declared(app, routes)
    requires forall i :: 0 <= i < |requests| ==> RouteOf(requests[i]) in routes
    ensures Served(app, rank, routes, requests, tables) && |answers| == |requests|
    ensures forall i :: 0 <= i < |requests| ==>
      requests[i].handler in app.funcs &&
        answers[i] == EvalWith(app, rank, tables[i], requests[i].c, requests[i].handler)
    ensures forall g :: calls[g] <= 1
  {
    hide EvalWith;
    hide ServedAt;
    hide Acyclic;
    var singletons: Table := map[];
    answers, tables, calls := [], [singletons], multiset{};
    for k := 0 to |requests|
      invariant |answers| == k && |tables| == k + 1 && tables[k] == singletons && tables[0] == map[]
      invariant forall i :: 0 <= i < k ==>
        && ServedAt(app, rank, requests[i], tables[i], tables[i + 1])
        && answers[i] == EvalWith(app, rank, tables[i], requests[i].c, requests[i].handler)
      invariant forall g :: calls[g] == if g in singletons then 1 else 0
    {
      assert RouteOf(requests[k]) in routes;
      var answer, after, more := Handle(app, requests[k], singletons, rank);
      Kept(app, rank, requests[k], singletons, after);
      answers, tables, calls := answers + [answer], tables + [after], calls + more;
      singletons := after;
    }
  }
}
