/** The bounded pool, the ownership tokens, and any number of contexts using them.

    `Pool` is the state of one `Connection` object and its functions are single passes of the
    source's methods (each runs under the condition lock, or is one dictionary operation).
    `System` adds the contexts; an interleaving is a sequence of `Event`s. */
module ConnectionPool {
  import opened Basics

  type Raw = nat      // identity of a DB-API connection
  type Token = nat    // identity of an ownership token
  type Ctx = nat      // identity of an execution context

  /** An open root transaction. `owner` entered the block; `previous` is what its `_TX` held then. */
  datatype TxState = TxState(raw: Raw, depth: nat, owner: Ctx, previous: Option<Token>)

  datatype Pool = Pool(size: nat, idle: seq<Raw>, all: seq<Raw>, active: map<Token, TxState>,
                       nextRaw: Raw, nextToken: Token)

  datatype Acquired = Got(raw: Raw) | MustWait | ConnectFailed

  // ---------------------------------------------------------------- one pass of each method

  /** One pass of the loop in `_acquire`; `connects` says whether the driver could connect. */
  function Acquire(p: Pool, connects: bool): (Pool, Acquired) {
    if p.idle != [] then
      (p.(idle := p.idle[..|p.idle| - 1]), Got(p.idle[|p.idle| - 1]))
    else if |p.all| < p.size then
      if connects then (p.(all := p.all + [p.nextRaw], nextRaw := p.nextRaw + 1), Got(p.nextRaw))
      else (p, ConnectFailed)
    else (p, MustWait)
  }

  function Remove(s: seq<Raw>, x: Raw): seq<Raw> {
    if s == [] then [] else if s[0] == x then s[1..] else [s[0]] + Remove(s[1..], x)
  }

  /** `_release`; `broken` when the reset rollback raised, so the connection is dropped. */
  function Release(p: Pool, raw: Raw, broken: bool): Pool {
    if broken then p.(all := Remove(p.all, raw)) else p.(idle := p.idle + [raw])
  }

  /** `_current_tx` for a context whose `_TX` holds `token`. */
  function CurrentTx(p: Pool, token: Option<Token>): Option<Token> {
    if token.Some? && token.value in p.active then token else None
  }

  /** Entry of `_root_tx`. */
  function Register(p: Pool, raw: Raw, owner: Ctx, previous: Option<Token>): Pool {
    p.(active := p.active[p.nextToken := TxState(raw, 1, owner, previous)], nextToken := p.nextToken + 1)
  }

  function SetDepth(p: Pool, token: Token, depth: nat): Pool
    requires token in p.active
  {
    p.(active := p.active[token := p.active[token].(depth := depth)])
  }

  function Deregister(p: Pool, token: Token): Pool {
    p.(active := p.active - {token})
  }

  // ---------------------------------------------------------------- contexts and interleavings

  datatype Purpose = ForStatement | ForRoot

  /** Where a context is between two events. */
  datatype Activity =
    | Outside
    | Borrowed(raw: Raw, purpose: Purpose)
    | OnPinned(token: Token, raw: Raw)
    | Returning(raw: Raw)

  datatype Context = Context(act: Activity, token: Option<Token>)

  datatype System = System(pool: Pool, ctxs: map<Ctx, Context>)

  datatype Event =
    | BeginStatement(c: Ctx, connects: bool)   // execute / executescript: look up, maybe borrow
    | EndStatement(c: Ctx)
    | EnterAtomic(c: Ctx, connects: bool)      // atomic / aatomic: nest, or borrow for a root
    | BeginRoot(c: Ctx)
    | ExitNested(c: Ctx)
    | ExitRoot(c: Ctx)                         // commit or rollback done; deregister, reset `_TX`
    | GiveBack(c: Ctx, broken: bool)
    | CopyContext(c: Ctx, copy: Ctx)           // asyncio.to_thread, create_task

  function Put(s: System, c: Ctx, x: Context): System { s.(ctxs := s.ctxs[c := x]) }

  /** The pinned statements of an owner finish before its block exits. */
  predicate NoStatementOn(s: System, token: Token) {
    forall c :: c in s.ctxs ==> !(s.ctxs[c].act.OnPinned? && s.ctxs[c].act.token == token)
  }

  /** One event; an event that does not apply where its context is changes nothing. */
  function Apply(e: Event, s: System): System {
    if e.c !in s.ctxs then s else
    var me := s.ctxs[e.c];
    var tx := CurrentTx(s.pool, me.token);
    match e
    case BeginStatement(c, connects) =>
      if !me.act.Outside? then s
      else if tx.Some? then Put(s, c, me.(act := OnPinned(tx.value, s.pool.active[tx.value].raw)))
      else Borrow(s, c, connects, ForStatement)
    case EnterAtomic(c, connects) =>
      if !me.act.Outside? then s
      else if tx.Some? then
        s.(pool := SetDepth(s.pool, tx.value, s.pool.active[tx.value].depth + 1))
      else Borrow(s, c, connects, ForRoot)
    case EndStatement(c) =>
      if me.act.OnPinned? then Put(s, c, me.(act := Outside))
      else if me.act.Borrowed? && me.act.purpose.ForStatement? then Put(s, c, me.(act := Returning(me.act.raw)))
      else s
    case BeginRoot(c) =>
      if me.act.Borrowed? && me.act.purpose.ForRoot? then
        Put(s, c, Context(Outside, Some(s.pool.nextToken))).(pool := Register(s.pool, me.act.raw, c, me.token))
      else s
    case ExitNested(c) =>
      if me.act.Outside? && tx.Some? && s.pool.active[tx.value].depth > 1 then
        s.(pool := SetDepth(s.pool, tx.value, s.pool.active[tx.value].depth - 1))
      else s
    case ExitRoot(c) =>
      if me.act.Outside? && tx.Some? && s.pool.active[tx.value].depth == 1 && NoStatementOn(s, tx.value) then
        var state := s.pool.active[tx.value];
        var left := if state.owner == c then state.previous else me.token;
        Put(s, c, Context(Returning(state.raw), left)).(pool := Deregister(s.pool, tx.value))
      else s
    case GiveBack(c, broken) =>
      if me.act.Returning? then Put(s, c, me.(act := Outside)).(pool := Release(s.pool, me.act.raw, broken))
      else s
    case CopyContext(c, copy) =>
      if copy in s.ctxs then s else Put(s, copy, Context(Outside, me.token))
  }

  function Borrow(s: System, c: Ctx, connects: bool, purpose: Purpose): System
    requires c in s.ctxs
  {
    var (pool, got) := Acquire(s.pool, connects);
    if got.Got? then Put(s, c, s.ctxs[c].(act := Borrowed(got.raw, purpose))).(pool := pool) else s
  }

  function Run(events: seq<Event>, s: System): System {
    if events == [] then s else Run(events[1..], Apply(events[0], s))
  }

  /** A fresh `Connection`, and contexts whose `_TX` is empty. */
  function Start(size: nat, contexts: set<Ctx>): System {
    System(Pool(size, [], [], map[], 0, 0), map c | c in contexts :: Context(Outside, None))
  }

  // ---------------------------------------------------------------- the invariant

  datatype Owner = InIdle(i: nat) | InContext(c: Ctx) | InTx(token: Token)

  /** `o` is the one place that may use or hand out `raw`. */
  ghost predicate Holds(s: System, o: Owner, raw: Raw) {
    match o
    case InIdle(i) => i < |s.pool.idle| && s.pool.idle[i] == raw
    case InContext(c) =>
      c in s.ctxs && (s.ctxs[c].act.Borrowed? || s.ctxs[c].act.Returning?) && s.ctxs[c].act.raw == raw
    case InTx(token) => token in s.pool.active && s.pool.active[token].raw == raw
  }

  /** Every open connection has exactly one holder, and nothing else is held. */
  ghost predicate ExactlyOneHolder(s: System) {
    && (forall raw :: raw in s.pool.all ==> exists o :: Holds(s, o, raw))
    && (forall o, raw :: Holds(s, o, raw) ==> raw in s.pool.all)
    && (forall o1, o2, raw :: Holds(s, o1, raw) && Holds(s, o2, raw) ==> o1 == o2)
  }

  /** A statement on a pinned connection runs in a context holding that live transaction's token. */
  ghost predicate PinnedStatementsOwn(s: System) {
    forall c :: c in s.ctxs && s.ctxs[c].act.OnPinned? ==>
      var a := s.ctxs[c].act;
      s.ctxs[c].token == Some(a.token) && a.token in s.pool.active && s.pool.active[a.token].raw == a.raw
  }

  /** Tokens in use were issued, so a new one is really new. */
  ghost predicate TokensIssued(s: System) {
    && (forall t :: t in s.pool.active ==> t < s.pool.nextToken && s.pool.active[t].depth >= 1)
    && (forall t :: t in s.pool.active && s.pool.active[t].previous.Some? ==>
      s.pool.active[t].previous.value < s.pool.nextToken)
    && (forall c :: c in s.ctxs && s.ctxs[c].token.Some? ==> s.ctxs[c].token.value < s.pool.nextToken)
  }

  ghost predicate Inv(s: System) {
    && |s.pool.all| <= s.pool.size && Distinct(s.pool.all)
    && (forall raw :: raw in s.pool.all ==> raw < s.pool.nextRaw)
    && ExactlyOneHolder(s) && PinnedStatementsOwn(s) && TokensIssued(s)
  }

  // ---------------------------------------------------------------- every step keeps it

  lemma StartInv(size: nat, contexts: set<Ctx>)
    ensures Inv(Start(size, contexts))
  {
  }

  lemma {:induction false} RemoveKeeps(s: seq<Raw>, x: Raw)
    requires Distinct(s)
    ensures Distinct(Remove(s, x)) && |Remove(s, x)| <= |s|
    ensures forall y :: y in Remove(s, x) <==> y in s && y != x
  {
    if s != [] {
      RemoveKeeps(s[1..], x);
      assert forall y :: y in s <==> y == s[0] || y in s[1..];
      if s[0] == x {
        assert forall i :: 0 < i < |s| ==> s[0] != s[i];
      } else {
        var r := Remove(s[1..], x);
        assert forall i :: 0 <= i < |r| ==> r[i] in s[1..];
        assert forall i :: 0 < i < |s| ==> s[0] != s[i];
      }
    }
  }

  /** A connection changes hands: `from` gives `moved` to `to`, everybody else keeps theirs. */
  lemma HandOver(s: System, t: System, from: Owner, to: Owner, moved: Raw)
    requires ExactlyOneHolder(s) && s.pool.all == t.pool.all
    requires Holds(s, from, moved) && Holds(t, to, moved)
    requires forall raw :: !Holds(t, from, raw) && !Holds(s, to, raw)
    requires forall o, raw :: o != from && o != to ==> (Holds(s, o, raw) <==> Holds(t, o, raw))
    ensures ExactlyOneHolder(t)
  {
    forall raw | raw in t.pool.all ensures exists o :: Holds(t, o, raw) {
      var o :| Holds(s, o, raw);
      if o == from { assert raw == moved && Holds(t, to, raw); } else { assert Holds(t, o, raw); }
    }
  }

  lemma SameHolders(s: System, t: System)
    requires ExactlyOneHolder(s) && s.pool.all == t.pool.all
    requires forall o, raw :: Holds(s, o, raw) <==> Holds(t, o, raw)
    ensures ExactlyOneHolder(t)
  {
    forall raw | raw in t.pool.all ensures exists o :: Holds(t, o, raw) {
      var o :| Holds(s, o, raw);
      assert Holds(t, o, raw);
    }
  }

  lemma BorrowKeepsInv(s: System, c: Ctx, connects: bool, purpose: Purpose)
    requires Inv(s) && c in s.ctxs && s.ctxs[c].act.Outside?
    ensures Inv(Borrow(s, c, connects, purpose))
  {
    var t := Borrow(s, c, connects, purpose);
    if s.pool.idle != [] {
      var last := |s.pool.idle| - 1;
      HandOver(s, t, InIdle(last), InContext(c), s.pool.idle[last]);
    } else if |s.pool.all| < s.pool.size && connects {
      var raw := s.pool.nextRaw;
      assert Holds(t, InContext(c), raw);
      assert forall i :: 0 <= i < |s.pool.all| ==> s.pool.all[i] in s.pool.all;
      forall r | r in t.pool.all ensures exists o :: Holds(t, o, r) {
        if r != raw {
          var o :| Holds(s, o, r);
          assert Holds(t, o, r);
        }
      }
      forall o, r | Holds(t, o, r) ensures r in t.pool.all && (o == InContext(c) <==> r == raw) {
        if o != InContext(c) { assert Holds(s, o, r); }
      }
      assert forall o, r :: Holds(t, o, r) && r != raw ==> Holds(s, o, r);
    }
  }

  lemma BeginRootKeepsInv(s: System, c: Ctx)
    requires Inv(s)
    ensures Inv(Apply(BeginRoot(c), s))
  {
    var t := Apply(BeginRoot(c), s);
    if t != s {
      HandOver(s, t, InContext(c), InTx(s.pool.nextToken), s.ctxs[c].act.raw);
    }
  }

  lemma ExitRootKeepsInv(s: System, c: Ctx)
    requires Inv(s)
    ensures Inv(Apply(ExitRoot(c), s))
  {
    var t := Apply(ExitRoot(c), s);
    if t != s {
      var token := s.ctxs[c].token.value;
      HandOver(s, t, InTx(token), InContext(c), s.pool.active[token].raw);
    }
  }

  lemma GiveBackKeepsInv(s: System, c: Ctx, broken: bool)
    requires Inv(s)
    ensures Inv(Apply(GiveBack(c, broken), s))
  {
    var t := Apply(GiveBack(c, broken), s);
    if c in s.ctxs && s.ctxs[c].act.Returning? {
      var raw := s.ctxs[c].act.raw;
      assert Holds(s, InContext(c), raw);
      if broken {
        RemoveKeeps(s.pool.all, raw);
        forall r | r in t.pool.all ensures exists o :: Holds(t, o, r) {
          var o :| Holds(s, o, r);
          assert Holds(t, o, r);
        }
        assert forall o, r :: Holds(t, o, r) ==> Holds(s, o, r) && o != InContext(c);
      } else {
        HandOver(s, t, InContext(c), InIdle(|s.pool.idle|), raw);
      }
    }
  }

  /** A statement or block entered by a context outside any transaction. */
  predicate Borrows(e: Event, s: System) {
    && (e.BeginStatement? || e.EnterAtomic?) && e.c in s.ctxs
    && s.ctxs[e.c].act.Outside? && CurrentTx(s.pool, s.ctxs[e.c].token).None?
  }

  /** Other steps of statements and nested blocks hand no connection over. */
  lemma InsideKeepsInv(e: Event, s: System)
    requires Inv(s) && e.c in s.ctxs && !Borrows(e, s) && !e.BeginRoot? && !e.ExitRoot? && !e.GiveBack?
    ensures Inv(Apply(e, s))
  {
    SameHolders(s, Apply(e, s));
  }

  lemma StepKeepsInv(e: Event, s: System)
    requires Inv(s)
    ensures Inv(Apply(e, s))
  {
    hide Inv;
    hide Borrow;
    if e.c in s.ctxs {
      if Borrows(e, s) {
        BorrowKeepsInv(s, e.c, e.connects, if e.BeginStatement? then ForStatement else ForRoot);
      } else if e.BeginRoot? {
        BeginRootKeepsInv(s, e.c);
      } else if e.ExitRoot? {
        ExitRootKeepsInv(s, e.c);
      } else if e.GiveBack? {
        GiveBackKeepsInv(s, e.c, e.broken);
      } else {
        InsideKeepsInv(e, s);
      }
    }
  }

  // ---------------------------------------------------------------- whole runs

  /** Safety of every interleaving: the pool bound, one holder per connection, statements on a
      pinned connection only by its owner. */
  lemma {:induction false} RunKeepsInv(events: seq<Event>, s: System)
    requires Inv(s)
    ensures Inv(Run(events, s))
  {
    if events != [] {
      StepKeepsInv(events[0], s);
      RunKeepsInv(events[1..], Apply(events[0], s));
    }
  }

  /** Two open root transactions never share a connection, and no idle or borrowed connection is
      pinned. */
  lemma PinnedConnectionsAreExclusive(events: seq<Event>, size: nat, contexts: set<Ctx>, t1: Token, o: Owner, raw: Raw)
    requires var s := Run(events, Start(size, contexts));
      t1 in s.pool.active && s.pool.active[t1].raw == raw && Holds(s, o, raw)
    ensures o == InTx(t1)
  {
    StartInv(size, contexts);
    RunKeepsInv(events, Start(size, contexts));
    assert Holds(Run(events, Start(size, contexts)), InTx(t1), raw);
  }

  /** The idle list is a duplicate-free part of the open connections, which are at most `size`. */
  lemma IdleIsPartOfAll(s: System)
    requires Inv(s)
    ensures Distinct(s.pool.idle) && (forall raw :: raw in s.pool.idle ==> raw in s.pool.all)
    ensures |s.pool.idle| <= |s.pool.all| <= s.pool.size
  {
    forall i | 0 <= i < |s.pool.idle| ensures Holds(s, InIdle(i), s.pool.idle[i]) {}
    Pigeonhole(s.pool.idle, s.pool.all);
  }

  /** A context is made to wait exactly when no connection is idle and `size` of them are in
      use, each by a running statement, a block being entered or left, or an open root. */
  lemma WaitsExactlyWhenAllInUse(s: System, connects: bool)
    requires Inv(s)
    ensures Acquire(s.pool, connects).1.MustWait? <==>
      |s.pool.all| == s.pool.size &&
      forall raw :: raw in s.pool.all ==> exists o :: Holds(s, o, raw) && !o.InIdle?
  {
    if s.pool.idle == [] {
      forall raw | raw in s.pool.all ensures exists o :: Holds(s, o, raw) && !o.InIdle? {
        var o :| Holds(s, o, raw);
        assert !o.InIdle?;
      }
    } else {
      assert Holds(s, InIdle(0), s.pool.idle[0]);
    }
  }

  /** Tokens only ever retire: one that was issued and is not live never becomes live again. */
  lemma {:induction false} RetiredTokenStaysRetired(events: seq<Event>, s: System, token: Token)
    requires Inv(s) && token < s.pool.nextToken && token !in s.pool.active
    ensures token !in Run(events, s).pool.active
  {
    if events != [] {
      StepKeepsInv(events[0], s);
      RetiredTokenStaysRetired(events[1..], Apply(events[0], s), token);
    }
  }

  /** A context that keeps the token of a finished transaction never runs on that transaction's
      connection through it: whatever happens later, it is offered a pooled connection instead. */
  lemma StaleTokenIsInert(events: seq<Event>, s: System, c: Ctx, token: Token, connects: bool)
    requires Inv(s) && token < s.pool.nextToken && token !in s.pool.active
    requires c in Run(events, s).ctxs && Run(events, s).ctxs[c].token == Some(token)
    ensures var later := Run(events, s);
      && !later.ctxs[c].act.OnPinned?
      && !(var next := Apply(BeginStatement(c, connects), later); c in next.ctxs && next.ctxs[c].act.OnPinned?)
  {
    RetiredTokenStaysRetired(events, s, token);
    RunKeepsInv(events, s);
  }

  // ---------------------------------------------------------------- the pool's own part

  ghost predicate Unpinned(p: Pool, raw: Raw) { forall t :: t in p.active ==> p.active[t].raw != raw }

  /** What the invariant says of the pool alone. */
  ghost predicate PoolOk(p: Pool) {
    && |p.all| <= p.size && Distinct(p.all) && (forall raw :: raw in p.all ==> raw < p.nextRaw)
    && Distinct(p.idle) && (forall raw :: raw in p.idle ==> raw in p.all && Unpinned(p, raw))
    && (forall t :: t in p.active ==> t < p.nextToken && p.active[t].raw in p.all)
    && (forall t, u :: t in p.active && u in p.active && t != u ==> p.active[t].raw != p.active[u].raw)
  }

  /** `raw` is open, and neither idle nor pinned: whoever has it borrowed it. */
  ghost predicate Lent(p: Pool, raw: Raw) { raw in p.all && raw !in p.idle && Unpinned(p, raw) }

  /** In every reachable state the pool is in order, and what contexts have borrowed is lent. */
  lemma PoolInOrder(s: System)
    requires Inv(s)
    ensures PoolOk(s.pool)
    ensures forall c :: c in s.ctxs && (s.ctxs[c].act.Borrowed? || s.ctxs[c].act.Returning?) ==>
      Lent(s.pool, s.ctxs[c].act.raw)
  {
    IdleIsPartOfAll(s);
    forall raw | raw in s.pool.idle ensures Unpinned(s.pool, raw) {
      var i :| 0 <= i < |s.pool.idle| && s.pool.idle[i] == raw;
      forall t | t in s.pool.active ensures s.pool.active[t].raw != raw {
        assert Holds(s, InIdle(i), raw);
        assert Holds(s, InTx(t), s.pool.active[t].raw);
      }
    }
    forall t | t in s.pool.active
      ensures s.pool.active[t].raw in s.pool.all
    {
      assert Holds(s, InTx(t), s.pool.active[t].raw);
    }
    forall t, u | t in s.pool.active && u in s.pool.active && t != u
      ensures s.pool.active[t].raw != s.pool.active[u].raw
    {
      assert Holds(s, InTx(t), s.pool.active[t].raw) && Holds(s, InTx(u), s.pool.active[u].raw);
    }
    forall c | c in s.ctxs && (s.ctxs[c].act.Borrowed? || s.ctxs[c].act.Returning?)
      ensures Lent(s.pool, s.ctxs[c].act.raw)
    {
      var raw := s.ctxs[c].act.raw;
      assert Holds(s, InContext(c), raw);
      forall i | 0 <= i < |s.pool.idle| ensures s.pool.idle[i] != raw { assert Holds(s, InIdle(i), s.pool.idle[i]); }
      forall t | t in s.pool.active
        ensures s.pool.active[t].raw != raw
      {
        assert Holds(s, InTx(t), s.pool.active[t].raw);
      }
    }
  }

  /** `after` is `before` without the one `raw` in it, the others in their order. */
  predicate LeftOut(before: seq<Raw>, raw: Raw, after: seq<Raw>) {
    exists i :: 0 <= i < |before| && before[i] == raw && after == WithoutAt(before, i)
  }

  function WithoutAt(s: seq<Raw>, i: nat): seq<Raw>
    requires i < |s|
  {
    s[..i] + s[i + 1..]
  }

  lemma WithoutBehind(s: seq<Raw>, i: nat)
    requires i + 1 < |s|
    ensures WithoutAt(s, i + 1) == [s[0]] + WithoutAt(s[1..], i)
  {
  }

  lemma {:induction false} RemoveLeavesOut(s: seq<Raw>, x: Raw)
    requires x in s
    ensures LeftOut(s, x, Remove(s, x))
  {
    if s[0] == x {
      assert WithoutAt(s, 0) == s[1..];
    } else {
      RemoveLeavesOut(s[1..], x);
      hide WithoutAt;
      var i :| 0 <= i < |s[1..]| && s[1..][i] == x && Remove(s[1..], x) == WithoutAt(s[1..], i);
      assert s[i + 1] == x;
      WithoutBehind(s, i);
    }
  }

  /** What comes back leaves the pool in order, and a broken connection leaves it altogether. */
  lemma ReleaseIsOk(p: Pool, raw: Raw, broken: bool)
    requires PoolOk(p) && Lent(p, raw)
    ensures PoolOk(Release(p, raw, broken)) && raw in p.all && raw !in p.idle
    ensures broken ==> raw !in Remove(p.all, raw) && LeftOut(p.all, raw, Remove(p.all, raw))
  {
    hide LeftOut;
    RemoveKeeps(p.all, raw);
    RemoveLeavesOut(p.all, raw);
    assert forall i :: 0 <= i < |p.idle| ==> p.idle[i] in p.idle;
  }

  // ---------------------------------------------------------------- the object

  /** The mutable `Connection`: each method is one critical section (or dictionary update) of the
      source, and does to the fields what its function does to a `Pool`. */
  class Connection {
    const size: nat
    var idle: seq<Raw>
    var all: seq<Raw>
    var active: map<Token, TxState>
    var nextRaw: Raw
    var nextToken: Token

    function View(): Pool
      reads this
    {
      Pool(size, idle, all, active, nextRaw, nextToken)
    }

    /** At most `size` connections, none twice, idle ones part of them, none pinned twice or while idle. */
    ghost predicate Valid()
      reads this
    {
      PoolOk(View())
    }

    constructor (size: nat)
      requires size >= 1
      ensures Valid() && View() == Start(size, {}).pool
    {
      this.size := size;
      idle, all, active, nextRaw, nextToken := [], [], map[], 0, 0;
    }

    /** One pass of the `_acquire` loop; on `MustWait` the caller waits and tries again. */
    method TryAcquire(connects: bool) returns (got: Acquired)
      requires Valid()
      modifies this
      ensures Valid() && (got.Got? ==> Lent(View(), got.raw))
      ensures (View(), got) == Acquire(old(View()), connects)
      ensures active == old(active)
      ensures old(idle) != [] ==> all == old(all) && got.Got? && old(idle) == idle + [got.raw]
      ensures old(idle) == [] && |old(all)| < size && connects ==>
        idle == [] && got.Got? && got.raw !in old(all) && all == old(all) + [got.raw]
      ensures old(idle) == [] && !(|old(all)| < size && connects) ==>
        idle == [] && all == old(all) && got == if |old(all)| < size then ConnectFailed else MustWait
    {
      if idle != [] {
        got := Got(idle[|idle| - 1]);
        idle := idle[..|idle| - 1];
      } else if |all| < size {
        if connects {
          got := Got(nextRaw);
          assert forall i :: 0 <= i < |all| ==> all[i] in all;
          all := all + [nextRaw];
          nextRaw := nextRaw + 1;
        } else {
          got := ConnectFailed;
        }
      } else {
        got := MustWait;
      }
    }

    method GiveBack(raw: Raw, broken: bool)
      requires Valid() && Lent(View(), raw)
      modifies this`idle, this`all
      ensures Valid() && View() == Release(old(View()), raw, broken)
      ensures !broken ==> all == old(all) && idle == old(idle) + [raw]
      ensures broken ==> idle == old(idle) && raw !in idle && raw !in all && LeftOut(old(all), raw, all)
    {
      hide PoolOk;
      hide Remove;
      hide LeftOut;
      ReleaseIsOk(View(), raw, broken);
      if broken {
        if raw in all { all := Remove(all, raw); }
      } else {
        idle := idle + [raw];
      }
    }

    /** `execute` for one caller: on the pinned connection of a live token, else on a borrowed one
        that goes back to the pool afterwards. `None` when no connection could be had. */
    method Execute(token: Option<Token>, connects: bool, broken: bool) returns (ranOn: Option<Raw>)
      requires Valid()
      modifies this
      ensures Valid()
      ensures CurrentTx(old(View()), token).Some? ==>
        View() == old(View()) && ranOn == Some(old(active)[token.value].raw)
      ensures CurrentTx(old(View()), token).None? ==>
        var (pool, got) := Acquire(old(View()), connects);
        if got.Got? then View() == Release(pool, got.raw, broken) && ranOn == Some(got.raw)
        else View() == old(View()) && ranOn == None
      ensures ranOn.Some? && CurrentTx(old(View()), token).None? ==>
        if broken then ranOn.value !in idle && ranOn.value !in all
        else ranOn.value in all && idle != [] && idle[|idle| - 1] == ranOn.value
    {
      if token.Some? && token.value in active {
        return Some(active[token.value].raw);
      }
      var got := TryAcquire(connects);
      match got {
        case Got(raw) => GiveBack(raw, broken); ranOn := Some(raw);
        case MustWait => ranOn := None;
        case ConnectFailed => ranOn := None;
      }
    }

    method EnterRoot(raw: Raw, owner: Ctx, previous: Option<Token>) returns (token: Token)
      requires Valid() && Lent(View(), raw)
      modifies this`active, this`nextToken
      ensures Valid() && View() == Register(old(View()), raw, owner, previous)
      ensures token !in old(active) && active == old(active)[token := TxState(raw, 1, owner, previous)]
    {
      token := nextToken;
      active := active[token := TxState(raw, 1, owner, previous)];
      nextToken := nextToken + 1;
    }

    /** The `finally` of `_root_tx`: deregister the token, then give the connection back. */
    method ExitRoot(token: Token, broken: bool)
      requires Valid() && token in active
      modifies this`active, this`idle, this`all
      ensures Valid() && View() == Release(Deregister(old(View()), token), old(active)[token].raw, broken)
      ensures token !in active
      ensures forall t :: t in old(active) && t != token ==> t in active && active[t] == old(active)[t]
      ensures var raw := old(active)[token].raw;
        if broken then raw !in idle && raw !in all && LeftOut(old(all), raw, all)
        else all == old(all) && idle == old(idle) + [raw]
    {
      var raw := active[token].raw;
      active := active - {token};
      GiveBack(raw, broken);
    }
  }
}
