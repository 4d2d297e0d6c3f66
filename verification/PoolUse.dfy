/** What contexts get from the pool: connections that come back, blocks that hold theirs, and an end to
    every wait. */
module PoolUse {
  import opened Basics
  import opened ConnectionPool

  // ---------------------------------------------------------------- broken and healthy connections

  lemma StepKeepsOut(e: Event, s: System, raw: Raw)
    requires Inv(s) && raw < s.pool.nextRaw && raw !in s.pool.all
    ensures raw < Apply(e, s).pool.nextRaw && raw !in Apply(e, s).pool.all
  {
    if e.GiveBack? && e.c in s.ctxs && s.ctxs[e.c].act.Returning? { RemoveKeeps(s.pool.all, s.ctxs[e.c].act.raw); }
  }

  /** A connection that is not open is never opened, lent, pinned or idle again. */
  lemma {:induction false} OutForGood(events: seq<Event>, s: System, raw: Raw)
    requires Inv(s) && raw < s.pool.nextRaw && raw !in s.pool.all
    ensures raw !in Run(events, s).pool.all && forall o :: !Holds(Run(events, s), o, raw)
  {
    RunKeepsInv(events, s);
    if events != [] {
      StepKeepsInv(events[0], s);
      StepKeepsOut(events[0], s, raw);
      OutForGood(events[1..], Apply(events[0], s), raw);
    }
  }

  /** The context of `e` is giving back `raw`, and its reset fails. */
  predicate Breaks(e: Event, s: System, raw: Raw) {
    e.GiveBack? && e.broken && e.c in s.ctxs && s.ctxs[e.c].act == Returning(raw)
  }

  predicate BreaksAt(events: seq<Event>, s: System, k: nat, raw: Raw)
    requires k < |events|
  {
    Breaks(events[k], Run(events[..k], s), raw)
  }

  lemma ReturningIsOpen(s: System, c: Ctx)
    requires Inv(s) && c in s.ctxs && s.ctxs[c].act.Returning?
    ensures s.ctxs[c].act.raw in s.pool.all
  {
    assert Holds(s, InContext(c), s.ctxs[c].act.raw);
  }

  /** One event closes an open connection exactly when it gives it back broken. */
  lemma StepCloses(e: Event, s: System, raw: Raw)
    requires Inv(s) && raw in s.pool.all
    ensures raw !in Apply(e, s).pool.all <==> Breaks(e, s, raw)
  {
    if e.GiveBack? && e.c in s.ctxs && s.ctxs[e.c].act.Returning? { RemoveKeeps(s.pool.all, s.ctxs[e.c].act.raw); }
  }

  lemma BreaksLater(events: seq<Event>, s: System, k: nat, raw: Raw)
    requires 0 < k < |events|
    ensures BreaksAt(events, s, k, raw) == BreaksAt(events[1..], Apply(events[0], s), k - 1, raw)
  {
    assert events[..k][1..] == events[1..][..k - 1];
  }

  /** Main result: an open connection stays open through any run until it is given back broken, and from
      then on nobody ever gets it again. */
  lemma {:induction false} OpenUntilBroken(events: seq<Event>, s: System, raw: Raw)
    requires Inv(s) && raw in s.pool.all
    ensures raw !in Run(events, s).pool.all <==> exists k :: 0 <= k < |events| && BreaksAt(events, s, k, raw)
  {
    if events != [] {
      var next := Apply(events[0], s);
      assert events[..0] == [] && (BreaksAt(events, s, 0, raw) <==> Breaks(events[0], s, raw));
      StepKeepsInv(events[0], s);
      StepCloses(events[0], s, raw);
      if raw in next.pool.all {
        OpenUntilBroken(events[1..], next, raw);
        if k :| 0 <= k < |events| && BreaksAt(events, s, k, raw) {
          BreaksLater(events, s, k, raw);
          assert BreaksAt(events[1..], next, k - 1, raw);
        }
        if k :| 0 <= k < |events[1..]| && BreaksAt(events[1..], next, k, raw) {
          BreaksLater(events, s, k + 1, raw);
          assert BreaksAt(events, s, k + 1, raw);
        }
      } else {
        OutForGood(events[1..], next, raw);
      }
    }
  }

  /** Giving a connection back: a broken one is closed and nobody has it in any future; a healthy one is
      still open, and the next to be lent. */
  lemma GivenBack(events: seq<Event>, s: System, c: Ctx, broken: bool)
    requires Inv(s) && c in s.ctxs && s.ctxs[c].act.Returning?
    ensures var raw, t := s.ctxs[c].act.raw, Apply(GiveBack(c, broken), s);
      if broken then
        raw !in Run(events, t).pool.all && forall o :: !Holds(Run(events, t), o, raw)
      else
        t.pool.all == s.pool.all && raw in t.pool.all && Acquire(t.pool, true).1 == Got(raw)
  {
    var raw, t := s.ctxs[c].act.raw, Apply(GiveBack(c, broken), s);
    ReturningIsOpen(s, c);
    StepKeepsInv(GiveBack(c, broken), s);
    if broken {
      StepCloses(GiveBack(c, broken), s, raw);
      OutForGood(events, t, raw);
    }
  }

  // ---------------------------------------------------------------- statements and blocks

  /** A statement runs on the pinned connection of its context's live transaction, which leaves the pool
      alone; without one it runs on a connection that no transaction has, or not yet. */
  lemma StatementRunsOn(s: System, c: Ctx, connects: bool)
    requires Inv(s) && c in s.ctxs && s.ctxs[c].act.Outside?
    ensures var t, token := Apply(BeginStatement(c, connects), s), s.ctxs[c].token;
      c in t.ctxs && if token.Some? && token.value in s.pool.active then
        t.pool == s.pool && t.ctxs[c].act == OnPinned(token.value, s.pool.active[token.value].raw)
      else
        t.ctxs[c].act.Outside? ||
        (t.ctxs[c].act.Borrowed? && forall u :: u in t.pool.active ==> t.pool.active[u].raw != t.ctxs[c].act.raw)
  {
    var t := Apply(BeginStatement(c, connects), s);
    StepKeepsInv(BeginStatement(c, connects), s);
    PoolInOrder(t);
  }

  /** What is started from a context with an open root runs on its connection too. */
  lemma CopyJoins(s: System, c: Ctx, copy: Ctx, connects: bool)
    requires Inv(s) && c in s.ctxs && copy !in s.ctxs
    requires s.ctxs[c].token.Some? && s.ctxs[c].token.value in s.pool.active
    ensures var t := Apply(BeginStatement(copy, connects), Apply(CopyContext(c, copy), s));
      copy in t.ctxs && t.ctxs[copy].act == OnPinned(s.ctxs[c].token.value, s.pool.active[s.ctxs[c].token.value].raw)
  {
    var copied := Apply(CopyContext(c, copy), s);
    StepKeepsInv(CopyContext(c, copy), s);
    StatementRunsOn(copied, copy, connects);
  }

  /** A nested block, entered and left, leaves no trace, and meanwhile the root cannot be left. */
  lemma NestedBlock(s: System, c: Ctx, d: Ctx, connects: bool)
    requires Inv(s) && c in s.ctxs && s.ctxs[c].act.Outside? && d in s.ctxs
    requires s.ctxs[c].token.Some? && s.ctxs[c].token.value in s.pool.active && s.ctxs[d].token == s.ctxs[c].token
    ensures var t := Apply(EnterAtomic(c, connects), s);
      Apply(ExitNested(c), t) == s && Apply(ExitRoot(d), t) == t
  {
    var token, t := s.ctxs[c].token.value, Apply(EnterAtomic(c, connects), s);
    assert s.pool.active[token].depth >= 1;
    assert t.pool.active[token].depth == s.pool.active[token].depth + 1;
    assert Apply(ExitNested(c), t).pool.active == s.pool.active;
  }

  /** The owner of an open root keeps its token, and is between statements or on its connection. */
  ghost predicate OwnersHold(s: System) {
    forall t :: t in s.pool.active ==> OwnerHolds(s, t)
  }

  ghost predicate OwnerHolds(s: System, t: Token)
    requires t in s.pool.active
  {
    var o := s.pool.active[t].owner;
    && o in s.ctxs && s.ctxs[o].token == Some(t)
    && (s.ctxs[o].act.Outside? || (s.ctxs[o].act.OnPinned? && s.ctxs[o].act.token == t))
  }

  lemma StepKeepsOwners(e: Event, s: System)
    requires Inv(s) && OwnersHold(s)
    ensures OwnersHold(Apply(e, s))
  {
    var s' := Apply(e, s);
    forall t | t in s'.pool.active ensures OwnerHolds(s', t) {
      if t in s.pool.active { assert OwnerHolds(s, t); }
    }
  }

  lemma {:induction false} RunKeepsOwners(events: seq<Event>, s: System)
    requires Inv(s) && OwnersHold(s)
    ensures OwnersHold(Run(events, s))
  {
    if events != [] {
      StepKeepsInv(events[0], s);
      StepKeepsOwners(events[0], s);
      RunKeepsOwners(events[1..], Apply(events[0], s));
    }
  }

  lemma StepKeepsRoot(e: Event, s: System, t: Token)
    requires t in s.pool.active && t < s.pool.nextToken && t in Apply(e, s).pool.active
    ensures var a, b := s.pool.active[t], Apply(e, s).pool.active[t];
      a.raw == b.raw && a.owner == b.owner && a.previous == b.previous
  {
    hide NoStatementOn;
  }

  lemma TokenIssued(s: System, e: Event, t: Token)
    requires Inv(s) && t in s.pool.active
    ensures t < s.pool.nextToken && t < Apply(e, s).pool.nextToken
  {
  }

  /** While a root is open its connection, its owner and what the owner had before stay the same. */
  lemma {:induction false} OpenRootStays(events: seq<Event>, s: System, t: Token)
    requires Inv(s) && t in s.pool.active && t in Run(events, s).pool.active
    ensures var a, b := s.pool.active[t], Run(events, s).pool.active[t];
      a.raw == b.raw && a.owner == b.owner && a.previous == b.previous
  {
    hide Inv;
    hide Apply;
    if events != [] {
      var next := Apply(events[0], s);
      StepKeepsInv(events[0], s);
      TokenIssued(s, events[0], t);
      if t !in next.pool.active { RetiredTokenStaysRetired(events[1..], next, t); }
      StepKeepsRoot(events[0], s, t);
      OpenRootStays(events[1..], next, t);
    }
  }

  /** Main result: a root block keeps one connection from its beginning to its end, whatever happens in
      between; its end retires the token, and gives its owner back the token from before. */
  lemma RootBlock(s: System, c: Ctx, events: seq<Event>)
    requires Inv(s) && OwnersHold(s) && c in s.ctxs && s.ctxs[c].act.Borrowed? && s.ctxs[c].act.purpose.ForRoot?
    ensures s.pool.nextToken !in s.pool.active && s.pool.nextToken in Apply(BeginRoot(c), s).pool.active
    ensures var t, inside := s.pool.nextToken, Run(events, Apply(BeginRoot(c), s));
      t in inside.pool.active ==>
        && inside.pool.active[t].raw == s.ctxs[c].act.raw && c in inside.ctxs && inside.ctxs[c].token == Some(t)
        && var after := Apply(ExitRoot(c), inside);
           after != inside ==>
             t !in after.pool.active && after.ctxs[c] == Context(Returning(s.ctxs[c].act.raw), s.ctxs[c].token)
  {
    var t, begun := s.pool.nextToken, Apply(BeginRoot(c), s);
    StepKeepsInv(BeginRoot(c), s);
    StepKeepsOwners(BeginRoot(c), s);
    RunKeepsOwners(events, begun);
    var inside := Run(events, begun);
    if t in inside.pool.active {
      OpenRootStays(events, begun, t);
      assert OwnerHolds(inside, t);
    }
  }

  // ---------------------------------------------------------------- every wait ends

  lemma {:induction false} RunAppend(a: seq<Event>, b: seq<Event>, s: System)
    ensures Run(a + b, s) == Run(b, Run(a, s))
  {
    if a == [] {
      assert a + b == b;
    } else {
      assert (a + b)[1..] == a[1..] + b && (a + b)[0] == a[0];
      RunAppend(a[1..], b, Apply(a[0], s));
    }
  }

  /** Events of other contexts that finish what they are doing. */
  ghost predicate Finishing(events: seq<Event>, c: Ctx) {
    forall e :: e in events ==> e.c != c && !e.CopyContext?
  }

  lemma {:induction false} FinishingSpares(events: seq<Event>, s: System, c: Ctx)
    requires c in s.ctxs && Finishing(events, c)
    ensures c in Run(events, s).ctxs && Run(events, s).ctxs[c] == s.ctxs[c]
  {
    if events != [] {
      assert events[0] in events && forall e :: e in events[1..] ==> e in events;
      FinishingSpares(events[1..], Apply(events[0], s), c);
    }
  }

  /** A context with no open root of its own. */
  ghost predicate Bystander(s: System, c: Ctx) {
    c in s.ctxs && s.ctxs[c].act.Outside? && CurrentTx(s.pool, s.ctxs[c].token).None?
  }

  ghost function OnRoot(s: System, t: Token): set<Ctx> {
    set c | c in s.ctxs && s.ctxs[c].act.OnPinned? && s.ctxs[c].act.token == t
  }

  /** The statements running on an open root end. */
  lemma {:induction false} StatementsEnd(s: System, t: Token, c: Ctx) returns (events: seq<Event>)
    requires Inv(s) && OwnersHold(s) && t in s.pool.active && Bystander(s, c)
    ensures Finishing(events, c)
    ensures var r := Run(events, s); r.pool == s.pool && OnRoot(r, t) == {} && Inv(r) && OwnersHold(r)
    decreases |OnRoot(s, t)|
  {
    if OnRoot(s, t) == {} {
      events := [];
    } else {
      var d :| d in OnRoot(s, t);
      var next := Apply(EndStatement(d), s);
      StepKeepsInv(EndStatement(d), s);
      StepKeepsOwners(EndStatement(d), s);
      assert OnRoot(next, t) == OnRoot(s, t) - {d};
      var rest := StatementsEnd(next, t, c);
      events := [EndStatement(d)] + rest;
      RunAppend([EndStatement(d)], rest, s);
    }
  }

  /** Then its nested blocks are left. */
  lemma {:induction false} NestedBlocksEnd(s: System, t: Token, c: Ctx) returns (events: seq<Event>)
    requires Inv(s) && OwnersHold(s) && t in s.pool.active && Bystander(s, c) && OnRoot(s, t) == {}
    ensures Finishing(events, c)
    ensures var r := Run(events, s);
      && Inv(r) && OwnersHold(r) && OnRoot(r, t) == {} && r.pool.idle == s.pool.idle
      && t in r.pool.active && r.pool.active[t].depth == 1
    decreases s.pool.active[t].depth
  {
    if s.pool.active[t].depth == 1 {
      events := [];
    } else {
      var o := s.pool.active[t].owner;
      assert OwnerHolds(s, t) && o !in OnRoot(s, t);
      var next := Apply(ExitNested(o), s);
      StepKeepsInv(ExitNested(o), s);
      StepKeepsOwners(ExitNested(o), s);
      assert next.ctxs == s.ctxs;
      var rest := NestedBlocksEnd(next, t, c);
      events := [ExitNested(o)] + rest;
      RunAppend([ExitNested(o)], rest, s);
    }
  }

  lemma RootLeft(s: System, t: Token, o: Ctx)
    requires Inv(s) && OwnersHold(s) && t in s.pool.active && s.pool.active[t].owner == o
    requires s.pool.active[t].depth == 1 && OnRoot(s, t) == {}
    ensures Run([ExitRoot(o), GiveBack(o, false)], s).pool.idle != []
  {
    assert OwnerHolds(s, t) && o !in OnRoot(s, t);
    forall d | d in s.ctxs ensures !(s.ctxs[d].act.OnPinned? && s.ctxs[d].act.token == t) {
      assert d !in OnRoot(s, t);
    }
    assert NoStatementOn(s, t);
    var left := Apply(ExitRoot(o), s);
    assert left.ctxs[o].act.Returning?;
    assert [ExitRoot(o), GiveBack(o, false)][1..] == [GiveBack(o, false)] && [GiveBack(o, false)][1..] == [];
    assert Run([GiveBack(o, false)], left) == Apply(GiveBack(o, false), left);
  }

  /** And the root ends, and gives its connection back. */
  lemma RootEnds(s: System, t: Token, c: Ctx) returns (events: seq<Event>)
    requires Inv(s) && OwnersHold(s) && t in s.pool.active && Bystander(s, c)
    ensures Finishing(events, c) && Run(events, s).pool.idle != []
  {
    hide Inv;
    var first := StatementsEnd(s, t, c);
    var a := Run(first, s);
    FinishingSpares(first, s, c);
    var second := NestedBlocksEnd(a, t, c);
    var b := Run(second, a);
    FinishingSpares(second, a, c);
    var o := b.pool.active[t].owner;
    assert OwnerHolds(b, t) && o != c;
    RootLeft(b, t, o);
    var last := [ExitRoot(o), GiveBack(o, false)];
    events := first + (second + last);
    RunAppend(first, second + last, s);
    RunAppend(second, last, a);
    assert forall e :: e in events <==> e in first || e in second || e in last;
  }

  lemma OneEvent(e: Event, s: System)
    ensures Run([e], s) == Apply(e, s)
  {
    assert [e][1..] == [];
  }

  /** Whoever has borrowed a connection can finish, and it is idle again. */
  lemma BorrowerFinishes(s: System, d: Ctx, c: Ctx) returns (events: seq<Event>)
    requires Inv(s) && OwnersHold(s) && Bystander(s, c)
    requires d in s.ctxs && (s.ctxs[d].act.Borrowed? || s.ctxs[d].act.Returning?)
    ensures Finishing(events, c) && Run(events, s).pool.idle != []
  {
    var back := GiveBack(d, false);
    if s.ctxs[d].act.Returning? {
      events := [back];
      OneEvent(back, s);
    } else if s.ctxs[d].act.purpose.ForStatement? {
      events := [EndStatement(d)] + [back];
      OneEvent(EndStatement(d), s);
      OneEvent(back, Apply(EndStatement(d), s));
      RunAppend([EndStatement(d)], [back], s);
    } else {
      var begun := Apply(BeginRoot(d), s);
      StepKeepsInv(BeginRoot(d), s);
      StepKeepsOwners(BeginRoot(d), s);
      var rest := RootEnds(begun, s.pool.nextToken, c);
      events := [BeginRoot(d)] + rest;
      OneEvent(BeginRoot(d), s);
      RunAppend([BeginRoot(d)], rest, s);
    }
  }

  /** When nothing is idle and no more may be opened, some other context can finish. */
  lemma SomeoneFinishes(s: System, c: Ctx) returns (events: seq<Event>)
    requires Inv(s) && OwnersHold(s) && Bystander(s, c) && s.pool.size >= 1
    requires s.pool.idle == [] && |s.pool.all| == s.pool.size
    ensures Finishing(events, c) && Run(events, s).pool.idle != []
  {
    var raw := s.pool.all[0];
    assert raw in s.pool.all;
    var o :| Holds(s, o, raw);
    match o
    case InContext(d) => events := BorrowerFinishes(s, d, c);
    case InTx(t) => events := RootEnds(s, t, c);
    case InIdle(i) => assert false;
  }

  /** Main result: no wait is for ever. In every reachable state a context that asks for a connection gets
      one, after others have finished what they are doing. */
  lemma EveryWaitEnds(s: System, c: Ctx) returns (events: seq<Event>)
    requires Inv(s) && OwnersHold(s) && Bystander(s, c) && s.pool.size >= 1
    ensures Finishing(events, c)
    ensures var r := Apply(BeginStatement(c, true), Run(events, s));
      c in r.ctxs && r.ctxs[c].act.Borrowed? && r.ctxs[c].act.purpose.ForStatement?
    ensures var r := Apply(EnterAtomic(c, true), Run(events, s));
      c in r.ctxs && r.ctxs[c].act.Borrowed? && r.ctxs[c].act.purpose.ForRoot?
  {
    if s.pool.idle == [] && |s.pool.all| == s.pool.size {
      events := SomeoneFinishes(s, c);
    } else {
      events := [];
    }
    FinishingSpares(events, s, c);
    RunKeepsInv(events, s);
    StillBystander(events, s, c);
  }

  /** A token that is not live stays so. */
  lemma StillBystander(events: seq<Event>, s: System, c: Ctx)
    requires Inv(s) && Bystander(s, c) && Finishing(events, c)
    ensures Bystander(Run(events, s), c)
  {
    FinishingSpares(events, s, c);
    if s.ctxs[c].token.Some? { RetiredTokenStaysRetired(events, s, s.ctxs[c].token.value); }
  }

  lemma StartIsHeld(size: nat, contexts: set<Ctx>)
    ensures Inv(Start(size, contexts)) && OwnersHold(Start(size, contexts))
  {
  }
}
