/** Every request gets an answer: what it waits for is another request's uncommitted write, and that one
    can go on. */
module ShopProgress {
  import opened Basics
  import opened Shop
  import opened ShopKeys

  predicate Ended(q: Request) { q.stage.Answered? || q.stage.Gone? }

  /** Statements still to execute, at most. */
  function Left(stage: Stage): nat {
    match stage
    case Claiming => 7
    case KeyInserted => 6
    case LookingUp => 1
    case Claimed => 5
    case Priced(_) => 4
    case Charged(_, _) => 3
    case Purchased(_, _, _) => 2
    case Finishing(_, _) => 1
    case Checking => 4
    case Inserting => 3
    case PaymentInserted => 2
    case Credited(_) => 1
    case Answered(_) => 0
    case Gone => 0
  }

  /** What a request waits for: a key, a wallet row or a payment id that another one has written and not
      committed. */
  predicate Waits(s: System, r: int)
    requires r in s.requests
  {
    var q := s.requests[r];
    match q.stage
    case Claiming => q.Buy? && q.key !in s.db.records && !KeyFree(s, q.key)
    case Priced(_) => !RowFree(s, q.user)
    case Inserting => q.Pay? && !PaymentKnown(s.db.payments, q.externalId) && !PaymentFree(s, q.externalId)
    case PaymentInserted => !RowFree(s, q.user)
    case _ => false
  }

  ghost predicate Fine(s: System) { Money(s) && Keyed(s) && Kinds(s) }

  /** Purchases and webhook calls keep to their own stages. */
  ghost predicate Kinds(s: System) { forall r :: r in s.requests ==> Kind(s.requests[r]) }

  predicate Kind(q: Request) {
    match q.stage
    case Claiming => q.Buy?
    case KeyInserted => q.Buy?
    case LookingUp => q.Buy?
    case Claimed => q.Buy?
    case Priced(_) => q.Buy?
    case Charged(_, _) => q.Buy?
    case Purchased(_, _, _) => q.Buy?
    case Finishing(_, _) => q.Buy?
    case Checking => q.Pay?
    case Inserting => q.Pay?
    case PaymentInserted => q.Pay?
    case Credited(_) => q.Pay?
    case Answered(_) => true
    case Gone => true
  }

  lemma NextKeepsKinds(s: System, e: Event)
    requires Kinds(s)
    ensures Kinds(Next(s, e))
  {
    hide RowFree;
    hide KeyFree;
    hide PaymentFree;
    hide PaymentKnown;
    forall r | r in Next(s, e).requests ensures Kind(Next(s, e).requests[r]) {
      if r in s.requests { assert Kind(s.requests[r]); }
    }
  }

  lemma NextKeepsFine(s: System, e: Event)
    requires Fine(s)
    ensures Fine(Next(s, e))
  {
    NextKeepsMoney(s, e);
    NextKeepsKeys(s, e);
    NextKeepsKinds(s, e);
  }

  lemma {:induction false} RunKeepsFine(s: System, es: seq<Event>)
    requires Fine(s)
    ensures Fine(Run(s, es))
    decreases es
  {
    hide Fine;
    if es != [] {
      NextKeepsFine(s, es[0]);
      RunKeepsFine(Next(s, es[0]), es[1..]);
    }
  }

  // ---------------------------------------------------------------- one request goes on

  lemma BuyGoesOn(s: System, r: int)
    requires Fine(s) && r in s.requests && s.requests[r].Buy? && !Ended(s.requests[r]) && !Waits(s, r)
    ensures var t := Advance(s, r); r in t.requests && Left(t.requests[r].stage) < Left(s.requests[r].stage)
  {
    assert Kind(s.requests[r]);
    RequestAt(s, r);
    PendingAt(s, r);
    hide Money;
    hide Keyed;
    hide Truthful;
    hide KeyBought;
    hide RowFree;
    hide KeyFree;
  }

  lemma PayGoesOn(s: System, r: int)
    requires Fine(s) && r in s.requests && s.requests[r].Pay? && !Ended(s.requests[r]) && !Waits(s, r)
    ensures var t := Advance(s, r); r in t.requests && Left(t.requests[r].stage) < Left(s.requests[r].stage)
  {
    assert Kind(s.requests[r]);
    PendingAt(s, r);
    hide Money;
    hide Keyed;
    hide RowFree;
    hide PaymentFree;
    hide PaymentKnown;
  }

  /** A request that does not wait executes its next statement. */
  lemma GoesOn(s: System, r: int)
    requires Fine(s) && r in s.requests && !Ended(s.requests[r]) && !Waits(s, r)
    ensures var t := Next(s, Move(r)); r in t.requests && Left(t.requests[r].stage) < Left(s.requests[r].stage)
  {
    if s.requests[r].Buy? { BuyGoesOn(s, r); } else { PayGoesOn(s, r); }
  }

  /** Moves of requests outside `keep`, after which those of `keep` stand where they stood. */
  ghost predicate Spares(s: System, es: seq<Event>, keep: set<int>) {
    && (forall e :: e in es ==> e.Move? && e.r !in keep)
    && (forall r :: r in keep ==>
          r in s.requests && r in Run(s, es).requests && Run(s, es).requests[r] == s.requests[r])
  }

  lemma OthersMove(s: System, x: int, keep: set<int>)
    requires x in s.requests && x !in keep && keep <= s.requests.Keys
    ensures Spares(s, [Move(x)], keep) && Run(s, [Move(x)]) == Advance(s, x)
    ensures keep <= Advance(s, x).requests.Keys
  {
    hide Advance;
    AdvanceMoves(s, x);
    assert [Move(x)][1..] == [];
    assert Run(s, [Move(x)]) == Next(s, Move(x));
    forall r | r in keep ensures r in s.requests && r in Advance(s, x).requests {
      assert r in s.requests.Keys;
    }
  }

  lemma SparesMore(s: System, a: seq<Event>, b: seq<Event>, keep: set<int>)
    requires Spares(s, a, keep) && Spares(Run(s, a), b, keep)
    ensures Spares(s, a + b, keep) && Run(s, a + b) == Run(Run(s, a), b)
  {
    RunAppend(s, a, b);
    assert forall e :: e in a + b ==> e in a || e in b;
  }

  // ---------------------------------------------------------------- whoever holds a write can commit it

  /** Only one request holds a row. */
  lemma RowLetGo(s: System, x: int, u: int)
    requires Fine(s) && x in s.requests && Row(s.requests[x]) == Some(u)
    requires x in Advance(s, x).requests && Row(Advance(s, x).requests[x]) != Some(u)
    ensures RowFree(Advance(s, x), u)
  {
    var t := Advance(s, x);
    AdvanceMoves(s, x);
    hide Advance;
    forall y | y in t.requests ensures Row(t.requests[y]) != Some(u) {
      if y != x {
        assert y in s.requests && t.requests[y] == s.requests[y];
        ApartAt(s, x, y);
      }
    }
  }

  lemma RowCommitted(s: System, x: int, u: int)
    requires Fine(s) && x in s.requests && Row(s.requests[x]) == Some(u) && !s.requests[x].stage.Charged?
    ensures RowFree(Advance(s, x), u)
  {
    PendingAt(s, x);
    AdvanceMoves(s, x);
    RowLetGo(s, x, u);
  }

  lemma ChargedHolds(s: System, x: int)
    requires x in s.requests && s.requests[x].Buy? && s.requests[x].stage.Charged?
    ensures var t := Advance(s, x);
      x in t.requests && t.requests[x].stage.Purchased? && Row(t.requests[x]) == Row(s.requests[x])
  {
  }

  lemma HolderIsBuyer(s: System, x: int)
    requires Fine(s) && x in s.requests && s.requests[x].stage.Charged?
    ensures s.requests[x].Buy?
  {
    assert Kind(s.requests[x]);
  }

  /** A purchase that holds a wallet row commits it in at most two statements, a webhook call in one. */
  lemma RowIsFreed(s: System, x: int, u: int, keep: set<int>) returns (es: seq<Event>)
    requires Fine(s) && x in s.requests && Row(s.requests[x]) == Some(u) && x !in keep && keep <= s.requests.Keys
    ensures Spares(s, es, keep) && RowFree(Run(s, es), u)
  {
    hide Fine;
    hide Spares;
    hide RowFree;
    hide Advance;
    OthersMove(s, x, keep);
    if s.requests[x].stage.Charged? {
      var mid := Advance(s, x);
      HolderIsBuyer(s, x);
      ChargedHolds(s, x);
      NextKeepsFine(s, Move(x));
      OthersMove(mid, x, keep);
      es := [Move(x)] + [Move(x)];
      SparesMore(s, [Move(x)], [Move(x)], keep);
      RowCommitted(mid, x, u);
    } else {
      es := [Move(x)];
      RowCommitted(s, x, u);
    }
  }

  lemma PaymentCommitted(s: System, x: int)
    requires x in s.requests && s.requests[x].Pay? && s.requests[x].stage.Credited?
    ensures PaymentKnown(Advance(s, x).db.payments, s.requests[x].externalId)
  {
    var ps := Advance(s, x).db.payments;
    assert ps[|s.db.payments|].externalId == s.requests[x].externalId;
  }

  lemma CreditMoves(s: System, x: int)
    requires Fine(s) && x in s.requests && s.requests[x].Pay? && s.requests[x].stage.PaymentInserted?
    requires RowFree(s, s.requests[x].user)
    ensures var t := Advance(s, x);
      x in t.requests && t.requests[x].Pay? && t.requests[x].stage.Credited?
      && t.requests[x].externalId == s.requests[x].externalId
  {
    PendingAt(s, x);
  }

  /** A webhook call that has inserted its payment gets to credit the wallet, after whoever has its row. */
  lemma CreditIsDue(s: System, x: int, r: int) returns (es: seq<Event>)
    requires Fine(s) && x in s.requests && s.requests[x].Pay? && s.requests[x].stage.PaymentInserted?
    requires r in s.requests && r != x && s.requests[r].stage.Inserting?
    ensures Spares(s, es, {r})
    ensures var t := Run(s, es);
      x in t.requests && t.requests[x].Pay? && t.requests[x].stage.Credited?
      && t.requests[x].externalId == s.requests[x].externalId
  {
    hide Fine;
    hide Advance;
    var u, first := s.requests[x].user, [];
    if y :| y in s.requests && Row(s.requests[y]) == Some(u) { first := RowIsFreed(s, y, u, {r, x}); }
    var mid := Run(s, first);
    assert r in {r, x} && x in {r, x};
    assert Spares(s, first, {r, x}) && RowFree(mid, u);
    assert Spares(s, first, {r});
    RunKeepsFine(s, first);
    CreditMoves(mid, x);
    OthersMove(mid, x, {r});
    SparesMore(s, first, [Move(x)], {r});
    es := first + [Move(x)];
  }

  // ---------------------------------------------------------------- so every wait ends

  lemma KeyCommitted(s: System, x: int)
    requires x in s.requests && KeyHeld(s.requests[x]).Some?
    ensures KeyHeld(s.requests[x]).value in Advance(s, x).db.records
  {
  }

  /** A key that is being inserted is committed by one statement. */
  lemma KeyIsClaimed(s: System, k: string, r: int) returns (es: seq<Event>)
    requires !KeyFree(s, k) && r in s.requests && s.requests[r].stage.Claiming?
    ensures Spares(s, es, {r}) && k in Run(s, es).db.records
  {
    hide Advance;
    hide Spares;
    var x :| x in s.requests && KeyHeld(s.requests[x]) == Some(k);
    es := [Move(x)];
    KeyCommitted(s, x);
    OthersMove(s, x, {r});
  }

  /** And so is a payment id, if need be after the credit it comes with. */
  lemma PaymentIsMade(s: System, p: string, r: int) returns (es: seq<Event>)
    requires Fine(s) && !PaymentFree(s, p) && r in s.requests && s.requests[r].stage.Inserting?
    ensures Spares(s, es, {r}) && PaymentKnown(Run(s, es).db.payments, p)
  {
    hide Fine;
    hide Advance;
    hide PaymentKnown;
    var x :| x in s.requests && PaymentHeld(s.requests[x]) == Some(p);
    var first := [];
    if s.requests[x].stage.PaymentInserted? { first := CreditIsDue(s, x, r); }
    var mid := Run(s, first);
    assert Spares(s, first, {r}) && r in {r};
    PaymentCommitted(mid, x);
    OthersMove(mid, x, {r});
    SparesMore(s, first, [Move(x)], {r});
    es := first + [Move(x)];
  }

  /** What a request waits for comes, by moves of others. */
  lemma WaitEnds(s: System, r: int) returns (es: seq<Event>)
    requires Fine(s) && r in s.requests && Waits(s, r)
    ensures Spares(s, es, {r}) && !Waits(Run(s, es), r)
  {
    hide Fine;
    hide PaymentKnown;
    hide Spares;
    var q := s.requests[r];
    if q.stage.Claiming? {
      es := KeyIsClaimed(s, q.key, r);
    } else if q.stage.Inserting? {
      es := PaymentIsMade(s, q.externalId, r);
    } else {
      var x :| x in s.requests && Row(s.requests[x]) == Some(q.user);
      es := RowIsFreed(s, x, q.user, {r});
    }
    SparedStays(s, es, r);
  }

  lemma SparedStays(s: System, es: seq<Event>, r: int)
    requires Spares(s, es, {r})
    ensures r in s.requests && r in Run(s, es).requests && Run(s, es).requests[r] == s.requests[r]
  {
    assert r in {r};
  }

  /** Main result: nobody waits for ever. From every reachable state, statements of the requests there are
      bring any one of them to its end. */
  lemma {:induction false} EveryRequestEnds(s: System, r: int) returns (es: seq<Event>)
    requires Fine(s) && r in s.requests
    ensures (forall e :: e in es ==> e.Move?) && r in Run(s, es).requests && Ended(Run(s, es).requests[r])
    decreases Left(s.requests[r].stage)
  {
    hide Fine;
    hide Waits;
    hide Next;
    if Ended(s.requests[r]) {
      es := [];
    } else {
      var first := [];
      if Waits(s, r) { first := WaitEnds(s, r); }
      var mid, e := Run(s, first), Move(r);
      RunKeepsFine(s, first);
      assert r in {r} && mid.requests[r] == s.requests[r];
      GoesOn(mid, r);
      NextKeepsFine(mid, e);
      var rest := EveryRequestEnds(Next(mid, e), r);
      es := first + ([e] + rest);
      RunAppend(s, first, [e] + rest);
      RunAppend(mid, [e], rest);
      assert [e][1..] == [] && Run(mid, [e]) == Run(Next(mid, e), []);
    }
  }

  lemma StartIsFine()
    ensures Fine(Start())
  {
    StartIsGood();
  }
}
