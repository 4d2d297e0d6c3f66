/** Idempotency keys: one claimer, at most one purchase, one final answer, replayed ever after. */
module ShopKeys {
  import opened Basics
  import opened Shop

  predicate KeyBought(ps: seq<Purchase>, k: string) { exists i :: 0 <= i < |ps| && ps[i].key == k }

  /** `status` and `body` say truly what became of key `k`: one purchase by that user, or none. */
  ghost predicate Truthful(ps: seq<Purchase>, k: string, user: int, status: int, body: Body) {
    if status == 201 then
      exists i :: 0 <= i < |ps| && ps[i].key == k && ps[i].user == user &&
        body == Bought(ps[i].id, ps[i].product, ps[i].price)
    else
      ((status == 402 && body == InsufficientFunds) || (status == 404 && body == NoSuchProduct)) && !KeyBought(ps, k)
  }

  /** The stages of a request that has claimed its key. */
  predicate Past(stage: Stage) {
    stage.Claimed? || stage.Priced? || stage.Charged? || stage.Purchased? || stage.Finishing? || stage.Answered? ||
      stage.Gone?
  }

  ghost predicate OwnedBy(s: System, k: string, r: int) { k in s.db.records && k in s.owner && s.owner[k] == r }

  /** Key `k` was claimed by its owner, and its record is unfinished or true. */
  ghost predicate RecordOk(s: System, k: string) {
    k in s.db.records ==>
      && k in s.owner && s.owner[k] in s.requests
      && (var q := s.requests[s.owner[k]]; q.Buy? && q.key == k && q.user == s.db.records[k].user && Past(q.stage))
      && (s.db.records[k].status == 0 ||
        Truthful(s.db.purchases, k, s.db.records[k].user, s.db.records[k].status, s.db.records[k].body))
  }

  /** What a purchase request knows at each stage. */
  ghost predicate RequestOk(s: System, r: int, q: Request) {
    q.Buy? ==>
      match q.stage
      case KeyInserted => q.key !in s.db.records
      case LookingUp => q.key in s.db.records && !OwnedBy(s, q.key, r)
      case Claimed => Holder(s, r, q) && !KeyBought(s.db.purchases, q.key)
      case Priced(_) => Holder(s, r, q) && !KeyBought(s.db.purchases, q.key)
      case Charged(_, _) => Holder(s, r, q) && !KeyBought(s.db.purchases, q.key)
      case Purchased(_, _, _) => Holder(s, r, q) && !KeyBought(s.db.purchases, q.key)
      case Finishing(status, body) => Holder(s, r, q) && Truthful(s.db.purchases, q.key, q.user, status, body)
      case Answered(response) => AnswerOk(s, r, q, response)
      case Claiming => !OwnedBy(s, q.key, r)
      case Gone => true
      case _ => false
  }

  ghost predicate Holder(s: System, r: int, q: Request)
    requires q.Buy?
  {
    OwnedBy(s, q.key, r) && s.db.records[q.key].status == 0 && s.db.records[q.key].user == q.user
  }

  ghost predicate AnswerOk(s: System, r: int, q: Request, response: Response)
    requires q.Buy?
  {
    && q.key in s.db.records
    && var record := s.db.records[q.key];
    match response
    case Stored(status, body) => OwnedBy(s, q.key, r) && status != 0 && record == Record(q.user, status, body)
    case Replayed(status, body) => !OwnedBy(s, q.key, r) && status != 0 && record == Record(q.user, status, body)
    case OtherAccount => !OwnedBy(s, q.key, r) && record.user != q.user
    case StillProcessing => !OwnedBy(s, q.key, r) && record.user == q.user
    case InvalidId => Holder(s, r, q)
    case _ => false
  }

  /** Every purchase was made under a claimed key, by the claimer's user, and once per key. */
  ghost predicate PurchasesOk(s: System) {
    && KeysOnce(s.db.purchases)
    && forall i :: 0 <= i < |s.db.purchases| ==>
         var p := s.db.purchases[i]; p.key in s.db.records && s.db.records[p.key].user == p.user
  }

  ghost predicate Keyed(s: System) {
    && PurchasesOk(s)
    && (forall k :: k in s.db.records ==> RecordOk(s, k))
    && (forall r :: r in s.requests ==> RequestOk(s, r, s.requests[r]))
  }

  lemma RequestAt(s: System, r: int)
    requires Keyed(s) && r in s.requests
    ensures RequestOk(s, r, s.requests[r])
  {
  }

  /** A request that only moves on: its new stage must hold, and an owner stays past its claim. */
  lemma MoveKeepsKeys(s: System, r: int, stage: Stage)
    requires Keyed(s) && r in s.requests && RequestOk(s, r, At(s.requests[r], stage))
    requires Past(s.requests[r].stage) ==> Past(stage)
    ensures Keyed(To(s, r, stage))
  {
    var t := To(s, r, stage);
    forall k | k in t.db.records ensures RecordOk(t, k) {
      assert RecordOk(s, k);
    }
    forall x | x in t.requests ensures RequestOk(t, x, t.requests[x]) {
      if x != r { assert RequestOk(s, x, s.requests[x]); }
      FrameRequest(s, t, x, t.requests[x]);
    }
  }

  /** What a request knows does not depend on other requests, wallets, payments or prices. */
  lemma FrameRequest(s: System, t: System, r: int, q: Request)
    requires s.db.records == t.db.records && s.db.purchases == t.db.purchases && s.owner == t.owner
    ensures RequestOk(s, r, q) == RequestOk(t, r, q)
  {
  }

  lemma KeysFrame(s: System, t: System)
    requires Keyed(s) && s.db.records == t.db.records && s.db.purchases == t.db.purchases
    requires s.owner == t.owner && s.requests == t.requests
    ensures Keyed(t)
  {
    forall k | k in t.db.records ensures RecordOk(t, k) {
      assert RecordOk(s, k);
    }
    forall x | x in t.requests ensures RequestOk(t, x, t.requests[x]) {
      assert RequestOk(s, x, s.requests[x]);
      FrameRequest(s, t, x, t.requests[x]);
    }
  }

  /** COMMIT of a claim: the key gets its record, unfinished. */
  lemma ClaimKeepsKeys(s: System, r: int)
    requires Money(s) && Keyed(s) && r in s.requests && s.requests[r].Buy? && s.requests[r].stage.KeyInserted?
    ensures Keyed(Advance(s, r))
  {
    var q, t := s.requests[r], Advance(s, r);
    assert RequestOk(s, r, q);
    forall k | k in t.db.records ensures RecordOk(t, k) {
      if k != q.key { assert RecordOk(s, k); }
    }
    forall i | 0 <= i < |s.db.purchases| ensures s.db.purchases[i].key != q.key {
      assert s.db.purchases[i].key in s.db.records;
    }
    forall x | x in t.requests ensures RequestOk(t, x, t.requests[x]) {
      if x != r {
        assert Apart(q, s.requests[x]) && RequestOk(s, x, s.requests[x]);
      }
    }
  }

  /** A purchase under another key leaves what is said of `k` true. */
  lemma StillTruthful(ps: seq<Purchase>, p: Purchase, k: string, user: int, status: int, body: Body)
    requires Truthful(ps, k, user, status, body) && p.key != k
    ensures Truthful(ps + [p], k, user, status, body)
  {
    if status == 201 {
      var i :| 0 <= i < |ps| && ps[i].key == k && ps[i].user == user &&
        body == Bought(ps[i].id, ps[i].product, ps[i].price);
      assert (ps + [p])[i] == ps[i];
    } else {
      StillUnbought(ps, p, k);
    }
  }

  lemma StillUnbought(ps: seq<Purchase>, p: Purchase, k: string)
    requires p.key != k
    ensures KeyBought(ps + [p], k) == KeyBought(ps, k)
  {
    if KeyBought(ps, k) {
      var i :| 0 <= i < |ps| && ps[i].key == k;
      assert (ps + [p])[i].key == k;
    }
    if KeyBought(ps + [p], k) {
      var i :| 0 <= i < |ps + [p]| && (ps + [p])[i].key == k;
      assert i < |ps| && ps[i].key == k;
    }
  }

  /** COMMIT of a purchase: the first and only one under its key. */
  lemma PurchaseKeepsKeys(s: System, r: int)
    requires Money(s) && Keyed(s) && r in s.requests && s.requests[r].Buy? && s.requests[r].stage.Purchased?
    ensures Keyed(Advance(s, r))
  {
    hide Money;
    hide RecordOk;
    hide PurchasesOk;
    hide Truthful;
    hide KeyBought;
    var q, t := s.requests[r], Advance(s, r);
    RequestAt(s, r);
    PendingAt(s, r);
    var ps, p := s.db.purchases, Purchase(q.stage.id, q.user, q.product.value, q.stage.price, q.key);
    assert t.db.purchases == ps + [p];
    PurchaseHere(s, t, r, p);
    forall k | k in t.db.records ensures RecordOk(t, k) { PurchasedRecord(s, t, r, p, k); }
    forall x | x in t.requests && x != r ensures RequestOk(t, x, t.requests[x]) {
      PurchaseElsewhere(s, r, x, p);
      FrameRequest(s.(db := s.db.(purchases := ps + [p])), t, x, s.requests[x]);
    }
  }

  /** The new purchase is the first under its key, and what its request says of it is true. */
  lemma PurchaseHere(s: System, t: System, r: int, p: Purchase)
    requires PurchasesOk(s) && r in s.requests && s.requests[r].Buy? && Holder(s, r, s.requests[r])
    requires !KeyBought(s.db.purchases, p.key) && p.key == s.requests[r].key && p.user == s.requests[r].user
    requires t.db.records == s.db.records && t.db.purchases == s.db.purchases + [p]
    ensures PurchasesOk(t)
    ensures Truthful(s.db.purchases + [p], p.key, p.user, 201, Bought(p.id, p.product, p.price))
  {
    assert (s.db.purchases + [p])[|s.db.purchases|] == p;
  }

  /** Its owner goes on past the claim, and what is recorded of other keys stays true. */
  lemma PurchasedRecord(s: System, t: System, r: int, p: Purchase, k: string)
    requires RecordOk(s, k) && k in s.db.records && r in s.requests && r in t.requests
    requires s.requests[r].Buy? && Holder(s, r, s.requests[r]) && p.key == s.requests[r].key
    requires s.db.records == t.db.records && s.owner == t.owner && t.db.purchases == s.db.purchases + [p]
    requires t.requests == s.requests[r := At(s.requests[r], t.requests[r].stage)] && Past(t.requests[r].stage)
    ensures RecordOk(t, k)
  {
    hide Truthful;
    var record := s.db.records[k];
    if record.status != 0 { StillTruthful(s.db.purchases, p, k, record.user, record.status, record.body); }
  }

  lemma PurchaseElsewhere(s: System, r: int, x: int, p: Purchase)
    requires Keyed(s) && r in s.requests && x in s.requests && x != r
    requires s.requests[r].Buy? && p.key == s.requests[r].key && OwnedBy(s, p.key, r) && Past(s.requests[r].stage)
    ensures var t := s.(db := s.db.(purchases := s.db.purchases + [p])); RequestOk(t, x, s.requests[x])
  {
    var q := s.requests[x];
    assert RequestOk(s, x, q);
    if q.Buy? && q.key != p.key {
      StillUnbought(s.db.purchases, p, q.key);
      if q.stage.Finishing? { StillTruthful(s.db.purchases, p, q.key, q.user, q.stage.status, q.stage.body); }
    }
  }

  /** UPDATE of the record: its first and last change. */
  lemma FinishKeepsKeys(s: System, r: int)
    requires Keyed(s) && r in s.requests && s.requests[r].Buy? && s.requests[r].stage.Finishing?
    ensures Keyed(Advance(s, r))
  {
    var q, t := s.requests[r], Advance(s, r);
    assert RequestOk(s, r, q);
    forall k | k in t.db.records ensures RecordOk(t, k) {
      assert RecordOk(s, k);
    }
    forall x | x in t.requests && x != r ensures RequestOk(t, x, t.requests[x]) {
      assert RequestOk(s, x, s.requests[x]);
    }
  }

  /** What a used key answers is true. */
  lemma AnswerIsOk(s: System, r: int)
    requires Keyed(s) && r in s.requests && s.requests[r].Buy? && s.requests[r].stage.LookingUp?
    ensures var q := s.requests[r]; q.key in s.db.records && AnswerOk(s, r, q, Answer(s.db.records[q.key], q.user))
  {
    RequestAt(s, r);
    assert RecordOk(s, s.requests[r].key);
  }

  lemma BuyKeepsKeys(s: System, r: int)
    requires Money(s) && Keyed(s) && r in s.requests && s.requests[r].Buy?
    ensures Keyed(Advance(s, r))
  {
    hide Money;
    hide Keyed;
    hide RecordOk;
    hide KeyBought;
    var q := s.requests[r];
    RequestAt(s, r);
    PendingAt(s, r);
    match q.stage
    case Claiming =>
      if q.key in s.db.records { MoveKeepsKeys(s, r, LookingUp); }
      else if KeyFree(s, q.key) { MoveKeepsKeys(s, r, KeyInserted); }
    case KeyInserted => ClaimKeepsKeys(s, r);
    case LookingUp =>
      AnswerIsOk(s, r);
      MoveKeepsKeys(s, r, Answered(Answer(s.db.records[q.key], q.user)));
    case Claimed =>
      if q.product.None? { MoveKeepsKeys(s, r, Answered(InvalidId)); }
      else if q.product.value !in s.products { MoveKeepsKeys(s, r, Finishing(404, NoSuchProduct)); }
      else { MoveKeepsKeys(s, r, Priced(s.products[q.product.value])); }
    case Priced(price) =>
      if !RowFree(s, q.user) { }
      else if q.user in s.db.wallets && s.db.wallets[q.user] >= price {
        MoveKeepsKeys(s, r, Charged(price, s.db.wallets[q.user] - price));
      }
      else { MoveKeepsKeys(s, r, Finishing(402, InsufficientFunds)); }
    case Charged(price, balance) =>
      MoveKeepsKeys(s, r, Purchased(price, balance, s.nextId));
      KeysFrame(To(s, r, Purchased(price, balance, s.nextId)), Advance(s, r));
    case Purchased(_, _, _) => PurchaseKeepsKeys(s, r);
    case Finishing(_, _) => FinishKeepsKeys(s, r);
    case _ =>
  }

  lemma PayKeepsKeys(s: System, r: int)
    requires Keyed(s) && r in s.requests && s.requests[r].Pay?
    ensures Keyed(Advance(s, r))
  {
    hide RequestOk;
    hide RecordOk;
    var t := Advance(s, r);
    PayingLeavesKeys(s, r);
    forall k | k in t.db.records ensures RecordOk(t, k) {
      assert RecordOk(s, k);
      RecordFrame(s, t, r, k);
    }
    forall x | x in t.requests ensures RequestOk(t, x, t.requests[x]) {
      RequestAt(s, x);
      if x == r { NoBuyer(s, r, t.requests[r]); }
      FrameRequest(s, t, x, t.requests[x]);
    }
  }

  /** Nothing but the stage of request `r` changed. */
  ghost predicate OnlyMoved(a: map<int, Request>, b: map<int, Request>, r: int) {
    && (forall x :: x in a <==> x in b) && (forall x :: x in a && x != r ==> b[x] == a[x])
    && r in a && b[r] == At(a[r], b[r].stage)
  }

  lemma ToMoves(s: System, r: int, stage: Stage)
    requires r in s.requests
    ensures OnlyMoved(s.requests, To(s, r, stage).requests, r)
    ensures OnlyMoved(s.requests, s.requests, r)
  {
  }

  lemma AdvanceMoves(s: System, r: int)
    requires r in s.requests
    ensures OnlyMoved(s.requests, Advance(s, r).requests, r)
  {
    hide To;
    hide OnlyMoved;
    hide RowFree;
    hide KeyFree;
    hide PaymentFree;
    hide PaymentKnown;
    forall stage ensures OnlyMoved(s.requests, To(s, r, stage).requests, r) { ToMoves(s, r, stage); }
    ToMoves(s, r, Gone);
  }

  lemma PayingLeavesKeys(s: System, r: int)
    requires r in s.requests && s.requests[r].Pay?
    ensures var t := Advance(s, r);
      && s.db.records == t.db.records && s.db.purchases == t.db.purchases && s.owner == t.owner
      && OnlyMoved(s.requests, t.requests, r)
  {
    hide OnlyMoved;
    hide RowFree;
    hide PaymentFree;
    hide PaymentKnown;
    AdvanceMoves(s, r);
  }

  lemma NoBuyer(s: System, r: int, q: Request)
    requires q.Pay?
    ensures RequestOk(s, r, q)
  {
  }

  /** A webhook call owns no key. */
  lemma RecordFrame(s: System, t: System, r: int, k: string)
    requires RecordOk(s, k) && r in s.requests && s.requests[r].Pay?
    requires s.db.records == t.db.records && s.db.purchases == t.db.purchases && s.owner == t.owner
    requires OnlyMoved(s.requests, t.requests, r)
    ensures RecordOk(t, k)
  {
    hide Truthful;
    if k in s.db.records {
      assert s.owner[k] in s.requests && s.owner[k] != r;
      assert s.owner[k] in t.requests && t.requests[s.owner[k]] == s.requests[s.owner[k]];
    }
  }

  lemma ArrivalKeepsKeys(s: System, r: int, q: Request)
    requires Keyed(s) && r !in s.requests && (q.Buy? ==> q.stage.Claiming?)
    ensures Keyed(s.(requests := s.requests[r := q]))
  {
    var t := s.(requests := s.requests[r := q]);
    forall k | k in t.db.records ensures RecordOk(t, k) {
      assert RecordOk(s, k);
    }
    forall x | x in t.requests ensures RequestOk(t, x, t.requests[x]) {
      if x == r {
        if q.Buy? && q.key in s.db.records { assert RecordOk(s, q.key); }
      } else {
        assert RequestOk(s, x, s.requests[x]);
        FrameRequest(s, t, x, s.requests[x]);
      }
    }
  }

  lemma NextKeepsKeys(s: System, e: Event)
    requires Money(s) && Keyed(s)
    ensures Keyed(Next(s, e))
  {
    match e
    case ArriveBuy(r, user, product, key) =>
      if r !in s.requests { ArrivalKeepsKeys(s, r, Buy(user, product, key, Claiming)); }
    case ArrivePay(r, x, user, amount) =>
      if r !in s.requests { ArrivalKeepsKeys(s, r, Pay(x, user, amount, Checking)); }
    case Move(r) => if r in s.requests { if s.requests[r].Buy? { BuyKeepsKeys(s, r); } else { PayKeepsKeys(s, r); } }
    case Crash(r) => if r in s.requests { MoveKeepsKeys(s, r, Gone); }
    case SetPrice(_, _) => KeysFrame(s, Next(s, e));
    case Register(_) => KeysFrame(s, Next(s, e));
  }

  /** Main result: in every reachable state each key has one claimer and at most one purchase, and
      every stored or given answer is true. */
  lemma {:induction false} RunKeepsKeys(s: System, es: seq<Event>)
    requires Money(s) && Keyed(s)
    ensures Money(Run(s, es)) && Keyed(Run(s, es))
    decreases es
  {
    if es != [] {
      NextKeepsMoney(s, es[0]);
      NextKeepsKeys(s, es[0]);
      RunKeepsKeys(Next(s, es[0]), es[1..]);
    }
  }

  lemma StartIsGood()
    ensures Money(Start()) && Keyed(Start())
  {
  }

  // ---------------------------------------------------------------- keys over time

  /** A record keeps its user and claimer, and once finished it never changes. */
  lemma NextKeepsRecord(s: System, e: Event, k: string)
    requires Money(s) && Keyed(s) && k in s.db.records
    ensures var t := Next(s, e);
      && k in t.db.records && k in t.owner && t.owner[k] == s.owner[k] && t.db.records[k].user == s.db.records[k].user
      && (s.db.records[k].status != 0 ==> t.db.records[k] == s.db.records[k])
  {
    assert RecordOk(s, k);
    hide Keyed;
    hide Money;
    hide Truthful;
    hide KeyBought;
    hide RowFree;
    hide KeyFree;
    hide PaymentFree;
    hide PaymentKnown;
    if e.Move? && e.r in s.requests { RequestAt(s, e.r); }
  }

  /** Main result: whatever happens later, a finished record is final. */
  lemma {:induction false} FinishedForGood(s: System, es: seq<Event>, k: string)
    requires Money(s) && Keyed(s) && k in s.db.records && s.db.records[k].status != 0
    ensures k in Run(s, es).db.records && Run(s, es).db.records[k] == s.db.records[k]
    decreases es
  {
    if es != [] {
      NextKeepsMoney(s, es[0]);
      NextKeepsKeys(s, es[0]);
      NextKeepsRecord(s, es[0], k);
      FinishedForGood(Next(s, es[0]), es[1..], k);
    }
  }

  /** A request whose key someone else claimed writes nothing. */
  lemma LatecomersWriteNothing(s: System, r: int)
    requires Keyed(s) && r in s.requests && s.requests[r].Buy? && s.requests[r].key in s.db.records
    requires !OwnedBy(s, s.requests[r].key, r)
    ensures Next(s, Move(r)).db == s.db && Next(s, Move(r)).owner == s.owner
  {
    assert RequestOk(s, r, s.requests[r]);
  }

  /** The claimer will never finish key `k`. */
  ghost predicate Abandoned(s: System, k: string) {
    && k in s.db.records && s.db.records[k].status == 0 && k in s.owner && s.owner[k] in s.requests
    && (s.requests[s.owner[k]].stage.Gone? || s.requests[s.owner[k]].stage.Answered?)
  }

  /** What is said about key `k` will not change any more. */
  ghost predicate Settled(s: System, k: string) {
    (k in s.db.records && s.db.records[k].status != 0) || Abandoned(s, k)
  }

  lemma NextKeepsAbandoned(s: System, e: Event, k: string)
    requires Money(s) && Keyed(s) && Abandoned(s, k)
    ensures Abandoned(Next(s, e), k)
  {
    hide Money;
    hide Keyed;
    hide Next;
    if e == Move(s.owner[k]) {
      StoppedStays(s, s.owner[k]);
    } else {
      OnlyOwnerWrites(s, e, k);
      OthersKeepStage(s, e, s.owner[k]);
    }
  }

  lemma StoppedStays(s: System, r: int)
    requires r in s.requests && (s.requests[r].stage.Gone? || s.requests[r].stage.Answered?)
    ensures Next(s, Move(r)) == s
  {
  }

  /** Only its claimer changes the record of a key. */
  lemma OnlyOwnerWrites(s: System, e: Event, k: string)
    requires Keyed(s) && k in s.db.records && k in s.owner && e != Move(s.owner[k])
    ensures var t := Next(s, e);
      k in t.db.records && t.db.records[k] == s.db.records[k] && k in t.owner && t.owner[k] == s.owner[k]
  {
    hide Keyed;
    hide Truthful;
    hide KeyBought;
    hide RowFree;
    hide KeyFree;
    hide PaymentFree;
    hide PaymentKnown;
    if e.Move? && e.r in s.requests { RequestAt(s, e.r); }
  }

  lemma NextKeepsSettled(s: System, e: Event, k: string)
    requires Money(s) && Keyed(s) && Settled(s, k)
    ensures Settled(Next(s, e), k)
    ensures forall u :: Answer(Next(s, e).db.records[k], u) == Answer(s.db.records[k], u)
  {
    NextKeepsRecord(s, e, k);
    if Abandoned(s, k) { NextKeepsAbandoned(s, e, k); }
  }

  /** Main result: a claimer that crashed, or was given an invalid product id, leaves its key
      unfinished in every future. */
  lemma {:induction false} AbandonedForGood(s: System, es: seq<Event>, k: string)
    requires Money(s) && Keyed(s) && Abandoned(s, k)
    ensures Abandoned(Run(s, es), k)
    decreases es
  {
    if es != [] {
      NextKeepsMoney(s, es[0]);
      NextKeepsKeys(s, es[0]);
      NextKeepsAbandoned(s, es[0], k);
      AbandonedForGood(Next(s, es[0]), es[1..], k);
    }
  }

  /** That can happen after the charge: the purchase is committed, and its answer never stored. */
  lemma CrashAfterCharge(s: System, r: int)
    requires Money(s) && Keyed(s) && r in s.requests && s.requests[r].Buy?
    requires s.requests[r].stage.Finishing? && s.requests[r].stage.status == 201
    ensures var t := Next(s, Crash(r)); Abandoned(t, s.requests[r].key) && KeyBought(t.db.purchases, s.requests[r].key)
  {
    assert RequestOk(s, r, s.requests[r]);
  }

  /** The system while a user registers and pays 5, one event after another. */
  function Paying(k: nat): System
    requires 1 <= k <= 6
  {
    var wallet, s := Db(map[1 := 0], [], [], map[]), Start();
    match k
    case 1 => s.(db := wallet)
    case 2 => s.(db := wallet, requests := map[10 := Pay("p", 1, 5, Checking)])
    case 3 => s.(db := wallet, requests := map[10 := Pay("p", 1, 5, Inserting)])
    case 4 => s.(db := wallet, requests := map[10 := Pay("p", 1, 5, PaymentInserted)])
    case 5 => s.(db := wallet, requests := map[10 := Pay("p", 1, 5, Credited(5))])
    case _ => s.(db := Db(map[1 := 5], [], [Payment("p", 1, 5)], map[]),
      requests := map[10 := Pay("p", 1, 5, Answered(Applied(false)))])
  }

  /** And then while product 7 gets the price 5 and the user buys it under the key `k`. */
  function Buying(k: nat): System
    requires 1 <= k <= 8
  {
    var s := Paying(6).(products := map[7 := 5]);
    var claimed := s.(db := s.db.(records := map["k" := Record(1, 0, NoBody)]), owner := map["k" := 11]);
    match k
    case 1 => s
    case 2 => With(s, Claiming)
    case 3 => With(s, KeyInserted)
    case 4 => With(claimed, Claimed)
    case 5 => With(claimed, Priced(5))
    case 6 => With(claimed, Charged(5, 0))
    case 7 => With(claimed, Purchased(5, 0, 0)).(nextId := 1)
    case _ => With(claimed, Finishing(201, Bought(0, 7, 5)))
                .(nextId := 1, db := claimed.db.(wallets := map[1 := 0], purchases := [Purchase(0, 1, 7, 5, "k")]))
  }

  function With(s: System, stage: Stage): System { s.(requests := s.requests[11 := Buy(1, Some(7), "k", stage)]) }

  function PayEvents(): seq<Event> { [Register(1), ArrivePay(10, "p", 1, 5), Move(10), Move(10), Move(10), Move(10)] }

  function BuyEvents(): seq<Event> {
    [SetPrice(7, 5), ArriveBuy(11, 1, Some(7), "k"), Move(11), Move(11), Move(11), Move(11), Move(11), Move(11)]
  }

  lemma PayingArrives()
    ensures Next(Paying(1), ArrivePay(10, "p", 1, 5)) == Paying(2)
  {
  }

  lemma PayingChecks()
    ensures Next(Paying(2), Move(10)) == Paying(3)
  {
  }

  lemma PayingInserts()
    ensures Next(Paying(3), Move(10)) == Paying(4)
  {
    assert !PaymentKnown([], "p") && PaymentFree(Paying(3), "p");
  }

  lemma PayingCredits()
    ensures Next(Paying(4), Move(10)) == Paying(5)
  {
    assert RowFree(Paying(4), 1);
  }

  lemma PayingEnds()
    ensures Next(Paying(5), Move(10)) == Paying(6)
  {
  }

  lemma PayingOn(k: nat)
    requires 1 <= k < 6
    ensures Next(Paying(k), PayEvents()[k]) == Paying(k + 1)
  {
    hide Paying;
    hide Next;
    PayingArrives();
    PayingChecks();
    PayingInserts();
    PayingCredits();
    PayingEnds();
  }

  lemma BuyingArrives()
    ensures Next(Buying(1), ArriveBuy(11, 1, Some(7), "k")) == Buying(2)
  {
  }

  lemma BuyingInserts()
    ensures Next(Buying(2), Move(11)) == Buying(3)
  {
    assert KeyFree(Buying(2), "k");
  }

  lemma BuyingClaims()
    ensures Next(Buying(3), Move(11)) == Buying(4)
  {
  }

  lemma BuyingPriced()
    ensures Next(Buying(4), Move(11)) == Buying(5)
  {
  }

  lemma BuyingCharged()
    ensures Next(Buying(5), Move(11)) == Buying(6)
  {
    assert RowFree(Buying(5), 1);
  }

  lemma BuyingInserted()
    ensures Next(Buying(6), Move(11)) == Buying(7)
  {
  }

  lemma BuyingEnds()
    ensures Next(Buying(7), Move(11)) == Buying(8)
  {
  }

  lemma BuyingOn(k: nat)
    requires 1 <= k < 8
    ensures Next(Buying(k), BuyEvents()[k]) == Buying(k + 1)
  {
    hide Buying;
    hide Next;
    BuyingArrives();
    BuyingInserts();
    BuyingClaims();
    BuyingPriced();
    BuyingCharged();
    BuyingInserted();
    BuyingEnds();
  }

  lemma Crashed()
    requires Money(Buying(8)) && Keyed(Buying(8))
    ensures var t := Next(Buying(8), Crash(11));
      t.db.wallets == map[1 := 0] && KeyBought(t.db.purchases, "k") && Abandoned(t, "k")
  {
    hide Money;
    hide Keyed;
    CrashAfterCharge(Buying(8), 11);
  }

  lemma {:induction false} RunAppend(s: System, a: seq<Event>, b: seq<Event>)
    ensures Run(s, a + b) == Run(Run(s, a), b)
    decreases a
  {
    if a == [] {
      assert a + b == b;
    } else {
      assert (a + b)[1..] == a[1..] + b && (a + b)[0] == a[0];
      RunAppend(Next(s, a[0]), a[1..], b);
    }
  }

  lemma RunOneMore(s: System, es: seq<Event>, k: nat)
    requires k < |es|
    ensures Run(s, es[..k + 1]) == Next(Run(s, es[..k]), es[k])
  {
    assert es[..k + 1] == es[..k] + [es[k]];
    RunAppend(s, es[..k], [es[k]]);
    assert [es[k]][1..] == [];
  }

  lemma {:induction false} PayRun(k: nat)
    requires 1 <= k <= 6
    ensures Run(Start(), PayEvents()[..k]) == Paying(k)
  {
    RunOneMore(Start(), PayEvents(), k - 1);
    if k > 1 {
      PayRun(k - 1);
      PayingOn(k - 1);
    } else {
      assert PayEvents()[..0] == [];
    }
  }

  lemma {:induction false} BuyRun(k: nat)
    requires 1 <= k <= 8
    ensures Run(Paying(6), BuyEvents()[..k]) == Buying(k)
  {
    RunOneMore(Paying(6), BuyEvents(), k - 1);
    if k > 1 {
      BuyRun(k - 1);
      BuyingOn(k - 1);
    } else {
      assert BuyEvents()[..0] == [];
    }
  }

  /** For one, when that purchase crashes there, the wallet is empty, the purchase is made, and its key is
      abandoned. */
  lemma UnluckyCustomer()
    ensures var t := Run(Start(), PayEvents() + (BuyEvents() + [Crash(11)]));
      t.db.wallets == map[1 := 0] && KeyBought(t.db.purchases, "k") && Abandoned(t, "k")
  {
    hide Money;
    hide Keyed;
    hide Paying;
    hide Buying;
    hide Next;
    hide KeyBought;
    hide Abandoned;
    PayRun(6);
    BuyRun(8);
    assert PayEvents()[..6] == PayEvents() && BuyEvents()[..8] == BuyEvents();
    StartIsGood();
    RunKeepsKeys(Start(), PayEvents());
    RunKeepsKeys(Paying(6), BuyEvents());
    RunAppend(Start(), PayEvents(), BuyEvents() + [Crash(11)]);
    RunAppend(Paying(6), BuyEvents(), [Crash(11)]);
    assert [Crash(11)][1..] == [];
    Crashed();
  }

  /** A call on a settled key: still on its way, gone, or answered with what the record says. */
  ghost predicate Late(s: System, r: int, user: int, k: string, answer: Response) {
    && r in s.requests && s.requests[r].Buy? && s.requests[r].key == k && s.requests[r].user == user
    && Settled(s, k) && !OwnedBy(s, k, r) && Answer(s.db.records[k], user) == answer
    && var stage := s.requests[r].stage;
    stage.Claiming? || stage.LookingUp? || stage.Gone? || stage == Answered(answer)
  }

  lemma OthersKeepStage(s: System, e: Event, r: int)
    requires r in s.requests && e != Move(r)
    ensures r in Next(s, e).requests &&
      (Next(s, e).requests[r] == s.requests[r] || Next(s, e).requests[r] == At(s.requests[r], Gone))
  {
    hide Advance;
    if e.Move? && e.r in s.requests { AdvanceMoves(s, e.r); }
  }

  lemma NextKeepsLate(s: System, e: Event, r: int, user: int, k: string, answer: Response)
    requires Money(s) && Keyed(s) && Late(s, r, user, k, answer)
    ensures Late(Next(s, e), r, user, k, answer)
  {
    NextKeepsSettled(s, e, k);
    NextKeepsRecord(s, e, k);
    if e != Move(r) { OthersKeepStage(s, e, r); }
  }

  lemma {:induction false} LateStays(s: System, es: seq<Event>, r: int, user: int, k: string, answer: Response)
    requires Money(s) && Keyed(s) && Late(s, r, user, k, answer)
    ensures Late(Run(s, es), r, user, k, answer)
    decreases es
  {
    if es != [] {
      NextKeepsMoney(s, es[0]);
      NextKeepsKeys(s, es[0]);
      NextKeepsLate(s, es[0], r, user, k, answer);
      LateStays(Next(s, es[0]), es[1..], r, user, k, answer);
    }
  }

  /** Main result: a later call on a settled key, in any run, is answered by the stored status and
      body (same user), by a conflict (another user), or by "retry later" if the key was abandoned. */
  lemma RetriesAnswered(s: System, es: seq<Event>, r: int, user: int, product: Option<int>, k: string)
    requires Money(s) && Keyed(s) && Settled(s, k) && r !in s.requests
    ensures var q := Run(Next(s, ArriveBuy(r, user, product, k)), es).requests; var record := s.db.records[k];
      r in q && (q[r].stage.Answered? ==>
        q[r].stage.response == if record.user != user then OtherAccount
                               else if record.status != 0 then Replayed(record.status, record.body)
                               else StillProcessing)
  {
    var e := ArriveBuy(r, user, product, k);
    NextKeepsMoney(s, e);
    NextKeepsKeys(s, e);
    NextKeepsSettled(s, e, k);
    assert RecordOk(s, k);
    LateStays(Next(s, e), es, r, user, k, Answer(s.db.records[k], user));
  }

  // ---------------------------------------------------------------- one request on its own

  /** What an undisturbed purchase does, as one function of the database. */
  function BuyAlone(db: Db, products: map<int, int>, id: nat, user: int, product: Option<int>, k: string)
    : (Db, nat, Response)
  {
    if k in db.records then (db, id, Answer(db.records[k], user))
    else if product.None? then (db.(records := db.records[k := Record(user, 0, NoBody)]), id, InvalidId)
    else if product.value !in products then Settle(db, id, user, k, 404, NoSuchProduct)
    else
      var price := products[product.value];
      if user in db.wallets && db.wallets[user] >= price then
        var p := Purchase(id, user, product.value, price, k);
        Settle(db.(wallets := db.wallets[user := db.wallets[user] - price], purchases := db.purchases + [p]),
               id + 1, user, k, 201, Bought(id, p.product, price))
      else Settle(db, id, user, k, 402, InsufficientFunds)
  }

  function Settle(db: Db, id: nat, user: int, k: string, status: int, body: Body): (Db, nat, Response) {
    (db.(records := db.records[k := Record(user, status, body)]), id, Stored(status, body))
  }

  function PayAlone(db: Db, x: string, user: int, amount: int): (Db, Response) {
    if x == "" || amount <= 0 then (db, BadPayment)
    else if user !in db.wallets then (db, NoAccount)
    else if PaymentKnown(db.payments, x) then (db, Applied(true))
    else (db.(wallets := db.wallets[user := db.wallets[user] + amount],
      payments := db.payments + [Payment(x, user, amount)]), Applied(false))
  }

  function Moves(s: System, r: int, n: nat): System
    decreases n
  {
    if n == 0 then s else Moves(Next(s, Move(r)), r, n - 1)
  }

  /** No other request has uncommitted writes. */
  ghost predicate Quiet(s: System) { forall x :: x in s.requests ==> Idle(s.requests[x]) }

  lemma OneMove(s: System, r: int, n: nat)
    requires r in s.requests
    ensures Moves(s, r, n + 1) == Moves(Advance(s, r), r, n)
  {
  }

  lemma NoMove(s: System, r: int)
    ensures Moves(s, r, 0) == s
  {
  }

  lemma {:induction false} AnsweredStays(s: System, r: int, n: nat)
    requires r in s.requests && s.requests[r].stage.Answered?
    ensures Moves(s, r, n) == s
  {
    if n > 0 { AnsweredStays(s, r, n - 1); }
  }

  lemma Overwritten(m: map<string, Record>, k: string, a: Record, b: Record)
    ensures m[k := a][k := b] == m[k := b]
  {
  }

  ghost predicate Done(t: System, r: int, q: Request, done: (Db, nat, Response)) {
    t.db == done.0 && t.nextId == done.1 && r in t.requests && t.requests[r] == At(q, Answered(done.2))
  }

  /** The last two statements of an answered purchase. */
  lemma FinishAlone(s: System, r: int, db: Db, n: nat)
    requires r in s.requests && s.requests[r].Buy? && s.requests[r].stage.Finishing? &&
      s.requests[r].key in s.db.records && n > 0
    requires s.db.records == db.records[s.requests[r].key := Record(s.requests[r].user, 0, NoBody)]
    requires s.db.wallets == db.wallets && s.db.purchases == db.purchases && s.db.payments == db.payments
    ensures var q := s.requests[r];
      Done(Moves(s, r, n), r, q, Settle(db, s.nextId, q.user, q.key, q.stage.status, q.stage.body))
  {
    var q := s.requests[r];
    Overwritten(db.records, q.key, Record(q.user, 0, NoBody), Record(q.user, q.stage.status, q.stage.body));
    OneMove(s, r, n - 1);
    AnsweredStays(Advance(s, r), r, n - 1);
  }

  /** From the claim on. */
  lemma ClaimedAlone(s: System, r: int, db: Db)
    requires Quiet(s) && r in s.requests && s.requests[r].Buy? && s.requests[r].stage.Claimed?
    requires s.requests[r].key !in db.records &&
      s.db == db.(records := db.records[s.requests[r].key := Record(s.requests[r].user, 0, NoBody)])
    ensures var q := s.requests[r];
      Done(Moves(s, r, 5), r, q, BuyAlone(db, s.products, s.nextId, q.user, q.product, q.key))
  {
    hide Moves;
    hide AdvancePay;
    var q := s.requests[r];
    OneMove(s, r, 4);
    var s1 := Advance(s, r);
    if q.product.None? {
      AnsweredStays(s1, r, 4);
      InvalidAlone(s, r, db);
    } else if q.product.value !in s.products {
      FinishAlone(s1, r, db, 4);
    } else {
      assert RowFree(s1, q.user);
      PricedAlone(s1, r, db, s.products[q.product.value]);
    }
  }

  lemma InvalidAlone(s: System, r: int, db: Db)
    requires r in s.requests && s.requests[r].Buy? && s.requests[r].stage.Claimed? && s.requests[r].product.None?
    requires s.requests[r].key !in db.records &&
      s.db == db.(records := db.records[s.requests[r].key := Record(s.requests[r].user, 0, NoBody)])
    ensures var q := s.requests[r];
      Done(Advance(s, r), r, q, BuyAlone(db, s.products, s.nextId, q.user, q.product, q.key))
  {
  }

  /** From the price on. */
  lemma PricedAlone(s: System, r: int, db: Db, price: int)
    requires r in s.requests && s.requests[r].Buy? && s.requests[r].stage == Priced(price)
    requires RowFree(s, s.requests[r].user) && s.requests[r].product.Some? && s.requests[r].key !in db.records
    requires s.requests[r].product.value in s.products && s.products[s.requests[r].product.value] == price
    requires s.db == db.(records := db.records[s.requests[r].key := Record(s.requests[r].user, 0, NoBody)])
    ensures var q := s.requests[r];
      Done(Moves(s, r, 4), r, q, BuyAlone(db, s.products, s.nextId, q.user, q.product, q.key))
  {
    hide Moves;
    hide Advance;
    hide Settle;
    hide BuyAlone;
    var q := s.requests[r];
    OneMove(s, r, 3);
    PricedMoves(s, r);
    PricedBuy(db, s.products, s.nextId, q.user, q.product.value, q.key);
    if q.user in db.wallets && db.wallets[q.user] >= price {
      ChargedAlone(Advance(s, r), r, db, price);
    } else {
      FinishAlone(Advance(s, r), r, db, 3);
    }
  }

  /** From the charge on. */
  lemma ChargedAlone(s: System, r: int, db: Db, price: int)
    requires r in s.requests && s.requests[r].Buy? && s.requests[r].product.Some? && s.requests[r].key !in db.records
    requires s.requests[r].user in db.wallets
    requires s.requests[r].stage == Charged(price, db.wallets[s.requests[r].user] - price)
    requires s.db == db.(records := db.records[s.requests[r].key := Record(s.requests[r].user, 0, NoBody)])
    ensures var q := s.requests[r]; var p := Purchase(s.nextId, q.user, q.product.value, price, q.key);
      var paid := db.(wallets := db.wallets[q.user := db.wallets[q.user] - price], purchases := db.purchases + [p]);
      Done(Moves(s, r, 3), r, q, Settle(paid, p.id + 1, q.user, q.key, 201, Bought(p.id, p.product, price)))
  {
    hide Moves;
    hide Advance;
    hide Settle;
    hide BuyAlone;
    var q := s.requests[r];
    var p := Purchase(s.nextId, q.user, q.product.value, price, q.key);
    var paid := db.(wallets := db.wallets[q.user := db.wallets[q.user] - price], purchases := db.purchases + [p]);
    var s1 := Advance(s, r);
    OneMove(s, r, 2);
    ChargedMoves(s, r);
    OneMove(s1, r, 1);
    PurchasedMoves(s1, r);
    FinishAlone(Advance(s1, r), r, paid, 1);
  }

  lemma PricedBuy(db: Db, products: map<int, int>, id: nat, user: int, product: int, k: string)
    requires k !in db.records && product in products
    ensures var price := products[product]; var p := Purchase(id, user, product, price, k);
      BuyAlone(db, products, id, user, Some(product), k) ==
        if user in db.wallets && db.wallets[user] >= price then
          Settle(db.(wallets := db.wallets[user := db.wallets[user] - price], purchases := db.purchases + [p]),
                 id + 1, user, k, 201, Bought(id, product, price))
        else Settle(db, id, user, k, 402, InsufficientFunds)
  {
  }

  lemma PricedMoves(s: System, r: int)
    requires r in s.requests && s.requests[r].Buy? && s.requests[r].stage.Priced? && RowFree(s, s.requests[r].user)
    ensures var q := s.requests[r]; var price := q.stage.price;
      Advance(s, r) == if q.user in s.db.wallets && s.db.wallets[q.user] >= price
        then To(s, r, Charged(price, s.db.wallets[q.user] - price)) else To(s, r, Finishing(402, InsufficientFunds))
  {
  }

  lemma ChargedMoves(s: System, r: int)
    requires r in s.requests && s.requests[r].Buy? && s.requests[r].stage.Charged?
    ensures var stage := s.requests[r].stage;
      Advance(s, r) == To(s, r, Purchased(stage.price, stage.balance, s.nextId)).(nextId := s.nextId + 1)
  {
  }

  lemma PurchasedMoves(s: System, r: int)
    requires r in s.requests && s.requests[r].Buy? && s.requests[r].stage.Purchased? && s.requests[r].product.Some?
    ensures var q := s.requests[r];
      var p := Purchase(q.stage.id, q.user, q.product.value, q.stage.price, q.key);
      Advance(s, r) == To(s, r, Finishing(201, Bought(p.id, p.product, p.price))).(
        db := s.db.(wallets := s.db.wallets[q.user := q.stage.balance], purchases := s.db.purchases + [p]))
  {
  }

  /** The statements of one purchase with nobody in between do what the function says. */
  lemma BuyStepsAlone(s: System, r: int, user: int, product: Option<int>, k: string)
    requires Quiet(s) && r !in s.requests
    ensures var q := Buy(user, product, k, Claiming);
      Done(Moves(Next(s, ArriveBuy(r, user, product, k)), r, 7), r, q,
        BuyAlone(s.db, s.products, s.nextId, user, product, k))
  {
    hide Moves;
    hide AdvancePay;
    var s0 := Next(s, ArriveBuy(r, user, product, k));
    var s1 := Advance(s0, r);
    var s2 := Advance(s1, r);
    assert KeyFree(s0, k);
    OneMove(s0, r, 6);
    OneMove(s1, r, 5);
    if k in s.db.records { AnsweredStays(s2, r, 5); } else { ClaimedAlone(s2, r, s.db); }
  }

  /** So do those of one webhook call. */
  lemma PayStepsAlone(s: System, r: int, x: string, user: int, amount: int)
    requires Quiet(s) && r !in s.requests
    ensures var t := Moves(Next(s, ArrivePay(r, x, user, amount)), r, 4); var done := PayAlone(s.db, x, user, amount);
      t.db == done.0 && r in t.requests && t.requests[r] == Pay(x, user, amount, Answered(done.1))
  {
    hide PaymentKnown;
    hide Moves;
    hide AdvanceBuy;
    var s0 := Next(s, ArrivePay(r, x, user, amount));
    var s1 := Advance(s0, r);
    OneMove(s0, r, 3);
    if s1.requests[r].stage.Answered? {
      AnsweredStays(s1, r, 3);
    } else {
      InsertAlone(s1, r, x, user, amount);
    }
  }

  /** From the insert on. */
  lemma InsertAlone(s: System, r: int, x: string, user: int, amount: int)
    requires Quiet(s) && r in s.requests && s.requests[r] == Pay(x, user, amount, Inserting)
    requires x != "" && amount > 0 && user in s.db.wallets
    ensures var t := Moves(s, r, 3); var done := PayAlone(s.db, x, user, amount);
      t.db == done.0 && r in t.requests && t.requests[r] == Pay(x, user, amount, Answered(done.1))
  {
    hide PaymentKnown;
    hide Moves;
    hide AdvanceBuy;
    OneMove(s, r, 2);
    if PaymentKnown(s.db.payments, x) {
      AnsweredStays(Advance(s, r), r, 2);
    } else {
      assert PaymentFree(s, x);
      var s1 := s.(requests := s.requests[r := Pay(x, user, amount, PaymentInserted)]);
      assert Advance(s, r) == s1;
      CreditAlone(s1, r, x, user, amount);
    }
  }

  /** From the credit on. */
  lemma CreditAlone(s: System, r: int, x: string, user: int, amount: int)
    requires RowFree(s, user) && r in s.requests && s.requests[r] == Pay(x, user, amount, PaymentInserted) &&
      user in s.db.wallets
    ensures var t := Moves(s, r, 2);
      && r in t.requests && t.requests[r] == Pay(x, user, amount, Answered(Applied(false)))
      && t.db == s.db.(wallets := s.db.wallets[user := s.db.wallets[user] + amount],
        payments := s.db.payments + [Payment(x, user, amount)])
  {
    hide Moves;
    hide AdvanceBuy;
    var s1 := s.(requests := s.requests[r := Pay(x, user, amount, Credited(s.db.wallets[user] + amount))]);
    OneMove(s, r, 1);
    assert Advance(s, r) == s1;
    OneMove(s1, r, 0);
    NoMove(Advance(s1, r), r);
  }
}
