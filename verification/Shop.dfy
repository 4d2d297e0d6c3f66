/** Idempotent purchases and gateway credits: any number of requests, interleaved statement by
    statement, crashing anywhere. */
module Shop {
  import opened Basics

  // ---------------------------------------------------------------- the committed database

  /** `key` names the request key the purchase was made under; the table does not store it. */
  datatype Purchase = Purchase(id: nat, user: int, product: int, price: int, key: string)

  datatype Payment = Payment(externalId: string, user: int, amount: int)

  datatype Body = NoBody | NoSuchProduct | InsufficientFunds | Bought(id: nat, product: int, price: int)

  /** Status 0 means claimed and still processing. */
  datatype Record = Record(user: int, status: int, body: Body)

  datatype Db = Db(wallets: map<int, int>, purchases: seq<Purchase>, payments: seq<Payment>,
                   records: map<string, Record>)

  function Spent(ps: seq<Purchase>, u: int): int {
    if ps == [] then 0 else Spent(ps[..|ps| - 1], u) + if ps[|ps| - 1].user == u then ps[|ps| - 1].price else 0
  }

  function Paid(ps: seq<Payment>, u: int): int {
    if ps == [] then 0 else Paid(ps[..|ps| - 1], u) + if ps[|ps| - 1].user == u then ps[|ps| - 1].amount else 0
  }

  predicate PaymentKnown(ps: seq<Payment>, externalId: string) {
    exists i :: 0 <= i < |ps| && ps[i].externalId == externalId
  }

  // ---------------------------------------------------------------- requests

  datatype Response =
    | Stored(status: int, body: Body)
    | Replayed(status: int, body: Body)
    | OtherAccount
    | StillProcessing
    | InvalidId
    | BadPayment
    | NoAccount
    | Applied(duplicate: bool)

  /** Where a request stands: the statement it executes next, and its uncommitted writes. */
  datatype Stage =
    | Claiming                              // buy: INSERT the key
    | KeyInserted                           // its COMMIT
    | LookingUp                             // the key was taken: SELECT the record
    | Claimed                               // SELECT the product
    | Priced(price: int)                    // conditional UPDATE of the wallet
    | Charged(price: int, balance: int)     // INSERT the purchase
    | Purchased(price: int, balance: int, id: nat)  // COMMIT
    | Finishing(status: int, body: Body)    // UPDATE the record
    | Checking                              // webhook: validate, SELECT the user
    | Inserting                             // INSERT the payment
    | PaymentInserted                       // UPDATE of the wallet
    | Credited(balance: int)                // COMMIT
    | Answered(response: Response)
    | Gone                                  // crashed; uncommitted writes are rolled back

  datatype Request =
    | Buy(user: int, product: Option<int>, key: string, stage: Stage)
    | Pay(externalId: string, user: int, amount: int, stage: Stage)

  /** The wallet row, request key and payment id a request has written without committing. */
  function Row(q: Request): Option<int> {
    if q.stage.Charged? || q.stage.Purchased? || (q.stage.Credited? && q.Pay?) then Some(q.user) else None
  }

  function KeyHeld(q: Request): Option<string> { if q.Buy? && q.stage.KeyInserted? then Some(q.key) else None }

  function PaymentHeld(q: Request): Option<string> {
    if q.Pay? && (q.stage.PaymentInserted? || q.stage.Credited?) then Some(q.externalId) else None
  }

  /** `owner` remembers which request claimed a key. */
  datatype System = System(db: Db, products: map<int, int>, requests: map<int, Request>,
                           owner: map<string, int>, nextId: nat)

  predicate RowFree(s: System, u: int) { forall r :: r in s.requests ==> Row(s.requests[r]) != Some(u) }

  predicate KeyFree(s: System, k: string) { forall r :: r in s.requests ==> KeyHeld(s.requests[r]) != Some(k) }

  predicate PaymentFree(s: System, x: string) { forall r :: r in s.requests ==> PaymentHeld(s.requests[r]) != Some(x) }

  function At(q: Request, stage: Stage): Request { q.(stage := stage) }

  function To(s: System, r: int, stage: Stage): System
    requires r in s.requests
  {
    s.(requests := s.requests[r := At(s.requests[r], stage)])
  }

  /** The next statement of request `r`; a blocked one waits. */
  function Advance(s: System, r: int): System
    requires r in s.requests
  {
    if s.requests[r].Buy? then AdvanceBuy(s, r) else AdvancePay(s, r)
  }

  function AdvanceBuy(s: System, r: int): System
    requires r in s.requests && s.requests[r].Buy?
  {
    var q := s.requests[r];
    match q.stage
    case Claiming =>
      if q.key in s.db.records then To(s, r, LookingUp) else if KeyFree(s, q.key) then To(s, r, KeyInserted) else s
    case KeyInserted =>
      To(s, r, Claimed).(db := s.db.(records := s.db.records[q.key := Record(q.user, 0, NoBody)]),
        owner := s.owner[q.key := r])
    case LookingUp => if q.key in s.db.records then To(s, r, Answered(Answer(s.db.records[q.key], q.user))) else s
    case Claimed =>
      if q.product.None? then To(s, r, Answered(InvalidId))
      else if q.product.value !in s.products then To(s, r, Finishing(404, NoSuchProduct))
      else To(s, r, Priced(s.products[q.product.value]))
    case Priced(price) =>
      if !RowFree(s, q.user) then s
      else if q.user in s.db.wallets && s.db.wallets[q.user] >= price
        then To(s, r, Charged(price, s.db.wallets[q.user] - price))
      else To(s, r, Finishing(402, InsufficientFunds))
    case Charged(price, balance) => To(s, r, Purchased(price, balance, s.nextId)).(nextId := s.nextId + 1)
    case Purchased(price, balance, id) =>
      if q.product.None? then s else
      var p := Purchase(id, q.user, q.product.value, price, q.key);
      To(s, r, Finishing(201, Bought(id, p.product, price)))
        .(db := s.db.(wallets := s.db.wallets[q.user := balance], purchases := s.db.purchases + [p]))
    case Finishing(status, body) =>
      if q.key !in s.db.records then s
      else To(s, r, Answered(Stored(status, body))).(
        db := s.db.(records := s.db.records[q.key := Record(q.user, status, body)]))
    case _ => s
  }

  /** What a used key answers. */
  function Answer(record: Record, user: int): Response {
    if record.user != user then OtherAccount
    else if record.status == 0 then StillProcessing
    else Replayed(record.status, record.body)
  }

  function AdvancePay(s: System, r: int): System
    requires r in s.requests && s.requests[r].Pay?
  {
    var q := s.requests[r];
    match q.stage
    case Checking =>
      if q.externalId == "" || q.amount <= 0 then To(s, r, Answered(BadPayment))
      else if q.user !in s.db.wallets then To(s, r, Answered(NoAccount))
      else To(s, r, Inserting)
    case Inserting =>
      if PaymentKnown(s.db.payments, q.externalId) then To(s, r, Answered(Applied(true)))
      else if PaymentFree(s, q.externalId) then To(s, r, PaymentInserted) else s
    case PaymentInserted =>
      if q.user in s.db.wallets && RowFree(s, q.user) then To(s, r, Credited(s.db.wallets[q.user] + q.amount)) else s
    case Credited(balance) =>
      To(s, r, Answered(Applied(false))).(db := s.db.(wallets := s.db.wallets[q.user := balance],
        payments := s.db.payments + [Payment(q.externalId, q.user, q.amount)]))
    case _ => s
  }

  datatype Event =
    | ArriveBuy(r: int, user: int, product: Option<int>, key: string)
    | ArrivePay(r: int, externalId: string, user: int, amount: int)
    | Move(r: int)
    | Crash(r: int)
    | SetPrice(item: int, price: int)
    | Register(user: int)                   // account and wallet in one transaction

  function Next(s: System, e: Event): System {
    match e
    case ArriveBuy(r, user, product, key) =>
      if r in s.requests then s else s.(requests := s.requests[r := Buy(user, product, key, Claiming)])
    case ArrivePay(r, x, user, amount) =>
      if r in s.requests then s else s.(requests := s.requests[r := Pay(x, user, amount, Checking)])
    case Move(r) => if r in s.requests then Advance(s, r) else s
    case Crash(r) => if r in s.requests && !s.requests[r].stage.Answered? then To(s, r, Gone) else s
    case SetPrice(p, price) => s.(products := s.products[p := price])
    case Register(u) => if u in s.db.wallets then s else s.(db := s.db.(wallets := s.db.wallets[u := 0]))
  }

  function Run(s: System, es: seq<Event>): System
    decreases es
  {
    if es == [] then s else Run(Next(s, es[0]), es[1..])
  }

  function Start(): System { System(Db(map[], [], [], map[]), map[], map[], map[], 0) }

  // ---------------------------------------------------------------- the invariant

  /** No two requests have written the same row, key or payment id. */
  ghost predicate Exclusive(s: System) {
    forall q, r :: q in s.requests && r in s.requests && q != r ==> Apart(s.requests[q], s.requests[r])
  }

  predicate Apart(a: Request, b: Request) {
    && (Row(a).Some? ==> Row(a) != Row(b))
    && (KeyHeld(a).Some? ==> KeyHeld(a) != KeyHeld(b))
    && (PaymentHeld(a).Some? ==> PaymentHeld(a) != PaymentHeld(b))
  }

  /** Each wallet holds what was paid in minus what was spent, and is never overdrawn. */
  ghost predicate Balanced(s: System) {
    forall u :: if u in s.db.wallets then 0 <= s.db.wallets[u] == Paid(s.db.payments, u) - Spent(s.db.purchases, u)
                else Paid(s.db.payments, u) == 0 == Spent(s.db.purchases, u)
  }

  /** Uncommitted writes still fit the committed rows. */
  ghost predicate Pending(s: System, q: Request) {
    match q.stage
    case Priced(_) => q.Buy? && q.product.Some?
    case Charged(price, balance) => q.Buy? && q.product.Some? && q.user in s.db.wallets &&
      0 <= balance == s.db.wallets[q.user] - price
    case Purchased(price, balance, _) => q.Buy? && q.product.Some? && q.user in s.db.wallets &&
      0 <= balance == s.db.wallets[q.user] - price
    case Inserting => q.Pay? && q.amount > 0 && q.user in s.db.wallets
    case PaymentInserted => q.Pay? && q.amount > 0 && !PaymentKnown(s.db.payments, q.externalId)
      && q.user in s.db.wallets
    case Credited(balance) => q.Pay? && q.amount > 0 && !PaymentKnown(s.db.payments, q.externalId)
      && q.user in s.db.wallets && balance == s.db.wallets[q.user] + q.amount
    case _ => true
  }

  ghost predicate PaymentsOnce(ps: seq<Payment>) {
    forall i, j :: 0 <= i < j < |ps| ==> ps[i].externalId != ps[j].externalId
  }

  ghost predicate KeysOnce(ps: seq<Purchase>) {
    forall i, j :: 0 <= i < j < |ps| ==> ps[i].key != ps[j].key
  }

  ghost predicate Money(s: System) {
    && Exclusive(s) && Balanced(s) && PaymentsOnce(s.db.payments)
    && forall r :: r in s.requests ==> Pending(s, s.requests[r])
  }

  lemma TotalsAdd(ps: seq<Purchase>, p: Purchase, ys: seq<Payment>, y: Payment, u: int)
    ensures Spent(ps + [p], u) == Spent(ps, u) + if p.user == u then p.price else 0
    ensures Paid(ys + [y], u) == Paid(ys, u) + if y.user == u then y.amount else 0
  {
    assert (ps + [p])[..|ps|] == ps && (ys + [y])[..|ys|] == ys;
  }

  /** A request that only moves on keeps the money invariant if its new stage fits. */
  lemma MoveKeepsMoney(s: System, r: int, stage: Stage)
    requires Money(s) && r in s.requests && Pending(s, At(s.requests[r], stage))
    requires forall q :: q in s.requests && q != r ==>
      Apart(s.requests[q], At(s.requests[r], stage)) && Apart(At(s.requests[r], stage), s.requests[q])
    ensures Money(To(s, r, stage))
  {
  }

  lemma PendingAt(s: System, r: int)
    requires Money(s) && r in s.requests
    ensures Pending(s, s.requests[r])
  {
  }

  lemma ApartAt(s: System, r: int, x: int)
    requires Money(s) && r in s.requests && x in s.requests && x != r
    ensures Apart(s.requests[r], s.requests[x]) && Apart(s.requests[x], s.requests[r])
  {
  }

  /** A request that gives up what it held leaves the others apart. */
  lemma FreedApart(s: System, t: System, r: int)
    requires Exclusive(s) && r in t.requests && Idle(t.requests[r]) && t.requests == s.requests[r := t.requests[r]]
    ensures Exclusive(t)
  {
    hide Row;
    hide KeyHeld;
    hide PaymentHeld;
  }

  lemma PurchaseBalances(s: System, r: int)
    requires Balanced(s) && r in s.requests && s.requests[r].Buy? && s.requests[r].stage.Purchased?
    requires Pending(s, s.requests[r])
    ensures Balanced(Advance(s, r))
  {
    hide Spent;
    hide Paid;
    var q, t := s.requests[r], Advance(s, r);
    var p := Purchase(q.stage.id, q.user, q.product.value, q.stage.price, q.key);
    forall u ensures Spent(t.db.purchases, u) == Spent(s.db.purchases, u) + if q.user == u then q.stage.price else 0 {
      TotalsAdd(s.db.purchases, p, [], Payment("", 0, 0), u);
    }
  }

  lemma CommitPurchase(s: System, r: int)
    requires Money(s) && r in s.requests && s.requests[r].Buy? && s.requests[r].stage.Purchased?
    ensures Money(Advance(s, r))
  {
    hide Exclusive;
    hide Balanced;
    hide PaymentsOnce;
    hide PaymentKnown;
    var q, t := s.requests[r], Advance(s, r);
    PendingAt(s, r);
    FreedApart(s, t, r);
    PurchaseBalances(s, r);
    forall x | x in s.requests && x != r ensures Pending(t, s.requests[x]) {
      PendingAt(s, x);
      ApartAt(s, r, x);
    }
  }

  lemma PaymentBalances(s: System, r: int)
    requires Balanced(s) && r in s.requests && s.requests[r].Pay? && s.requests[r].stage.Credited?
    requires Pending(s, s.requests[r])
    ensures Balanced(Advance(s, r))
  {
    hide Spent;
    hide Paid;
    hide PaymentKnown;
    var q, t := s.requests[r], Advance(s, r);
    var y := Payment(q.externalId, q.user, q.amount);
    forall u ensures Paid(t.db.payments, u) == Paid(s.db.payments, u) + if q.user == u then q.amount else 0 {
      TotalsAdd([], Purchase(0, 0, 0, 0, ""), s.db.payments, y, u);
    }
  }

  lemma PaymentsAdd(ps: seq<Payment>, y: Payment, x: string)
    requires PaymentsOnce(ps) && !PaymentKnown(ps, y.externalId)
    ensures PaymentsOnce(ps + [y])
    ensures PaymentKnown(ps + [y], x) ==> PaymentKnown(ps, x) || x == y.externalId
  {
  }

  lemma CommitPayment(s: System, r: int)
    requires Money(s) && r in s.requests && s.requests[r].Pay? && s.requests[r].stage.Credited?
    ensures Money(Advance(s, r))
  {
    hide Exclusive;
    hide Balanced;
    hide PaymentsOnce;
    hide PaymentKnown;
    var q, t := s.requests[r], Advance(s, r);
    PendingAt(s, r);
    FreedApart(s, t, r);
    PaymentBalances(s, r);
    PaymentsAdd(s.db.payments, Payment(q.externalId, q.user, q.amount), "");
    forall x | x in s.requests && x != r ensures Pending(t, s.requests[x]) {
      PendingAt(s, x);
      ApartAt(s, r, x);
      if s.requests[x].Pay? {
        PaymentsAdd(s.db.payments, Payment(q.externalId, q.user, q.amount), s.requests[x].externalId);
      }
    }
  }

  /** Records, prices and counters do not matter to money. */
  lemma MoneyFrame(s: System, t: System)
    requires Money(s) && t.requests == s.requests && t.db.payments == s.db.payments
    requires t.db.wallets == s.db.wallets && t.db.purchases == s.db.purchases
    ensures Money(t)
  {
    forall r | r in t.requests ensures Pending(t, t.requests[r]) {
      assert Pending(s, s.requests[r]);
    }
  }

  /** Holds no uncommitted row, key or payment id. */
  predicate Idle(q: Request) { Row(q).None? && KeyHeld(q).None? && PaymentHeld(q).None? }

  lemma LetGo(s: System, r: int, stage: Stage)
    requires Money(s) && r in s.requests
    requires Pending(s, At(s.requests[r], stage)) && Idle(At(s.requests[r], stage))
    ensures Money(To(s, r, stage))
  {
    MoveKeepsMoney(s, r, stage);
  }

  lemma BuyKeepsMoney(s: System, r: int)
    requires Money(s) && r in s.requests && s.requests[r].Buy? && !s.requests[r].stage.Purchased?
    ensures Money(Advance(s, r))
  {
    hide Money;
    var q := s.requests[r];
    PendingAt(s, r);
    match q.stage
    case Claiming =>
      if q.key in s.db.records { LetGo(s, r, LookingUp); }
      else if KeyFree(s, q.key) { MoveKeepsMoney(s, r, KeyInserted); }
    case KeyInserted =>
      LetGo(s, r, Claimed);
      MoneyFrame(To(s, r, Claimed), Advance(s, r));
    case LookingUp => if q.key in s.db.records { LetGo(s, r, Answered(Answer(s.db.records[q.key], q.user))); }
    case Claimed =>
      if q.product.None? { LetGo(s, r, Answered(InvalidId)); }
      else if q.product.value !in s.products { LetGo(s, r, Finishing(404, NoSuchProduct)); }
      else { LetGo(s, r, Priced(s.products[q.product.value])); }
    case Priced(price) => PricedKeepsMoney(s, r);
    case Charged(price, balance) =>
      var stage := Purchased(price, balance, s.nextId);
      forall x | x in s.requests && x != r
        ensures Apart(s.requests[x], At(q, stage)) && Apart(At(q, stage), s.requests[x])
      {
        ApartAt(s, r, x);
      }
      MoveKeepsMoney(s, r, stage);
      MoneyFrame(To(s, r, stage), Advance(s, r));
    case Finishing(status, body) =>
      LetGo(s, r, Answered(Stored(status, body)));
      if q.key in s.db.records { MoneyFrame(To(s, r, Answered(Stored(status, body))), Advance(s, r)); }
    case _ =>
  }

  lemma PricedKeepsMoney(s: System, r: int)
    requires Money(s) && r in s.requests && s.requests[r].Buy? && s.requests[r].stage.Priced?
    ensures Money(Advance(s, r))
  {
    hide Money;
    var q := s.requests[r];
    PendingAt(s, r);
    var price := q.stage.price;
    if RowFree(s, q.user) {
      if q.user in s.db.wallets && s.db.wallets[q.user] >= price {
        MoveKeepsMoney(s, r, Charged(price, s.db.wallets[q.user] - price));
      } else {
        LetGo(s, r, Finishing(402, InsufficientFunds));
      }
    }
  }

  lemma PayKeepsMoney(s: System, r: int)
    requires Money(s) && r in s.requests && s.requests[r].Pay? && !s.requests[r].stage.Credited?
    ensures Money(Advance(s, r))
  {
    hide Money;
    hide PaymentKnown;
    var q := s.requests[r];
    PendingAt(s, r);
    match q.stage
    case Checking =>
      if q.externalId == "" || q.amount <= 0 { LetGo(s, r, Answered(BadPayment)); }
      else if q.user !in s.db.wallets { LetGo(s, r, Answered(NoAccount)); }
      else { LetGo(s, r, Inserting); }
    case Inserting =>
      if PaymentKnown(s.db.payments, q.externalId) { LetGo(s, r, Answered(Applied(true))); }
      else if PaymentFree(s, q.externalId) { MoveKeepsMoney(s, r, PaymentInserted); }
    case PaymentInserted =>
      if q.user in s.db.wallets && RowFree(s, q.user) {
        var stage := Credited(s.db.wallets[q.user] + q.amount);
        forall x | x in s.requests && x != r
          ensures Apart(s.requests[x], At(q, stage)) && Apart(At(q, stage), s.requests[x])
        {
          ApartAt(s, r, x);
        }
        MoveKeepsMoney(s, r, stage);
      }
    case _ =>
  }

  lemma AdvanceKeepsMoney(s: System, r: int)
    requires Money(s) && r in s.requests
    ensures Money(Advance(s, r))
  {
    var q := s.requests[r];
    if q.Buy? {
      if q.stage.Purchased? { CommitPurchase(s, r); } else { BuyKeepsMoney(s, r); }
    } else {
      if q.stage.Credited? { CommitPayment(s, r); } else { PayKeepsMoney(s, r); }
    }
  }

  lemma ArrivalKeepsMoney(s: System, r: int, q: Request)
    requires Money(s) && r !in s.requests && Idle(q) && Pending(s, q)
    ensures Money(s.(requests := s.requests[r := q]))
  {
  }

  lemma NextKeepsMoney(s: System, e: Event)
    requires Money(s)
    ensures Money(Next(s, e))
  {
    match e
    case ArriveBuy(r, user, product, key) =>
      if r !in s.requests { ArrivalKeepsMoney(s, r, Buy(user, product, key, Claiming)); }
    case ArrivePay(r, x, user, amount) =>
      if r !in s.requests { ArrivalKeepsMoney(s, r, Pay(x, user, amount, Checking)); }
    case Move(r) => if r in s.requests { AdvanceKeepsMoney(s, r); }
    case Crash(r) => if r in s.requests { LetGo(s, r, Gone); }
    case SetPrice(_, _) => MoneyFrame(s, Next(s, e));
    case Register(_) =>
  }

  /** Main result: in every reachable state, however requests interleave and crash, each wallet is
      payments minus purchase prices, never negative, and no payment id is credited twice. */
  lemma {:induction false} RunKeepsMoney(s: System, es: seq<Event>)
    requires Money(s)
    ensures Money(Run(s, es))
    decreases es
  {
    if es != [] {
      NextKeepsMoney(s, es[0]);
      RunKeepsMoney(Next(s, es[0]), es[1..]);
    }
  }
}
