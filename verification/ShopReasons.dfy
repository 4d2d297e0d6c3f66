/** Why a request was answered as it was: each refusal points at a state of the run in which it was right. */
module ShopReasons {
  import opened Basics
  import opened Shop
  import opened ShopKeys

  // ---------------------------------------------------------------- one statement

  /** What must be so for a purchase to go on to `stage`. */
  predicate BuyReason(s: System, q: Request, stage: Stage)
    requires q.Buy?
  {
    match stage
    case KeyInserted => q.key !in s.db.records && KeyFree(s, q.key)
    case LookingUp => q.key in s.db.records
    case Priced(price) => q.product.Some? && q.product.value in s.products && s.products[q.product.value] == price
    case Charged(price, balance) =>
      q.stage == Priced(price) && q.user in s.db.wallets && 0 <= balance == s.db.wallets[q.user] - price
    case Purchased(price, balance, _) => q.stage == Charged(price, balance)
    case Finishing(status, body) =>
      if status == 402 then
        body == InsufficientFunds && q.stage.Priced?
        && (q.user !in s.db.wallets || s.db.wallets[q.user] < q.stage.price)
      else if status == 404 then
        body == NoSuchProduct && q.stage.Claimed? && q.product.Some? && q.product.value !in s.products
      else status == 201 && q.stage.Purchased?
    case Answered(response) =>
      (match response
       case Stored(status, body) => q.stage == Finishing(status, body)
       case InvalidId => q.product.None?
       case OtherAccount => q.key in s.db.records && s.db.records[q.key].user != q.user
       case StillProcessing =>
         q.key in s.db.records && s.db.records[q.key].user == q.user && s.db.records[q.key].status == 0
       case Replayed(status, body) => q.key in s.db.records && s.db.records[q.key] == Record(q.user, status, body)
       case _ => false)
    case _ => true
  }

  /** And a webhook call: "already applied" only of a committed payment. */
  predicate PayReason(s: System, q: Request, stage: Stage)
    requires q.Pay?
  {
    match stage
    case Inserting => q.externalId != "" && q.amount > 0 && q.user in s.db.wallets
    case PaymentInserted => !PaymentKnown(s.db.payments, q.externalId) && PaymentFree(s, q.externalId)
    case Answered(response) =>
      (match response
       case BadPayment => q.externalId == "" || q.amount <= 0
       case NoAccount => q.user !in s.db.wallets
       case Applied(duplicate) => if duplicate then PaymentKnown(s.db.payments, q.externalId) else q.stage.Credited?
       case _ => false)
    case _ => true
  }

  lemma BuyMoves(s: System, r: int)
    requires r in s.requests && s.requests[r].Buy?
    ensures var q, t := s.requests[r], Advance(s, r);
      && r in t.requests && t.requests[r] == At(q, t.requests[r].stage)
      && (t.requests[r].stage == q.stage || BuyReason(s, q, t.requests[r].stage))
  {
    hide To;
    hide KeyFree;
    hide RowFree;
    forall stage ensures r in To(s, r, stage).requests && To(s, r, stage).requests[r] == At(s.requests[r], stage) {
      ToPuts(s, r, stage);
    }
  }

  lemma ToPuts(s: System, r: int, stage: Stage)
    requires r in s.requests
    ensures r in To(s, r, stage).requests && To(s, r, stage).requests[r] == At(s.requests[r], stage)
  {
  }

  lemma PayMoves(s: System, r: int)
    requires r in s.requests && s.requests[r].Pay?
    ensures var q, t := s.requests[r], Advance(s, r);
      && r in t.requests && t.requests[r] == At(q, t.requests[r].stage)
      && (t.requests[r].stage == q.stage || PayReason(s, q, t.requests[r].stage))
  {
    hide RowFree;
    hide PaymentFree;
    hide PaymentKnown;
  }

  /** Main result, for every state and event: whoever goes on has a reason for it. A purchase is refused for
      lack of money only when the committed wallet is missing or below the price it was shown, and for lack of
      the product only when there is none. */
  lemma GoesOnForAReason(s: System, e: Event, r: int)
    requires r in s.requests
    ensures r in Next(s, e).requests
    ensures var q, stage := s.requests[r], Next(s, e).requests[r].stage;
      && Next(s, e).requests[r] == At(q, stage)
      && (stage == q.stage || (e == Crash(r) && stage.Gone?) ||
          (e == Move(r) && if q.Buy? then BuyReason(s, q, stage) else PayReason(s, q, stage)))
  {
    hide Advance;
    hide BuyReason;
    hide PayReason;
    if e.Move? && e.r in s.requests {
      if e.r != r {
        AdvanceMoves(s, e.r);
      } else if s.requests[r].Buy? {
        BuyMoves(s, r);
      } else {
        PayMoves(s, r);
      }
    }
  }

  // ---------------------------------------------------------------- a whole run

  /** A state the run went through. */
  function Was(es: seq<Event>, k: nat): System
    requires k <= |es|
  {
    Run(Start(), es[..k])
  }

  /** At some time the product had that price, did not exist, or the user had less or no wallet. */
  ghost predicate OncePriced(es: seq<Event>, product: int, price: int) {
    exists k :: 0 <= k <= |es| && product in Was(es, k).products && Was(es, k).products[product] == price
  }

  ghost predicate OnceMissing(es: seq<Event>, product: int) {
    exists k :: 0 <= k <= |es| && product !in Was(es, k).products
  }

  ghost predicate OnceUnknown(es: seq<Event>, user: int) {
    exists k :: 0 <= k <= |es| && user !in Was(es, k).db.wallets
  }

  ghost predicate OnceBelow(es: seq<Event>, user: int, price: int) {
    exists k :: 0 <= k <= |es| && (user !in Was(es, k).db.wallets || Was(es, k).db.wallets[user] < price)
  }

  /** The product was shown at a price that the user's committed wallet fell short of. */
  ghost predicate OnceShort(es: seq<Event>, user: int, product: int) {
    exists price :: OncePriced(es, product, price) && OnceBelow(es, user, price)
  }

  lemma StillWas(es: seq<Event>, e: Event)
    ensures forall k :: 0 <= k <= |es| ==> Was(es + [e], k) == Was(es, k)
  {
    forall k | 0 <= k <= |es| ensures Was(es + [e], k) == Was(es, k) { assert (es + [e])[..k] == es[..k]; }
  }

  lemma StillOnce(es: seq<Event>, e: Event, user: int, product: int, price: int)
    ensures OncePriced(es, product, price) ==> OncePriced(es + [e], product, price)
    ensures OnceMissing(es, product) ==> OnceMissing(es + [e], product)
    ensures OnceUnknown(es, user) ==> OnceUnknown(es + [e], user)
    ensures OnceBelow(es, user, price) ==> OnceBelow(es + [e], user, price)
  {
    hide Was;
    StillWas(es, e);
    if k :| 0 <= k <= |es| && product in Was(es, k).products && Was(es, k).products[product] == price {
      assert product in Was(es + [e], k).products;
    }
    if k :| 0 <= k <= |es| && product !in Was(es, k).products { assert product !in Was(es + [e], k).products; }
    if k :| 0 <= k <= |es| && user !in Was(es, k).db.wallets { assert user !in Was(es + [e], k).db.wallets; }
    if k :| 0 <= k <= |es| && (user !in Was(es, k).db.wallets || Was(es, k).db.wallets[user] < price) {
      assert user !in Was(es + [e], k).db.wallets || Was(es + [e], k).db.wallets[user] < price;
    }
  }

  lemma StillShort(es: seq<Event>, e: Event, user: int, product: int)
    ensures OnceShort(es, user, product) ==> OnceShort(es + [e], user, product)
  {
    if price :| OncePriced(es, product, price) && OnceBelow(es, user, price) { StillOnce(es, e, user, product, price); }
  }

  /** What a stored status says of the run. */
  ghost predicate Deserved(es: seq<Event>, user: int, product: Option<int>, status: int) {
    && product.Some?
    && (status == 402 ==> OnceShort(es, user, product.value))
    && (status == 404 ==> OnceMissing(es, product.value))
    && (status == 402 || status == 404 || status == 201)
  }

  /** Where a request stands, and why. */
  ghost predicate Reasoned(es: seq<Event>, q: Request) {
    if q.Buy? then
      match q.stage
      case Priced(price) => q.product.Some? && OncePriced(es, q.product.value, price)
      case Charged(price, _) => q.product.Some? && OncePriced(es, q.product.value, price)
      case Purchased(price, _, _) => q.product.Some? && OncePriced(es, q.product.value, price)
      case Finishing(status, _) => Deserved(es, q.user, q.product, status)
      case Answered(response) =>
        (response.Stored? ==> Deserved(es, q.user, q.product, response.status))
        && (response.InvalidId? ==> q.product.None?)
      case _ => true
    else
      match q.stage
      case Answered(response) =>
        && (response.BadPayment? ==> q.externalId == "" || q.amount <= 0)
        && (response.NoAccount? ==> OnceUnknown(es, q.user))
        && (response.Applied? ==> PaymentKnown(Was(es, |es|).db.payments, q.externalId))
      case _ => true
  }

  lemma DeservedStays(es: seq<Event>, e: Event, user: int, product: Option<int>, status: int)
    requires Deserved(es, user, product, status)
    ensures Deserved(es + [e], user, product, status)
  {
    StillShort(es, e, user, product.value);
    StillOnce(es, e, user, product.value, 0);
  }

  lemma PaymentsStay(s: System, e: Event, x: string)
    requires PaymentKnown(s.db.payments, x)
    ensures PaymentKnown(Next(s, e).db.payments, x)
  {
    hide RowFree;
    hide KeyFree;
    hide PaymentFree;
    var i :| 0 <= i < |s.db.payments| && s.db.payments[i].externalId == x;
    assert i < |Next(s, e).db.payments| && Next(s, e).db.payments[i] == s.db.payments[i];
  }

  lemma WasNext(es: seq<Event>, e: Event)
    ensures Run(Start(), es + [e]) == Next(Run(Start(), es), e)
    ensures Was(es, |es|) == Run(Start(), es) && Was(es + [e], |es + [e]|) == Next(Run(Start(), es), e)
    ensures Was(es + [e], |es|) == Run(Start(), es)
  {
    RunAppend(Start(), es, [e]);
    assert es[..|es|] == es && (es + [e])[..|es + [e]|] == es + [e] && (es + [e])[..|es|] == es;
    assert [e][1..] == [];
  }

  /** A request that stays where it is keeps its reason. */
  lemma ReasonedStays(es: seq<Event>, e: Event, q: Request)
    requires Reasoned(es, q)
    ensures Reasoned(es + [e], q)
  {
    WasNext(es, e);
    hide Was;
    hide OncePriced;
    hide OnceMissing;
    hide OnceShort;
    hide OnceUnknown;
    hide PaymentKnown;
    hide Deserved;
    if q.Pay? {
      StillOnce(es, e, q.user, 0, 0);
      if PaymentKnown(Was(es, |es|).db.payments, q.externalId) { PaymentsStay(Was(es, |es|), e, q.externalId); }
    } else {
      match q.stage
      case Priced(price) => StillOnce(es, e, q.user, q.product.value, price);
      case Charged(price, _) => StillOnce(es, e, q.user, q.product.value, price);
      case Purchased(price, _, _) => StillOnce(es, e, q.user, q.product.value, price);
      case Finishing(status, _) => DeservedStays(es, e, q.user, q.product, status);
      case Answered(response) =>
        if response.Stored? { DeservedStays(es, e, q.user, q.product, response.status); }
      case _ =>
    }
  }

  lemma ReachedNow(es: seq<Event>, e: Event, user: int, product: int, price: int)
    ensures var s := Run(Start(), es);
      && (product in s.products && s.products[product] == price ==> OncePriced(es + [e], product, price))
      && (product !in s.products ==> OnceMissing(es + [e], product))
      && (user !in s.db.wallets ==> OnceUnknown(es + [e], user))
      && (user !in s.db.wallets || s.db.wallets[user] < price ==> OnceBelow(es + [e], user, price))
  {
    WasNext(es, e);
    hide Was;
    var s := Run(Start(), es);
    assert Was(es + [e], |es|) == s && |es| <= |es + [e]|;
  }

  /** A purchase that goes on has its reason in the run. */
  lemma BuyReasoned(es: seq<Event>, e: Event, q: Request, stage: Stage)
    requires q.Buy? && Reasoned(es, q) && BuyReason(Run(Start(), es), q, stage)
    ensures Reasoned(es + [e], At(q, stage))
  {
    hide OncePriced;
    hide OnceMissing;
    hide OnceBelow;
    hide OnceUnknown;
    hide KeyFree;
    hide Run;
    match stage
    case Priced(price) => ReachedNow(es, e, q.user, q.product.value, price);
    case Charged(price, _) => StillOnce(es, e, q.user, q.product.value, price);
    case Purchased(price, _, _) => StillOnce(es, e, q.user, q.product.value, price);
    case Finishing(status, _) =>
      if status == 402 {
        StillOnce(es, e, q.user, q.product.value, q.stage.price);
        ReachedNow(es, e, q.user, q.product.value, q.stage.price);
        assert OnceShort(es + [e], q.user, q.product.value);
      } else if status == 404 {
        ReachedNow(es, e, q.user, q.product.value, 0);
      }
    case Answered(response) =>
      if response.Stored? { DeservedStays(es, e, q.user, q.product, response.status); }
    case _ =>
  }

  /** So has a webhook call. */
  lemma PayReasoned(es: seq<Event>, r: int)
    requires var s := Run(Start(), es); r in s.requests && s.requests[r].Pay? && Reasoned(es, s.requests[r])
    ensures var s := Run(Start(), es); r in Next(s, Move(r)).requests
    ensures var s := Run(Start(), es); var t := Next(s, Move(r));
      t.requests[r].stage != s.requests[r].stage ==> Reasoned(es + [Move(r)], t.requests[r])
  {
    var s, e := Run(Start(), es), Move(r);
    var q, t := s.requests[r], Next(Run(Start(), es), Move(r));
    WasNext(es, e);
    PayMoves(s, r);
    ReachedNow(es, e, q.user, 0, 0);
    if q.stage.Credited? { PaymentMade(s, r); }
    if PaymentKnown(s.db.payments, q.externalId) { PaymentsStay(s, e, q.externalId); }
    hide Next;
    hide Was;
    hide OnceUnknown;
    hide PaymentKnown;
    hide PaymentFree;
  }

  lemma PaymentMade(s: System, r: int)
    requires r in s.requests && s.requests[r].Pay? && s.requests[r].stage.Credited?
    ensures PaymentKnown(Next(s, Move(r)).db.payments, s.requests[r].externalId)
  {
    var ps := Next(s, Move(r)).db.payments;
    assert ps[|s.db.payments|].externalId == s.requests[r].externalId;
  }

  /** A request that has just come has nothing to explain. */
  lemma NewcomerReasoned(es: seq<Event>, s: System, e: Event, r: int)
    requires r !in s.requests && r in Next(s, e).requests
    ensures Reasoned(es, Next(s, e).requests[r])
  {
    if e.Move? && e.r in s.requests { AdvanceMoves(s, e.r); }
  }

  lemma {:induction false} RequestsHaveReasons(es: seq<Event>, r: int)
    requires r in Run(Start(), es).requests
    ensures Reasoned(es, Run(Start(), es).requests[r])
    decreases |es|
  {
    if es != [] {
      var before, e := es[..|es| - 1], es[|es| - 1];
      assert es == before + [e];
      WasNext(before, e);
      var s := Run(Start(), before);
      hide Next;
      hide Reasoned;
      if r !in s.requests {
        NewcomerReasoned(es, s, e, r);
      } else {
        RequestsHaveReasons(before, r);
        GoesOnForAReason(s, e, r);
        var q, stage := s.requests[r], Next(s, e).requests[r].stage;
        if stage == q.stage {
          ReasonedStays(before, e, q);
        } else if stage.Gone? {
          GoneReasoned(es, q);
        } else if q.Buy? {
          BuyReasoned(before, e, q, stage);
        } else {
          PayReasoned(before, r);
        }
      }
    }
  }

  lemma GoneReasoned(es: seq<Event>, q: Request)
    ensures Reasoned(es, At(q, Gone))
  {
  }

  // ---------------------------------------------------------------- what is stored

  /** A finished record is what its claimer was answered. */
  ghost predicate StoredBy(s: System, k: string) {
    k in s.db.records && s.db.records[k].status != 0 ==>
      && k in s.owner && s.owner[k] in s.requests
      && var q, record := s.requests[s.owner[k]], s.db.records[k];
         q.Buy? && q.key == k && q.user == record.user && q.stage == Answered(Stored(record.status, record.body))
  }

  lemma FinishedKept(s: System, e: Event, k: string)
    requires Money(s) && Keyed(s) && k in s.db.records && s.db.records[k].status != 0 && StoredBy(s, k)
    ensures StoredBy(Next(s, e), k)
  {
    NextKeepsRecord(s, e, k);
    var r := s.owner[k];
    if e == Move(r) { StoppedStays(s, r); } else { OthersKeepStage(s, e, r); }
    hide Money;
    hide Keyed;
    if e == Crash(r) { assert Next(s, e) == s; }
    hide Advance;
    GoesOnForAReason(s, e, r);
  }

  lemma UnfinishedStored(s: System, e: Event, k: string)
    requires Money(s) && Keyed(s) && k in s.db.records && s.db.records[k].status == 0
    ensures StoredBy(Next(s, e), k)
  {
    assert RecordOk(s, k);
    var r := s.owner[k];
    if e == Move(r) {
      RequestAt(s, r);
      hide Money;
      hide Keyed;
      hide Truthful;
      hide KeyBought;
      hide RowFree;
      hide KeyFree;
    } else {
      OnlyOwnerWrites(s, e, k);
    }
  }

  lemma NewRecord(s: System, e: Event, k: string)
    requires k !in s.db.records
    ensures StoredBy(Next(s, e), k)
  {
    hide RowFree;
    hide KeyFree;
    hide PaymentFree;
    hide PaymentKnown;
  }

  lemma {:induction false} RecordsAreAnswers(es: seq<Event>, k: string)
    ensures StoredBy(Run(Start(), es), k)
    decreases |es|
  {
    if es != [] {
      var before, e := es[..|es| - 1], es[|es| - 1];
      assert es == before + [e];
      WasNext(before, e);
      var s := Run(Start(), before);
      RecordsAreAnswers(before, k);
      StartIsGood();
      RunKeepsKeys(Start(), before);
      hide Next;
      hide StoredBy;
      if k !in s.db.records {
        NewRecord(s, e, k);
      } else if s.db.records[k].status == 0 {
        UnfinishedStored(s, e, k);
      } else {
        FinishedKept(s, e, k);
      }
    }
  }

  /** Main result, for every run from the start: a stored 402 means that the claimer's wallet once fell short
      of the price its product was shown at, a stored 404 that the product once did not exist, and nothing but
      these and 201 is ever stored. */
  lemma StoredForAReason(es: seq<Event>, k: string)
    requires var s := Run(Start(), es); k in s.db.records && s.db.records[k].status != 0
    ensures var s := Run(Start(), es);
      && k in s.owner && s.owner[k] in s.requests && s.requests[s.owner[k]].Buy? && s.requests[s.owner[k]].key == k
      && var q := s.requests[s.owner[k]]; Deserved(es, q.user, q.product, s.db.records[k].status)
  {
    hide Deserved;
    RecordsAreAnswers(es, k);
    RequestsHaveReasons(es, Run(Start(), es).owner[k]);
  }

  /** The event commits a purchase. */
  predicate Buys(s: System, e: Event) {
    && e.Move? && e.r in s.requests && s.requests[e.r].Buy? && s.requests[e.r].stage.Purchased?
    && s.requests[e.r].product.Some?
  }

  /** A purchase adds what its request was shown. */
  lemma PurchasesGrow(s: System, e: Event)
    ensures Next(s, e).db.purchases == s.db.purchases || Buys(s, e)
    ensures Buys(s, e) ==>
      var q := s.requests[e.r];
      Next(s, e).db.purchases ==
        s.db.purchases + [Purchase(q.stage.id, q.user, q.product.value, q.stage.price, q.key)]
  {
    hide RowFree;
    hide KeyFree;
    hide PaymentFree;
    hide PaymentKnown;
  }

  /** Main result: every purchase was made at a price the product had. */
  lemma {:induction false} PricesWereReal(es: seq<Event>, p: Purchase)
    requires p in Run(Start(), es).db.purchases
    ensures OncePriced(es, p.product, p.price)
    decreases |es|
  {
    var before, e := es[..|es| - 1], es[|es| - 1];
    assert es == before + [e];
    WasNext(before, e);
    var s := Run(Start(), before);
    hide OncePriced;
    PurchasesGrow(s, e);
    hide Next;
    if p in s.db.purchases {
      PricesWereReal(before, p);
    } else {
      RequestsHaveReasons(before, e.r);
    }
    StillOnce(before, e, 0, p.product, p.price);
  }

  /** Main result: "already applied" is only said of a committed payment. */
  lemma AppliedMeansPaid(es: seq<Event>, r: int)
    requires var q := Run(Start(), es).requests; r in q && q[r].Pay? && q[r].stage.Answered?
    requires Run(Start(), es).requests[r].stage.response.Applied?
    ensures PaymentKnown(Run(Start(), es).db.payments, Run(Start(), es).requests[r].externalId)
  {
    assert es[..|es|] == es;
    RequestsHaveReasons(es, r);
  }
}
