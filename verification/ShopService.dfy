/** The service functions as they run, one request at a time: they update database rows in place. */
module ShopService {
  import opened Basics
  import opened Shop
  import opened ShopKeys

  class Service {
    var db: Db
    var products: map<int, int>
    var nextId: nat

    constructor (products: map<int, int>, users: set<int>)
      ensures db == Db(map u | u in users :: 0, [], [], map[]) && this.products == products && nextId == 0
    {
      db := Db(map u | u in users :: 0, [], [], map[]);
      this.products := products;
      nextId := 0;
    }

    /** `spend`: one conditional UPDATE. */
    method Spend(user: int, amount: int) returns (won: bool)
      modifies this`db
      ensures won <==> user in old(db.wallets) && old(db.wallets)[user] >= amount
      ensures db == if won then old(db).(wallets := old(db.wallets)[user := old(db.wallets)[user] - amount])
        else old(db)
    {
      won := user in db.wallets && db.wallets[user] >= amount;
      if won { db := db.(wallets := db.wallets[user := db.wallets[user] - amount]); }
    }

    /** `credit`: an UPDATE that may match no row. */
    method Credit(user: int, amount: int)
      modifies this`db
      ensures db == if user in old(db.wallets)
        then old(db).(wallets := old(db.wallets)[user := old(db.wallets)[user] + amount]) else old(db)
    {
      if user in db.wallets { db := db.(wallets := db.wallets[user := db.wallets[user] + amount]); }
    }

    /** `claim_key`: the INSERT wins, or the stored record answers. */
    method ClaimKey(key: string, user: int) returns (answer: Option<Response>)
      modifies this`db
      ensures key in old(db.records) ==> db == old(db) && answer == Some(Answer(old(db.records)[key], user))
      ensures key !in old(db.records) ==>
        answer == None && db == old(db).(records := old(db.records)[key := Record(user, 0, NoBody)])
    {
      if key !in db.records {
        db := db.(records := db.records[key := Record(user, 0, NoBody)]);
        return None;
      }
      var record := db.records[key];
      if record.user != user { return Some(OtherAccount); }
      if record.status == 0 { return Some(StillProcessing); }
      answer := Some(Replayed(record.status, record.body));
    }

    /** `finish_key`, on a record that `claim_key` has just made. */
    method FinishKey(key: string, status: int, body: Body) returns (response: Response)
      requires key in db.records
      modifies this`db
      ensures db == old(db).(records := old(db.records)[key := Record(old(db.records)[key].user, status, body)])
      ensures response == Stored(status, body)
    {
      var record := db.records[key];
      record := record.(status := status, body := body);
      db := db.(records := db.records[key := record]);
      response := Stored(status, body);
    }

    method Buy(user: int, product: Option<int>, key: string) returns (response: Response)
      modifies this`db, this`nextId
      ensures (db, nextId, response) == BuyAlone(old(db), products, old(nextId), user, product, key)
    {
      ghost var before := db.records;
      var claimed := ClaimKey(key, user);
      if claimed.Some? { return claimed.value; }
      if product.None? { return InvalidId; }
      if product.value !in products {
        response := FinishKey(key, 404, NoSuchProduct);
        Overwritten(before, key, Record(user, 0, NoBody), Record(user, 404, NoSuchProduct));
        return;
      }
      var price := products[product.value];
      var won := Spend(user, price);
      if !won {
        response := FinishKey(key, 402, InsufficientFunds);
        Overwritten(before, key, Record(user, 0, NoBody), Record(user, 402, InsufficientFunds));
        return;
      }
      var id := nextId;
      nextId := nextId + 1;
      db := db.(purchases := db.purchases + [Purchase(id, user, product.value, price, key)]);
      response := FinishKey(key, 201, Bought(id, product.value, price));
      Overwritten(before, key, Record(user, 0, NoBody), Record(user, 201, Bought(id, product.value, price)));
    }

    method ApplyGatewayPayment(externalId: string, user: int, amount: int) returns (response: Response)
      modifies this`db
      ensures (db, response) == PayAlone(old(db), externalId, user, amount)
    {
      if externalId == "" || amount <= 0 { return BadPayment; }
      if user !in db.wallets { return NoAccount; }
      if PaymentKnown(db.payments, externalId) { return Applied(true); }
      db := db.(payments := db.payments + [Payment(externalId, user, amount)]);
      Credit(user, amount);
      response := Applied(false);
    }
  }
}
