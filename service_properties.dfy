/**
 * Properties of the product service, proved over the functions that specify it:
 * outcomes and error cases, what each operation changes and what it leaves alone,
 * the order of the listing, and the stock invariant over any sequence of calls.
 */
module ServiceProperties {
  import opened Outcomes
  import opened Entity
  import opened Repository
  import opened Service

  /** No stored product has a negative quantity. */
  ghost predicate InStock(s: Store) {
    forall id :: id in s.records ==> s.records[id].quantity >= 0
  }

  /**
   * t differs from s only in the quantity stored under id, which is now q: same
   * identifiers, same listing order, same id, name and price everywhere.
   */
  ghost predicate OnlyQuantityChanged(s: Store, t: Store, id: string, q: int) {
    id in s.records && t.order == s.order && t.records.Keys == s.records.Keys &&
    t.records[id] == s.records[id].(quantity := q) &&
    forall other :: other in s.records && other != id ==> t.records[other] == s.records[other]
  }

  // ---- create ----

  /** create returns quantity 0, echoes name and price, and adds exactly one record. */
  lemma CreateAddsOneRecord(s: Store, freshId: string, name: string, price: real)
    requires Valid(s) && freshId !in s.records
    ensures var (out, t) := CreateStep(s, freshId, name, price);
      out == ProductDto(freshId, name, price, 0) &&
      t.records.Keys == s.records.Keys + {freshId} &&
      t.records[freshId] == ProductProps(freshId, name, price, 0) &&
      (forall other :: other in s.records ==> t.records[other] == s.records[other]) &&
      t.order == s.order + [freshId] &&
      Valid(t) && (InStock(s) ==> InStock(t))
  {
  }

  /** After create, list shows everything it showed before and then the new product. */
  lemma ListingAfterCreate(s: Store, freshId: string, name: string, price: real)
    requires Valid(s) && freshId !in s.records
    ensures Listing(CreateStep(s, freshId, name, price).1)
            == Listing(s) + [CreateStep(s, freshId, name, price).0]
  {
    var out := CreateStep(s, freshId, name, price).0;
    var t := CreateStep(s, freshId, name, price).1;
    var before, after := Listing(s), Listing(t);
    forall k | 0 <= k < |after|
      ensures after[k] == (before + [out])[k]
    {
      if k < |s.order| {
        assert s.order[k] in s.records;
      }
    }
  }

  // ---- sell ----

  /** sell fails exactly in its two error cases, and a failed sell stores nothing. */
  lemma SellOutcome(s: Store, id: string, amount: int)
    ensures var (r, t) := SellStep(s, id, amount);
      (r == Failure(NotFound) <==> id !in s.records) &&
      (r == Failure(InsufficientBalance) <==> id in s.records && s.records[id].quantity < amount) &&
      (r.Success? <==> id in s.records && amount <= s.records[id].quantity) &&
      (r.Failure? ==> t == s)
  {
  }

  /**
   * A successful sell returns the requested id and the old quantity minus the amount,
   * stores that balance, and changes nothing else.
   */
  lemma SellSuccess(s: Store, id: string, amount: int)
    requires id in s.records && amount <= s.records[id].quantity
    ensures var (r, t) := SellStep(s, id, amount);
      r == Success(BalanceOutput(id, s.records[id].quantity - amount)) &&
      OnlyQuantityChanged(s, t, id, r.value.balance) &&
      r.value.balance >= 0
  {
  }

  /** sell never leaves a negative quantity behind when none was stored before. */
  lemma SellKeepsInStock(s: Store, id: string, amount: int)
    requires Valid(s) && InStock(s)
    ensures Valid(SellStep(s, id, amount).1) && InStock(SellStep(s, id, amount).1)
  {
  }

  // ---- buy ----

  /** buy rejects exactly when sell would: it carries sell's check unchanged. */
  lemma BuyChecksLikeSell(s: Store, id: string, amount: int)
    ensures BuyStep(s, id, amount).0.Failure? <==> SellStep(s, id, amount).0.Failure?
    ensures BuyStep(s, id, amount).0.Failure? ==>
              BuyStep(s, id, amount) == SellStep(s, id, amount)
  {
  }

  /**
   * A successful buy returns the requested id and the old quantity plus the amount,
   * stores that balance, and changes nothing else.
   */
  lemma BuySuccess(s: Store, id: string, amount: int)
    requires id in s.records && amount <= s.records[id].quantity
    ensures var (r, t) := BuyStep(s, id, amount);
      r == Success(BalanceOutput(id, s.records[id].quantity + amount)) &&
      OnlyQuantityChanged(s, t, id, r.value.balance)
  {
  }

  /** buy keeps the stock non-negative when the amount bought is not negative. */
  lemma BuyKeepsInStock(s: Store, id: string, amount: int)
    requires Valid(s) && InStock(s) && amount >= 0
    ensures Valid(BuyStep(s, id, amount).1) && InStock(BuyStep(s, id, amount).1)
  {
  }

  /**
   * The check buy inherits does not protect it: a negative amount larger than the
   * stock passes it and leaves a negative quantity stored (buying -1 from 0 stores -1).
   */
  lemma NegativeBuyBreaksStock(id: string)
    ensures var s := Store(map[id := ProductProps(id, "p", 1.0, 0)], [id]);
      Valid(s) && InStock(s) &&
      BuyStep(s, id, -1).0 == Success(BalanceOutput(id, -1)) &&
      !InStock(BuyStep(s, id, -1).1)
  {
    var s := Store(map[id := ProductProps(id, "p", 1.0, 0)], [id]);
    assert BuyStep(s, id, -1).1.records[id].quantity == -1;
  }

  /**
   * From a non-negative quantity, a successful buy followed by a sell of the same
   * amount passes the check and restores the contents.
   */
  lemma BuyThenSellRestores(s: Store, id: string, amount: int)
    requires BuyStep(s, id, amount).0.Success? && s.records[id].quantity >= 0
    ensures var t := BuyStep(s, id, amount).1;
      SellStep(t, id, amount).0 == Success(BalanceOutput(id, s.records[id].quantity)) &&
      SellStep(t, id, amount).1 == s
  {
  }

  // ---- list ----

  /** Nothing stored, nothing listed. */
  lemma ListingOfEmpty()
    ensures Listing(Store(map[], [])) == []
  {
  }

  /** list names each stored product exactly once, in listing order. */
  lemma ListingNamesEachOnce(s: Store)
    requires Valid(s)
    ensures forall k :: 0 <= k < |s.order| ==> Listing(s)[k].id == s.order[k]
    ensures forall id :: id in s.records <==> exists k :: 0 <= k < |s.order| && Listing(s)[k].id == id
  {
  }

  /** After buy or sell, list differs only in the quantity of the product concerned. */
  lemma ListingAfterQuantityChange(s: Store, id: string, q: int)
    requires Valid(s) && id in s.records
    ensures var t := WithQuantity(s, id, q);
      |Listing(t)| == |Listing(s)| &&
      forall k :: 0 <= k < |s.order| ==>
        Listing(t)[k] == if s.order[k] == id then Listing(s)[k].(quantity := q) else Listing(s)[k]
  {
  }

  // ---- create, then sell 5 and buy 10 ----

  /**
   * Create "Product 1" at price 100, then sell 5 and buy 10: the sell fails for lack of
   * stock, and so does the buy, since it applies the same check to quantity 0.
   */
  lemma ScenarioAsWritten(x: string)
    ensures var (created, s) := CreateStep(Store(map[], []), x, "Product 1", 100.0);
      created == ProductDto(x, "Product 1", 100.0, 0) &&
      SellStep(s, x, 5) == (Failure(InsufficientBalance), s) &&
      BuyStep(s, x, 10) == (Failure(InsufficientBalance), s)
  {
  }

  // ---- sequences of calls ----

  /** One call to the service. */
  datatype Request =
    | CreateRequest(freshId: string, name: string, price: real)
    | SellRequest(id: string, amount: int)
    | BuyRequest(id: string, amount: int)
    | ListRequest

  /** The contents after one call. */
  function Apply(s: Store, req: Request): Store
    requires req.CreateRequest? ==> req.freshId !in s.records
  {
    match req
    case CreateRequest(freshId, name, price) => CreateStep(s, freshId, name, price).1
    case SellRequest(id, amount) => SellStep(s, id, amount).1
    case BuyRequest(id, amount) => BuyStep(s, id, amount).1
    case ListRequest => s
  }

  /**
   * Every identifier minted along the way is new: not stored at the start and not
   * minted by an earlier call.
   */
  ghost predicate FreshIds(s: Store, reqs: seq<Request>) {
    (forall i :: 0 <= i < |reqs| && reqs[i].CreateRequest? ==> reqs[i].freshId !in s.records) &&
    (forall i, j :: 0 <= i < j < |reqs| && reqs[i].CreateRequest? && reqs[j].CreateRequest? ==>
       reqs[i].freshId != reqs[j].freshId)
  }

  /** Identifiers minted later are still fresh after the first call. */
  lemma FreshIdsAfterFirst(s: Store, reqs: seq<Request>)
    requires |reqs| > 0 && FreshIds(s, reqs)
    ensures FreshIds(Apply(s, reqs[0]), reqs[1..])
  {
  }

  /** The contents after a sequence of calls, made one after another. */
  function Run(s: Store, reqs: seq<Request>): Store
    requires FreshIds(s, reqs)
    decreases |reqs|
  {
    if reqs == [] then s
    else
      FreshIdsAfterFirst(s, reqs);
      Run(Apply(s, reqs[0]), reqs[1..])
  }

  /** No call buys a negative amount. */
  ghost predicate NoNegativeBuys(reqs: seq<Request>) {
    forall i :: 0 <= i < |reqs| && reqs[i].BuyRequest? ==> reqs[i].amount >= 0
  }

  /** One call keeps the contents well formed and the stock non-negative. */
  lemma ApplyKeepsInStock(s: Store, req: Request)
    requires Valid(s) && InStock(s)
    requires req.CreateRequest? ==> req.freshId !in s.records
    requires req.BuyRequest? ==> req.amount >= 0
    ensures Valid(Apply(s, req)) && InStock(Apply(s, req))
  {
  }

  /**
   * Whatever sequence of calls is made, the stock never goes negative, provided no
   * call buys a negative amount.
   */
  lemma {:induction false} RunKeepsInStock(s: Store, reqs: seq<Request>)
    requires Valid(s) && InStock(s) && FreshIds(s, reqs) && NoNegativeBuys(reqs)
    ensures Valid(Run(s, reqs)) && InStock(Run(s, reqs))
    decreases |reqs|
  {
    if reqs != [] {
      FreshIdsAfterFirst(s, reqs);
      ApplyKeepsInStock(s, reqs[0]);
      var rest := reqs[1..];
      assert NoNegativeBuys(rest) by {
        forall i | 0 <= i < |rest| && rest[i].BuyRequest?
          ensures rest[i].amount >= 0
        {
          assert rest[i] == reqs[i + 1];
        }
      }
      RunKeepsInStock(Apply(s, reqs[0]), rest);
    }
  }
}
