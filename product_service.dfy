/**
 * What the product service promises, stated over the repository's contents as values:
 * the output shapes, the projection of a product to its public fields, and one
 * function per operation giving its output and the contents it leaves behind.
 */
module Service {
  import opened Outcomes
  import opened Entity
  import opened Repository

  /** The public fields of a product: the output of create and each element of list. */
  datatype ProductDto = ProductDto(id: string, name: string, price: real, quantity: int)

  /** The output of sell and buy: the requested identifier and the resulting quantity. */
  datatype BalanceOutput = BalanceOutput(id: string, balance: int)

  /** The output of list. */
  datatype ListOutput = ListOutput(products: seq<ProductDto>)

  /** The projection of a product's stored fields to its public output. */
  function Dto(p: ProductProps): ProductDto {
    ProductDto(p.id, p.name, p.price, p.quantity)
  }

  /** The projection the service applies to the products the repository lists. */
  function ToDtos(products: seq<Product>): (r: seq<ProductDto>)
    reads products
    ensures |r| == |products|
    ensures forall k :: 0 <= k < |products| ==> r[k] == Dto(products[k].Props())
  {
    if products == [] then [] else [Dto(products[0].Props())] + ToDtos(products[1..])
  }

  /** What list returns for given contents: one entry per identifier in listing order. */
  function Listing(s: Store): (r: seq<ProductDto>)
    requires forall i :: 0 <= i < |s.order| ==> s.order[i] in s.records
    ensures |r| == |s.order|
    ensures forall k :: 0 <= k < |s.order| ==> r[k] == Dto(s.records[s.order[k]])
    decreases |s.order|
  {
    if s.order == [] then []
    else [Dto(s.records[s.order[0]])] + Listing(Store(s.records, s.order[1..]))
  }

  /** create: a new record with quantity 0 under the fresh identifier, appended to the listing. */
  function CreateStep(s: Store, freshId: string, name: string, price: real): (ProductDto, Store)
    requires freshId !in s.records
  {
    var p := ProductProps(freshId, name, price, 0);
    (Dto(p), Store(s.records[freshId := p], s.order + [freshId]))
  }

  /**
   * The load-and-check that sell and buy share: NotFound when nothing is stored under
   * id, InsufficientBalance when the stored quantity is below the amount.
   */
  function CheckStock(s: Store, id: string, amount: int): Result<ProductProps> {
    if id !in s.records then Failure(NotFound)
    else if s.records[id].quantity < amount then Failure(InsufficientBalance)
    else Success(s.records[id])
  }

  /** Replaces the quantity stored under id, keeping every other field and record. */
  function WithQuantity(s: Store, id: string, quantity: int): Store
    requires id in s.records
  {
    Store(s.records[id := s.records[id].(quantity := quantity)], s.order)
  }

  /** sell: on a passed check, the stored quantity drops by the amount. */
  function SellStep(s: Store, id: string, amount: int): (Result<BalanceOutput>, Store) {
    match CheckStock(s, id, amount)
    case Failure(e) => (Failure(e), s)
    case Success(p) =>
      var balance := p.quantity - amount;
      (Success(BalanceOutput(id, balance)), WithQuantity(s, id, balance))
  }

  /** buy: the same check as sell; on a pass, the stored quantity grows by the amount. */
  function BuyStep(s: Store, id: string, amount: int): (Result<BalanceOutput>, Store) {
    match CheckStock(s, id, amount)
    case Failure(e) => (Failure(e), s)
    case Success(p) =>
      var balance := p.quantity + amount;
      (Success(BalanceOutput(id, balance)), WithQuantity(s, id, balance))
  }
}
