/**
 * An in-memory stand-in for the product repository: the stored records keyed by
 * identifier, and the identifiers in the order they were saved, which is the order
 * in which the repository lists them.
 */
module Repository {
  import opened Outcomes
  import opened Entity

  /** The repository's contents as a value. */
  datatype Store = Store(records: map<string, ProductProps>, order: seq<string>)

  /**
   * The listing order names every stored record exactly once, and each record is
   * stored under its own identifier.
   */
  ghost predicate Valid(s: Store) {
    (forall i, j :: 0 <= i < j < |s.order| ==> s.order[i] != s.order[j]) &&
    (forall i :: 0 <= i < |s.order| ==> s.order[i] in s.records) &&
    (forall id :: id in s.records ==> id in s.order && s.records[id].id == id)
  }

  class InMemoryProductRepository {
    var records: map<string, ProductProps>
    var order: seq<string>

    function State(): Store
      reads this
    {
      Store(records, order)
    }

    constructor ()
      ensures Valid(State()) && State() == Store(map[], [])
    {
      records := map[];
      order := [];
    }

    /** Stores a new product; its identifier must not be stored yet. */
    method Save(product: Product)
      requires Valid(State())
      requires product.id !in records
      modifies this
      ensures Valid(State())
      ensures State() == Store(old(records)[product.id := product.Props()], old(order) + [product.id])
    {
      records := records[product.id := product.Props()];
      order := order + [product.id];
    }

    /** Rebuilds the product stored under id, or fails with NotFound. */
    method FindById(id: string) returns (r: Result<Product>)
      ensures r.Failure? <==> id !in records
      ensures r.Failure? ==> r.error == NotFound
      ensures r.Success? ==> fresh(r.value) && r.value.Props() == records[id]
    {
      if id !in records {
        return Failure(NotFound);
      }
      var product := new Product.With(records[id]);
      return Success(product);
    }

    /** Writes the product's fields over the record stored under its identifier. */
    method Update(product: Product)
      requires Valid(State())
      requires product.id in records
      modifies this
      ensures Valid(State())
      ensures State() == Store(old(records)[product.id := product.Props()], old(order))
    {
      records := records[product.id := product.Props()];
    }

    /** Rebuilds every stored product, in listing order. */
    method List() returns (products: seq<Product>)
      requires Valid(State())
      ensures |products| == |order|
      ensures forall k :: 0 <= k < |products| ==>
                fresh(products[k]) && products[k].Props() == records[order[k]]
    {
      products := [];
      var i := 0;
      while i < |order|
        invariant 0 <= i <= |order| && |products| == i
        invariant forall k :: 0 <= k < i ==>
                    fresh(products[k]) && products[k].Props() == records[order[k]]
      {
        var product := new Product.With(records[order[i]]);
        products := products + [product];
        i := i + 1;
      }
    }
  }
}
