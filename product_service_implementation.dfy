/**
 * The product service: each operation loads through the repository, checks, changes
 * the entity and writes it back.
 */
module ServiceImplementation {
  import opened Outcomes
  import opened Entity
  import opened Repository
  import opened Service

  class ProductServiceImplementation {
    const productRepository: InMemoryProductRepository

    constructor Build(productRepository: InMemoryProductRepository)
      ensures this.productRepository == productRepository
    {
      this.productRepository := productRepository;
    }

    /** Mints a product under freshId, saves it, and returns its public fields. */
    method Create(freshId: string, name: string, price: real) returns (output: ProductDto)
      requires Valid(productRepository.State())
      requires freshId !in productRepository.records
      modifies productRepository
      ensures Valid(productRepository.State())
      ensures (output, productRepository.State())
              == CreateStep(old(productRepository.State()), freshId, name, price)
    {
      var aProduct := new Product.Create(freshId, name, price);
      productRepository.Save(aProduct);
      output := ProductDto(aProduct.id, aProduct.name, aProduct.price, aProduct.quantity);
    }

    /** Takes amount from the stock of the product stored under id. */
    method Sell(id: string, amount: int) returns (output: Result<BalanceOutput>)
      requires Valid(productRepository.State())
      modifies productRepository
      ensures Valid(productRepository.State())
      ensures (output, productRepository.State())
              == SellStep(old(productRepository.State()), id, amount)
    {
      var found := productRepository.FindById(id);
      if found.Failure? {
        return Failure(found.error);
      }
      var aProduct := found.value;
      if aProduct.quantity < amount {
        return Failure(InsufficientBalance);
      }
      aProduct.Sell(amount);
      productRepository.Update(aProduct);
      output := Success(BalanceOutput(id, aProduct.quantity));
    }

    /** Adds amount to the stock of the product stored under id, behind sell's check. */
    method Buy(id: string, amount: int) returns (output: Result<BalanceOutput>)
      requires Valid(productRepository.State())
      modifies productRepository
      ensures Valid(productRepository.State())
      ensures (output, productRepository.State())
              == BuyStep(old(productRepository.State()), id, amount)
    {
      var found := productRepository.FindById(id);
      if found.Failure? {
        return Failure(found.error);
      }
      var aProduct := found.value;
      if aProduct.quantity < amount {
        return Failure(InsufficientBalance);
      }
      aProduct.Buy(amount);
      productRepository.Update(aProduct);
      output := Success(BalanceOutput(id, aProduct.quantity));
    }

    /** The public fields of every stored product, in listing order. */
    method List() returns (output: ListOutput)
      requires Valid(productRepository.State())
      ensures output.products == Listing(productRepository.State())
    {
      var aProducts := productRepository.List();
      output := ListOutput(ToDtos(aProducts));
    }
  }
}
