/**
 * The second product service, a copy of the first without create: the same sell,
 * buy and list over the repository.
 */
module Implementation {
  import opened Outcomes
  import opened Entity
  import opened Repository
  import opened Service

  class ProductImplementation {
    const productRepository: InMemoryProductRepository

    constructor (productRepository: InMemoryProductRepository)
      ensures this.productRepository == productRepository
    {
      this.productRepository := productRepository;
    }

    /** Takes amount from the stock of the product stored under id. */
    method Sell(id: string, amount: int) returns (output: Result<BalanceOutput>)
      requires Valid(productRepository.State())
      modifies productRepository
      ensures Valid(productRepository.State())
      ensures (output, productRepository.State())
              == SellStep(old(productRepository.State()), id, amount)
    {
      var found := productRepository.FindById(id);
      if found.Failure? {
        return Failure(found.error);
      }
      var aProduct := found.value;
      if aProduct.quantity < amount {
        return Failure(InsufficientBalance);
      }
      aProduct.Sell(amount);
      productRepository.Update(aProduct);
      output := Success(BalanceOutput(id, aProduct.quantity));
    }

    /** Adds amount to the stock of the product stored under id, behind sell's check. */
    method Buy(id: string, amount: int) returns (output: Result<BalanceOutput>)
      requires Valid(productRepository.State())
      modifies productRepository
      ensures Valid(productRepository.State())
      ensures (output, productRepository.State())
              == BuyStep(old(productRepository.State()), id, amount)
    {
      var found := productRepository.FindById(id);
      if found.Failure? {
        return Failure(found.error);
      }
      var aProduct := found.value;
      if aProduct.quantity < amount {
        return Failure(InsufficientBalance);
      }
      aProduct.Buy(amount);
      productRepository.Update(aProduct);
      output := Success(BalanceOutput(id, aProduct.quantity));
    }

    /** The public fields of every stored product, in listing order. */
    method List() returns (output: ListOutput)
      requires Valid(productRepository.State())
      ensures output.products == Listing(productRepository.State())
    {
      var aProducts := productRepository.List();
      output := ListOutput(ToDtos(aProducts));
    }
  }
}
