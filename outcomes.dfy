/** Failures raised by the product stock operations, and the result type that carries them. */
module Outcomes {

  /** The two errors of the stock domain: "Product not found" and "Insufficient balance". */
  datatype StockError = NotFound | InsufficientBalance

  /** Either the value an operation returns or the error it throws. */
  datatype Result<T> = Success(value: T) | Failure(error: StockError)
}
