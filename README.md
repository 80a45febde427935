# Product stock service — a Dafny model

This project models the domain core of a small inventory backend: the `Product`
entity, whose identity, name and price are fixed and whose quantity changes in
place, and the two product services (`ProductServiceImplementation` and its
copy `ProductImplementation`). Each `sell` and `buy` loads a product through the
repository, checks its stock, changes the entity and writes it back. `create`
mints and saves a product. `list` projects every stored product to its public
fields.

Layout, one module per file:

- `outcomes.dfy` (`Outcomes`): the two errors, `NotFound` ("Product not found")
  and `InsufficientBalance` ("Insufficient balance"), and the `Result` type that
  stands for a thrown `Error`.
- `product.dfy` (`Entity`): the `ProductProps` record and the `Product` class.
  The `const` fields `id`, `name` and `price` and the `var` field `quantity` are
  the getters. `Buy` and `Sell` change `quantity` in place.
- `repository.dfy` (`Repository`): an in-memory stand-in for the repository
  interface. It holds a map from identifier to stored fields and the identifiers
  in the order they were saved. `Store` is that content as a value. `Valid` says
  that the order names every record once and that each record sits under its own
  identifier.
- `product_service.dfy` (`Service`): the output records and the specification of
  each service operation as a function over a `Store`: `CreateStep`, `SellStep`,
  `BuyStep` (these two share `CheckStock`, the load-and-check that the source
  repeats word for word) and `Listing`.
- `product_service_implementation.dfy` (`ServiceImplementation`) and
  `product_implementation.dfy` (`Implementation`): the two service classes. Each
  method's postcondition equates its output and the repository's new content
  with the specification function applied to the old content.
- `service_properties.dfy` (`ServiceProperties`): what the operations promise,
  proved over the specification functions. It also holds the stock invariant
  over any sequence of calls.

Two consequences of the code as written:

- `buy` carries `sell`'s `quantity < amount` check
  (`src/model/services/product/product.service.implementation.ts:49-51`), so
  from quantity 0 `buy(x, 10)` fails with "Insufficient balance", just as
  `sell(x, 5)` does (`ScenarioAsWritten`).
- No stored quantity goes negative over any sequence of calls that buys no
  negative amount (`RunKeepsInStock`). A negative `buy` amount can store a
  negative quantity: buying −1 from 0 stores −1 (`NegativeBuyBreaksStock`).

## Model

| member | source | states |
|---|---|---|
| `Entity.Product.Create` | src/model/entities/product.ts:13-19 | a new product has the given id, name and price and quantity exactly 0 |
| `Entity.Product.With` | src/model/entities/product.ts:22-40 | a rebuilt product's getters return exactly the id, name, price and quantity it was built from |
| `Entity.Product.Buy` | src/model/entities/product.ts:42-44 | quantity becomes old quantity + amount, with no check; id, name and price unchanged |
| `Entity.Product.Sell` | src/model/entities/product.ts:46-48 | quantity becomes old quantity − amount with no lower bound, so it may go negative; id, name and price unchanged |
| `Entity.BuyThenSell` | src/model/entities/product.ts:42-48 | buying an amount and then selling the same amount restores every field of the product |
| `Repository.InMemoryProductRepository.Save` | src/model/repositories/product.repository.ts:4 | a new identifier gains exactly its record and is appended to the listing order; nothing else changes |
| `Repository.InMemoryProductRepository.FindById` | src/model/repositories/product/products.repository.prisma.ts:22-35 | fails with NotFound exactly when nothing is stored under the id; otherwise returns a fresh product whose fields equal the stored record |
| `Repository.InMemoryProductRepository.Update` | src/model/repositories/product.repository.ts:7 | the record under the product's identifier is replaced by its current fields; no other record and not the order changes |
| `Repository.InMemoryProductRepository.List` | src/model/repositories/product.repository.ts:5 | one fresh product per stored identifier, in listing order, each equal to its stored record |
| `Service.ToDtos` | src/model/services/product/product.service.implementation.ts:66-71 | the projection keeps length and order and copies each product's four fields |
| `Service.Listing` | src/model/services/product/product.service.implementation.ts:63-74 | the listing has one entry per stored identifier in listing order, each carrying that record's fields |
| `ServiceImplementation.ProductServiceImplementation.Build` | src/model/services/product/product.service.implementation.ts:6-10 | the service works on the repository it is built with |
| `ServiceImplementation.ProductServiceImplementation.Create` | src/model/services/product/product.service.implementation.ts:12-24 | output and new repository content are those of `CreateStep` on the old content: the new product is saved and its fields returned |
| `ServiceImplementation.ProductServiceImplementation.Sell` | src/model/services/product/product.service.implementation.ts:25-43 | output and new content are those of `SellStep`: NotFound, then InsufficientBalance, else the quantity drops by the amount and is stored and returned |
| `ServiceImplementation.ProductServiceImplementation.Buy` | src/model/services/product/product.service.implementation.ts:44-62 | output and new content are those of `BuyStep`: sell's check, then the quantity grows by the amount and is stored and returned |
| `ServiceImplementation.ProductServiceImplementation.List` | src/model/services/product/product.service.implementation.ts:63-75 | returns exactly `Listing` of the repository's content, changing nothing |
| `Implementation.ProductImplementation.constructor` | src/model/services/product/product.implementation.ts:5-7 | the service works on the repository it is given |
| `Implementation.ProductImplementation.Sell` | src/model/services/product/product.implementation.ts:8-26 | output and new content are those of `SellStep`, as for the first service |
| `Implementation.ProductImplementation.Buy` | src/model/services/product/product.implementation.ts:27-45 | output and new content are those of `BuyStep`, as for the first service |
| `Implementation.ProductImplementation.List` | src/model/services/product/product.implementation.ts:46-58 | returns exactly `Listing` of the repository's content, changing nothing |
| `ServiceProperties.CreateAddsOneRecord` | src/model/services/product/product.service.implementation.ts:12-23 | create returns id, the given name and price, quantity 0; the store gains exactly that record under the new id, existing records unchanged, order extended by the id, validity and non-negative stock kept |
| `ServiceProperties.ListingAfterCreate` | src/model/services/product/product.service.implementation.ts:12-14 | after create, the listing is the old listing followed by the created product |
| `ServiceProperties.SellOutcome` | src/model/services/product/product.service.implementation.ts:25-32 | sell fails with NotFound iff the id is absent, with InsufficientBalance iff quantity < amount, succeeds iff neither; on failure nothing is stored |
| `ServiceProperties.SellSuccess` | src/model/services/product/product.service.implementation.ts:30-42 | a successful sell returns the requested id and old quantity − amount, stores that balance, changes nothing else, and the balance is non-negative |
| `ServiceProperties.SellKeepsInStock` | src/model/services/product/product.implementation.ts:13-18 | from a valid store with no negative quantity, sell keeps both properties |
| `ServiceProperties.BuyChecksLikeSell` | src/model/services/product/product.implementation.ts:27-34 | buy fails exactly when sell would, with the same error and no change |
| `ServiceProperties.BuySuccess` | src/model/services/product/product.service.implementation.ts:49-61 | a successful buy returns the requested id and old quantity + amount, stores that balance and changes only that quantity |
| `ServiceProperties.BuyKeepsInStock` | src/model/services/product/product.implementation.ts:32-37 | with a non-negative amount, buy keeps the store valid and free of negative quantities |
| `ServiceProperties.NegativeBuyBreaksStock` | src/model/services/product/product.service.implementation.ts:49-52 | a buy of −1 from quantity 0 passes the check and stores −1 |
| `ServiceProperties.BuyThenSellRestores` | src/model/services/product/product.implementation.ts:8-45 | from a non-negative quantity, a successful buy then a sell of the same amount succeeds and restores the store |
| `ServiceProperties.ListingOfEmpty` | src/model/services/product/product.implementation.ts:46-58 | an empty store lists nothing |
| `ServiceProperties.ListingNamesEachOnce` | src/model/services/product/product.implementation.ts:49-54 | entry k of the listing has the k-th identifier, and an id is listed iff it is stored |
| `ServiceProperties.ListingAfterQuantityChange` | src/model/services/product/product.implementation.ts:16-18 | after a stock change, the listing differs only in the quantity of the product concerned |
| `ServiceProperties.ScenarioAsWritten` | src/model/services/product/product.service.implementation.ts:12-61 | create("Product 1", 100) gives quantity 0; then sell 5 and buy 10 both fail with InsufficientBalance and store nothing |
| `ServiceProperties.FreshIdsAfterFirst` | src/model/entities/product.ts:15 | identifiers minted by later calls stay fresh after the first call |
| `ServiceProperties.ApplyKeepsInStock` | src/model/services/product/product.service.implementation.ts:12-61 | any single call, buying no negative amount, keeps the store valid and free of negative quantities |
| `ServiceProperties.RunKeepsInStock` | src/model/services/product/product.service.implementation.ts:25-61 | over any sequence of calls with fresh minted ids and no negative buy, the store stays valid and no quantity goes negative |

## Left out

- The Prisma-backed repository is not part of this model. It is replaced by the in-memory stand-in. Only its "Product not found" failure in `findById` is taken over.
- Repository.InMemoryProductRepository.Update: requires the identifier to be stored. A Prisma `update` of a missing record throws, and both services call `update` only after `findById` has found the record.
- Repository.InMemoryProductRepository.List: returns products in save order. Prisma's `findMany` without an `orderBy` promises no order.
- The services' own `if (!aProduct)` check duplicates the repository's failure with the same message. It is modelled once, as `FindById` failing with NotFound.
- The Express controller, route registration, logging and process start-up are not modelled: they are HTTP marshalling with no domain logic.
- `async`/`Promise`: every call is modelled as sequential.
- The read-modify-write race between concurrent `buy`/`sell` calls is not modelled, because concurrency is out of scope.
- `crypto.randomUUID()` is not modelled. The new identifier is a parameter that must not be stored yet, and across a sequence of calls the minted identifiers must be distinct.
- JavaScript `number`: quantities and amounts are integers, so fractional amounts, NaN and rounding are not modelled. The price is a `real` that is only passed through.
- `ProductService`'s `create(name, price, quantity)` signature has a third parameter that no implementation uses. It is not modelled.
- `ProductImplementation` has only a private constructor and no factory. The model gives it a plain constructor so that its methods can be stated.
- Storage failures other than a missing record are not modelled, because they come from the database, not from this code.
