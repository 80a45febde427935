/** The Product entity: a fixed identity, name and price, and a quantity that changes in place. */
module Entity {

  /** The fields a product is stored and rebuilt from. */
  datatype ProductProps = ProductProps(id: string, name: string, price: real, quantity: int)

  class Product {
    const id: string
    const name: string
    const price: real
    var quantity: int

    /** The current value of all four fields, as the getters report them. */
    function Props(): ProductProps
      reads this
    {
      ProductProps(id, name, price, quantity)
    }

    /** A new product under a freshly minted identifier, with nothing in stock. */
    constructor Create(freshId: string, name: string, price: real)
      ensures Props() == ProductProps(freshId, name, price, 0)
    {
      id := freshId;
      this.name := name;
      this.price := price;
      quantity := 0;
    }

    /** A product rebuilt from stored fields: the getters return exactly those fields. */
    constructor With(props: ProductProps)
      ensures Props() == props
    {
      id := props.id;
      name := props.name;
      price := props.price;
      quantity := props.quantity;
    }

    /** Adds to the stock, with no check on the amount. */
    method Buy(amount: int)
      modifies this
      ensures Props() == old(Props()).(quantity := old(quantity) + amount)
    {
      quantity := quantity + amount;
    }

    /** Takes from the stock with no lower bound: the quantity may become negative. */
    method Sell(amount: int)
      modifies this
      ensures Props() == old(Props()).(quantity := old(quantity) - amount)
    {
      quantity := quantity - amount;
    }
  }

  /** Buying an amount and then selling the same amount leaves the product as it was. */
  method BuyThenSell(p: Product, amount: int)
    modifies p
    ensures p.Props() == old(p.Props())
  {
    p.Buy(amount);
    p.Sell(amount);
  }
}
