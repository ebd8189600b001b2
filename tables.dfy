/** The rows the pages read from and write to the hosted backend, as the pages use them.
    Money is a whole number of rupees; `createdAt` is an abstract timestamp. */
module Tables {
  import opened Nullable

  /** A row of the `products` table. */
  datatype Product = Product(
    id: string,
    name: string,
    description: Option<string>,
    price: int,
    category: Option<string>,
    stockQuantity: Option<int>,
    isActive: Option<bool>,
    imageUrl: Option<string>,
    createdAt: int)

  /** A row of the `order_items` table. */
  datatype OrderItem = OrderItem(
    orderId: string,
    productId: string,
    productName: string,
    quantity: int,
    unitPrice: int,
    totalPrice: int)

  /** A row of the `orders` table (the pages also fetch its items, which no modelled figure reads). */
  datatype Order = Order(
    id: string,
    userId: Option<string>,
    customerName: string,
    customerEmail: string,
    customerPhone: string,
    customerAddress: string,
    totalAmount: int,
    status: Option<string>,
    createdAt: int)

  /** One line of the shopper's cart as the cart store hands it out: a product snapshot and a quantity. */
  datatype CartLine = CartLine(product: Product, quantity: int)

  /** `Number(order.total_amount)`, the term every revenue sum adds up. */
  function Amount(o: Order): int {
    o.totalAmount
  }
}
