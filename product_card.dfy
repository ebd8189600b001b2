/** The display rules of `src/components/products/ProductCard.tsx`: which badges and overlays a product
    card shows, when its add button is disabled, and what a click on it hands to the cart. */
module ProductCard {
  import opened Nullable
  import opened Tables

  /** What one product card shows. */
  datatype CardView = CardView(
    categoryBadge: Option<string>,   // the category badge and its text
    lowStockBadge: Option<int>,      // "Only N left!" and its N
    outOfStockOverlay: bool,         // the "Out of Stock" overlay
    addDisabled: bool,               // the add button is disabled
    showsImage: bool,                // the product image instead of the placeholder
    showsDescription: bool)

  /** The card for `p`. A null stock counts as neither low nor out of stock. */
  function Render(p: Product): (v: CardView)
    ensures v.categoryBadge.Some? <==> Truthy(p.category)
    ensures v.categoryBadge.Some? ==> v.categoryBadge == p.category
    ensures v.lowStockBadge.Some? <==> p.stockQuantity.Some? && 1 <= p.stockQuantity.value <= 5
    ensures v.lowStockBadge.Some? ==> v.lowStockBadge == p.stockQuantity
    ensures v.outOfStockOverlay <==> p.stockQuantity == Some(0)
    ensures v.addDisabled <==> p.stockQuantity == Some(0)
    ensures v.showsImage <==> Truthy(p.imageUrl)
    ensures v.showsDescription <==> Truthy(p.description)
  {
    var stock := p.stockQuantity;
    CardView(
      if Truthy(p.category) then p.category else None,
      if stock.Some? && stock.value <= 5 && stock.value > 0 then stock else None,
      stock == Some(0),
      stock == Some(0),
      Truthy(p.imageUrl),
      Truthy(p.description))
  }

  /** The low-stock badge and the out-of-stock overlay never show together, and the add button is
      disabled exactly when the overlay shows; a null or negative stock leaves the button enabled. */
  lemma StockSignalsConsistent(p: Product)
    ensures !(Render(p).lowStockBadge.Some? && Render(p).outOfStockOverlay)
    ensures Render(p).addDisabled == Render(p).outOfStockOverlay
    ensures p.stockQuantity == None || p.stockQuantity.value < 0 ==> !Render(p).addDisabled && Render(p).lowStockBadge == None
  {
  }

  /** A call the card makes on the cart store. */
  datatype CartCall = AddItem(product: Product)

  /** `handleAddToCart`: one `addItem` call with the whole product record, and a notice naming it. */
  function HandleAddToCart(p: Product): (r: (seq<CartCall>, string))
    ensures |r.0| == 1 && r.0[0].product == p
    ensures r.1 == p.name + " added to cart!"
  {
    ([AddItem(p)], p.name + " added to cart!")
  }

  /** A click on the add button: a disabled button ignores it, otherwise `handleAddToCart` runs. */
  function ClickAdd(p: Product): (calls: seq<CartCall>)
    ensures |calls| <= 1
    ensures calls == [] <==> p.stockQuantity == Some(0)
    ensures forall c :: c in calls ==> c == AddItem(p)
  {
    if Render(p).addDisabled then [] else HandleAddToCart(p).0
  }
}
