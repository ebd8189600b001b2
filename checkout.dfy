/** The checkout of `src/pages/Checkout.tsx`: the form schema, the rows written for a new order, and
    the submission sequence (empty-cart guard, order insert, items insert, then clearing the cart). */
module Checkout {
  import opened Nullable
  import opened Seqs
  import opened Text
  import opened Tables

  /** The checkout form. */
  datatype CheckoutForm = CheckoutForm(name: string, email: string, phone: string, address: string)

  datatype Field = Name | Email | Phone | Address

  /** `checkoutSchema`: the fields it rejects. Lengths are JavaScript lengths (UTF-16 code units);
      `emailWellFormed` is the verdict of the schema's e-mail pattern, which is outside this model. */
  function FieldErrors(f: CheckoutForm, emailWellFormed: bool): (errors: set<Field>)
    ensures Name !in errors <==> 2 <= Utf16Length(f.name) <= 100
    ensures Email !in errors <==> emailWellFormed && Utf16Length(f.email) <= 255
    ensures Phone !in errors <==> 10 <= Utf16Length(f.phone) <= 15
    ensures Address !in errors <==> 10 <= Utf16Length(f.address) <= 500
  {
    var name, email, phone, address := Utf16Length(f.name), Utf16Length(f.email), Utf16Length(f.phone), Utf16Length(f.address);
    (if 2 <= name <= 100 then {} else {Name})
    + (if emailWellFormed && email <= 255 then {} else {Email})
    + (if 10 <= phone <= 15 then {} else {Phone})
    + (if 10 <= address <= 500 then {} else {Address})
  }

  /** A name made of one emoji passes the two-character minimum, and one of 60 emoji fails the
      100-character maximum, because each emoji is two UTF-16 code units. */
  lemma EmojiCountTwice(f: CheckoutForm, emailWellFormed: bool)
    ensures Name !in FieldErrors(f.(name := "😀"), emailWellFormed)
    ensures Name in FieldErrors(f.(name := seq(60, i => '😀')), emailWellFormed)
  {
    var many := seq(60, i => '😀');
    assert forall i :: 0 <= i < |many| ==> many[i] as int >= 0x1_0000;
  }

  /** The phone rule counts characters, not digits: ten letters pass it and a nine-digit number does not. */
  lemma PhoneCountsCharacters(f: CheckoutForm, emailWellFormed: bool)
    ensures Phone !in FieldErrors(f.(phone := "abcdefghij"), emailWellFormed)
    ensures Phone in FieldErrors(f.(phone := "987654321"), emailWellFormed)
  {
    var letters, digits := "abcdefghij", "987654321";
    assert forall i :: 0 <= i < |letters| ==> letters[i] as int < 0x1_0000;
    assert forall i :: 0 <= i < |digits| ==> digits[i] as int < 0x1_0000;
  }

  /** The row inserted into `orders`. */
  datatype OrderRow = OrderRow(
    userId: Option<string>,
    customerName: string,
    customerEmail: string,
    customerPhone: string,
    customerAddress: string,
    totalAmount: int,
    status: string)

  /** `user?.id || null`: the signed-in user's id, or null. */
  function UserIdOf(user: Option<string>): (r: Option<string>)
    ensures r == None <==> user == None || user == Some("")
    ensures r.Some? ==> r == user
  {
    match user
    case None => None
    case Some(id) => NullIfEmpty(id)
  }

  function NewOrderRow(user: Option<string>, f: CheckoutForm, totalPrice: int): OrderRow {
    OrderRow(UserIdOf(user), f.name, f.email, f.phone, f.address, totalPrice, "pending")
  }

  /** A new order is "pending", carries the form's contact fields and the cart total, and has a null
      `user_id` when nobody is signed in. */
  lemma NewOrderRowSpec(user: Option<string>, f: CheckoutForm, totalPrice: int)
    ensures NewOrderRow(user, f, totalPrice).status == "pending"
    ensures NewOrderRow(user, f, totalPrice).totalAmount == totalPrice
    ensures user == None ==> NewOrderRow(user, f, totalPrice).userId == None
    ensures user.Some? && user.value != "" ==> NewOrderRow(user, f, totalPrice).userId == user
    ensures NewOrderRow(user, f, totalPrice).customerName == f.name && NewOrderRow(user, f, totalPrice).customerEmail == f.email
    ensures NewOrderRow(user, f, totalPrice).customerPhone == f.phone && NewOrderRow(user, f, totalPrice).customerAddress == f.address
  {
  }

  /** `items.map(...)`: one `order_items` row per cart line, in cart order. */
  function ItemRows(orderId: string, lines: seq<CartLine>): (rows: seq<OrderItem>)
    ensures |rows| == |lines|
    ensures forall i :: 0 <= i < |lines| ==>
      && rows[i].orderId == orderId
      && rows[i].productId == lines[i].product.id
      && rows[i].productName == lines[i].product.name
      && rows[i].quantity == lines[i].quantity
      && rows[i].unitPrice == lines[i].product.price
      && rows[i].totalPrice == rows[i].unitPrice * rows[i].quantity
    decreases |lines|
  {
    if lines == [] then []
    else
      var l := lines[|lines| - 1];
      ItemRows(orderId, lines[..|lines| - 1])
        + [OrderItem(orderId, l.product.id, l.product.name, l.quantity, l.product.price, l.product.price * l.quantity)]
  }

  /** `Number(item.product.price) * item.quantity`, a cart line's share of the total. */
  function LineTotal(l: CartLine): int {
    l.product.price * l.quantity
  }

  function ItemTotal(row: OrderItem): int {
    row.totalPrice
  }

  /** The item rows add up to the sum of price times quantity over the cart lines. */
  lemma {:induction false} ItemRowsTotal(orderId: string, lines: seq<CartLine>)
    ensures Sum(ItemRows(orderId, lines), ItemTotal) == Sum(lines, LineTotal)
    decreases |lines|
  {
    if lines != [] {
      var rows := ItemRows(orderId, lines);
      ItemRowsTotal(orderId, lines[..|lines| - 1]);
      assert rows[..|rows| - 1] == ItemRows(orderId, lines[..|lines| - 1]);
    }
  }

  /** The backend's answer to the order insert: the new order's id, or an error message. */
  datatype Response = Created(id: string) | Rejected(message: string)

  /** A write `onSubmit` sends to the backend. */
  datatype Request = InsertOrder(order: OrderRow) | InsertItems(items: seq<OrderItem>)

  /** How a submission ended, with the notice it showed. */
  datatype Outcome =
    | InvalidForm(errors: set<Field>)   // the schema rejected the form; `onSubmit` does not run
    | EmptyCart                         // "Your cart is empty"
    | Failed(notice: string)            // an insert failed
    | Placed(orderId: string)           // both inserts succeeded; the page moves to the success page

  /** The checkout page: the cart lines it was given, and its submitting flag. */
  class CheckoutPage {
    var items: seq<CartLine>
    var isSubmitting: bool

    constructor (items: seq<CartLine>)
      ensures this.items == items && !isSubmitting
    {
      this.items := items;
      isSubmitting := false;
    }

    /** Submitting the form. `orderInsert` and `itemsError` are the backend's answers to the two inserts;
        `totalPrice` is the cart store's `totalPrice()`. The cart is cleared only after both inserts
        succeed; a failure of either leaves it as it was (an order row already inserted stays). */
    method Submit(f: CheckoutForm, emailWellFormed: bool, user: Option<string>, totalPrice: int,
                  orderInsert: Response, itemsError: Option<string>)
      returns (outcome: Outcome, sent: seq<Request>)
      requires !isSubmitting   // the Place Order button is disabled while a submission runs
      modifies this
      ensures !isSubmitting
      ensures FieldErrors(f, emailWellFormed) != {} ==> outcome == InvalidForm(FieldErrors(f, emailWellFormed)) && sent == []
      ensures FieldErrors(f, emailWellFormed) == {} && old(items) == [] ==> outcome == EmptyCart && sent == []
      ensures FieldErrors(f, emailWellFormed) == {} && old(items) != [] ==>
        |sent| >= 1 && sent[0] == InsertOrder(NewOrderRow(user, f, totalPrice))
      ensures |sent| <= 2
      ensures |sent| == 2 <==> FieldErrors(f, emailWellFormed) == {} && old(items) != [] && orderInsert.Created?
      ensures |sent| == 2 ==> sent[1] == InsertItems(ItemRows(orderInsert.id, old(items)))
      ensures outcome.Placed? <==>
        FieldErrors(f, emailWellFormed) == {} && old(items) != [] && orderInsert.Created? && itemsError == None
      ensures outcome.Placed? ==> outcome.orderId == orderInsert.id && items == []
      ensures !outcome.Placed? ==> items == old(items)
      ensures FieldErrors(f, emailWellFormed) == {} && old(items) != [] && orderInsert.Rejected? ==>
        outcome == Failed(MessageOr(orderInsert.message, "Failed to place order"))
      ensures FieldErrors(f, emailWellFormed) == {} && old(items) != [] && orderInsert.Created? && itemsError.Some? ==>
        outcome == Failed(MessageOr(itemsError.value, "Failed to place order"))
    {
      var errors := FieldErrors(f, emailWellFormed);
      if errors != {} {
        return InvalidForm(errors), [];
      }
      if |items| == 0 {
        return EmptyCart, [];
      }
      isSubmitting := true;
      sent := [InsertOrder(NewOrderRow(user, f, totalPrice))];
      match orderInsert {
        case Rejected(message) =>
          outcome := Failed(MessageOr(message, "Failed to place order"));
        case Created(orderId) =>
          sent := sent + [InsertItems(ItemRows(orderId, items))];
          match itemsError {
            case Some(message) =>
              outcome := Failed(MessageOr(message, "Failed to place order"));
            case None =>
              items := [];
              outcome := Placed(orderId);
          }
      }
      isSubmitting := false;
    }
  }
}
