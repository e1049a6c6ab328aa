/** The rules `add_order` and `mark_order_completed` apply: the repeat-client discount, the
    final price frozen into the order, the repeat flag set on the client, and completion. */
module Orders {
  import opened Wrappers
  import opened Records
  import opened Numbers
  import Tables

  /** `float(price_str)`, with 0.0 when `float` raises. */
  function PriceValue(text: string): real {
    ParseDecimal(text).GetOr(0.0)
  }

  /** The discount percentage and final price of an order. */
  datatype Quote = Quote(discount: real, finalPrice: real)

  /** What `add_order` stores for a service priced `priceText`, given the client row read
      before the order: 10% off exactly when that row's repeat flag is 1. */
  function QuoteFor(priceText: string, snapshot: Client): (q: Quote)
    ensures q.discount == 10.0 <==> snapshot.isRepeat == 1
    ensures q.discount == 0.0 <==> snapshot.isRepeat != 1
    ensures ParseDecimal(priceText).None? ==> q.finalPrice == 0.0
  {
    var price := PriceValue(priceText);
    var discount := if snapshot.isRepeat == 1 then 10.0 else 0.0;
    Quote(discount, price * (1.0 - discount / 100.0))
  }

  /** The final price is the parsed price, less 10% for a repeat client. */
  lemma QuoteFinalPrice(priceText: string, snapshot: Client)
    ensures QuoteFor(priceText, snapshot).finalPrice
      == if snapshot.isRepeat == 1 then PriceValue(priceText) * 9.0 / 10.0 else PriceValue(priceText)
  {
    var price := PriceValue(priceText);
    if snapshot.isRepeat == 1 {
      assert QuoteFor(priceText, snapshot).finalPrice == price * (1.0 - 10.0 / 100.0);
    } else {
      assert QuoteFor(priceText, snapshot).finalPrice == price * (1.0 - 0.0 / 100.0);
    }
  }

  /** A price text that does not parse yields a free order rather than an error. */
  lemma UnparsedPriceIsFree(priceText: string, i: nat, snapshot: Client)
    requires i < |priceText| && !IsNumeralChar(priceText[i])
    ensures QuoteFor(priceText, snapshot).finalPrice == 0.0
  {
    NonNumeralRejected(priceText, i);
  }

  /** For a price that is not negative the final price lies between 90% of it and all of it. */
  lemma QuoteBounds(priceText: string, snapshot: Client)
    requires PriceValue(priceText) >= 0.0
    ensures var q := QuoteFor(priceText, snapshot);
      PriceValue(priceText) * 9.0 / 10.0 <= q.finalPrice <= PriceValue(priceText)
  {
  }

  /** A whole price `n` written as text: the order costs `n`, or 9/10 of `n` for a repeat client. */
  lemma QuoteWholePrice(n: nat, snapshot: Client)
    ensures QuoteFor(NatText(n), snapshot).finalPrice
      == if snapshot.isRepeat == 1 then n as real * 9.0 / 10.0 else n as real
  {
    ParseNatText(n);
  }

  /** The `clients` table after `UPDATE clients SET is_repeat_client = 1 WHERE id = ?`. */
  function SetRepeat(clients: seq<Client>, id: int): seq<Client> {
    Tables.Updated(clients, ClientId, id, MarkRepeat)
  }

  /** The `orders` table after `UPDATE orders SET is_completed = 1 WHERE id = ?`. */
  function SetCompleted(orders: seq<Order>, id: int): seq<Order> {
    Tables.Updated(orders, OrderId, id, MarkCompleted)
  }

  /** Setting the repeat flag touches only the row with that id, sets its flag to 1 and
      nothing else in it or in any other row, and never clears a flag. */
  lemma SetRepeatEffect(clients: seq<Client>, id: int)
    ensures |SetRepeat(clients, id)| == |clients|
    ensures forall i :: 0 <= i < |clients| ==>
      SetRepeat(clients, id)[i] == if clients[i].id == id then clients[i].(isRepeat := 1) else clients[i]
    ensures forall i :: 0 <= i < |clients| && clients[i].isRepeat == 1 ==> SetRepeat(clients, id)[i].isRepeat == 1
  {
    forall i | 0 <= i < |clients|
      ensures SetRepeat(clients, id)[i] == if clients[i].id == id then clients[i].(isRepeat := 1) else clients[i]
    {
      assert ClientId(clients[i]) == clients[i].id;
      assert MarkRepeat(clients[i]) == clients[i].(isRepeat := 1);
    }
  }

  /** Completing touches only the order with that id and only its completion flag. */
  lemma SetCompletedEffect(orders: seq<Order>, id: int)
    ensures |SetCompleted(orders, id)| == |orders|
    ensures forall i :: 0 <= i < |orders| ==>
      SetCompleted(orders, id)[i] == if orders[i].id == id then orders[i].(isCompleted := 1) else orders[i]
  {
    forall i | 0 <= i < |orders|
      ensures SetCompleted(orders, id)[i] == if orders[i].id == id then orders[i].(isCompleted := 1) else orders[i]
    {
      assert OrderId(orders[i]) == orders[i].id;
      assert MarkCompleted(orders[i]) == orders[i].(isCompleted := 1);
    }
  }

  /** Completing an order twice is completing it once. */
  lemma SetCompletedIdempotent(orders: seq<Order>, id: int)
    ensures SetCompleted(SetCompleted(orders, id), id) == SetCompleted(orders, id)
  {
    Tables.UpdatedIdempotent(orders, OrderId, id, MarkCompleted);
  }

  /** Completing an id no order has changes nothing. */
  lemma SetCompletedUnknown(orders: seq<Order>, id: int)
    requires forall i :: 0 <= i < |orders| ==> orders[i].id != id
    ensures SetCompleted(orders, id) == orders
  {
    Tables.UpdatedUnknown(orders, OrderId, id, MarkCompleted);
  }
}
