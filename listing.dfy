/** The order listing of `get_orders_df`: orders inner-joined with their client and
    service, sorted by date, latest first. */
module Listing {
  import opened Wrappers
  import opened Records
  import opened Text
  import Tables

  /** One listed order: `o.id, c.name, s.title, o.date, o.discount_applied, o.final_price,
      o.is_completed`. */
  datatype OrderRow = OrderRow(
    id: int,
    clientName: string,
    serviceTitle: string,
    date: string,
    discount: real,
    finalPrice: real,
    isCompleted: int)

  /** The joined row of order `o`, or `None` when its client or its service is missing (the
      store does not enforce foreign keys, so either may have been deleted). */
  function JoinOf(o: Order, clients: seq<Client>, services: seq<Service>): (r: Option<OrderRow>)
    ensures r.Some? <==> Tables.FindByKey(clients, ClientId, o.clientId).Some?
                         && Tables.FindByKey(services, ServiceId, o.serviceId).Some?
    ensures r.Some? ==>
      r.value.id == o.id && r.value.date == o.date && r.value.discount == o.discount
      && r.value.finalPrice == o.finalPrice && r.value.isCompleted == o.isCompleted
    ensures r.Some? ==>
      r.value.clientName == Tables.FindByKey(clients, ClientId, o.clientId).value.name
      && r.value.serviceTitle == Tables.FindByKey(services, ServiceId, o.serviceId).value.title
  {
    match (Tables.FindByKey(clients, ClientId, o.clientId), Tables.FindByKey(services, ServiceId, o.serviceId))
    case (Some(c), Some(s)) =>
      Some(OrderRow(o.id, c.name, s.title, o.date, o.discount, o.finalPrice, o.isCompleted))
    case _ => None
  }

  /** `FROM orders o JOIN clients c ON o.client_id = c.id JOIN services s ON o.service_id = s.id`,
      in table order. */
  function Joined(orders: seq<Order>, clients: seq<Client>, services: seq<Service>): seq<OrderRow> {
    if orders == [] then []
    else
      var rest := Joined(orders[1..], clients, services);
      match JoinOf(orders[0], clients, services)
      case Some(r) => [r] + rest
      case None => rest
  }

  /** The join lists exactly the orders whose client and service exist, each as its joined row. */
  lemma {:induction false} JoinedMembers(orders: seq<Order>, clients: seq<Client>, services: seq<Service>)
    ensures forall r :: r in Joined(orders, clients, services) <==>
      exists i :: 0 <= i < |orders| && JoinOf(orders[i], clients, services) == Some(r)
  {
    if orders != [] {
      JoinedMembers(orders[1..], clients, services);
      forall r | (exists i :: 0 <= i < |orders| && JoinOf(orders[i], clients, services) == Some(r))
        ensures r in Joined(orders, clients, services)
      {
        var i :| 0 <= i < |orders| && JoinOf(orders[i], clients, services) == Some(r);
        if i > 0 { assert orders[1..][i - 1] == orders[i]; }
      }
      forall r | r in Joined(orders[1..], clients, services)
        ensures exists i :: 0 <= i < |orders| && JoinOf(orders[i], clients, services) == Some(r)
      {
        var i :| 0 <= i < |orders[1..]| && JoinOf(orders[1..][i], clients, services) == Some(r);
        assert orders[1..][i] == orders[i + 1];
      }
    }
  }

  /** Latest first: `ORDER BY date DESC` under SQLite's text ordering. */
  predicate DateDesc(rows: seq<OrderRow>) {
    forall i, j :: 0 <= i < j < |rows| ==> LexLe(rows[j].date, rows[i].date)
  }

  /** Places `x` before the first row dated no later than it. */
  function Insert(x: OrderRow, sorted: seq<OrderRow>): (r: seq<OrderRow>)
    ensures multiset(r) == multiset(sorted) + multiset{x}
  {
    if sorted == [] then [x]
    else if LexLe(sorted[0].date, x.date) then [x] + sorted
    else
      assert sorted == [sorted[0]] + sorted[1..];
      [sorted[0]] + Insert(x, sorted[1..])
  }

  lemma {:induction false} InsertSorted(x: OrderRow, sorted: seq<OrderRow>)
    requires DateDesc(sorted)
    ensures DateDesc(Insert(x, sorted))
  {
    if sorted == [] {
    } else if LexLe(sorted[0].date, x.date) {
      forall j | 0 < j < |sorted| + 1 ensures LexLe(([x] + sorted)[j].date, x.date) {
        if j > 1 { LexLeTrans(sorted[j - 1].date, sorted[0].date, x.date); }
      }
    } else {
      var rest := Insert(x, sorted[1..]);
      InsertSorted(x, sorted[1..]);
      forall j | 0 <= j < |rest| ensures LexLe(rest[j].date, sorted[0].date) {
        assert rest[j] in multiset(rest);
        if rest[j] == x {
          LexLeTotal(sorted[0].date, x.date);
        } else {
          assert rest[j] in multiset(sorted[1..]);
          var m :| 0 <= m < |sorted[1..]| && sorted[1..][m] == rest[j];
          assert sorted[m + 1] == rest[j];
        }
      }
    }
  }

  /** The rows sorted latest first; rows with equal dates come in no promised order. */
  function SortByDateDesc(rows: seq<OrderRow>): (r: seq<OrderRow>)
    ensures multiset(r) == multiset(rows)
    ensures DateDesc(r)
  {
    if rows == [] then []
    else
      assert rows == [rows[0]] + rows[1..];
      InsertSorted(rows[0], SortByDateDesc(rows[1..]));
      Insert(rows[0], SortByDateDesc(rows[1..]))
  }
}
