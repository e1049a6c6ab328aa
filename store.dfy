/** The store: the four tables of the SQLite database, each held as its rows in insertion
    order together with the AUTOINCREMENT counter that numbers them. Every repository
    function of the program is a method here; a `SELECT`, `UPDATE` or `DELETE` by id is
    one of the loops of `Tables`. */
module Store {
  import opened Wrappers
  import opened Records
  import opened Text
  import Tables
  import Catalog
  import Orders
  import Ads
  import Listing

  /** The table names `delete_record` accepts. */
  const AllowedTables: set<string> := {"clients", "services", "orders", "ad_stats"}

  /** `get_client_by_order_id`: the client row of the order with id `orderId`, if both exist. */
  function ClientOfOrder(orders: seq<Order>, clients: seq<Client>, orderId: int): (r: Option<Client>)
    ensures r.Some? ==>
      r.value in clients
      && exists i :: 0 <= i < |orders| && orders[i].id == orderId && orders[i].clientId == r.value.id
  {
    match Tables.FindByKey(orders, OrderId, orderId)
    case Some(o) => Tables.FindByKey(clients, ClientId, o.clientId)
    case None => None
  }

  /** The guard of the completion handler: only a client acquired through advertising on a
      named channel has the order's price credited to that channel. */
  predicate Attributable(client: Option<Client>) {
    client.Some? && client.value.source == Advertising && client.value.adChannel != Unspecified
  }

  /** Completing an order leaves the order's client as it was. */
  lemma ClientOfCompletedOrder(orders: seq<Order>, clients: seq<Client>, completed: int, orderId: int)
    ensures ClientOfOrder(Orders.SetCompleted(orders, completed), clients, orderId)
      == ClientOfOrder(orders, clients, orderId)
  {
    Tables.FindUpdated(orders, OrderId, orderId, completed, MarkCompleted);
  }

  class Database {
    var clients: seq<Client>
    var services: seq<Service>
    var orders: seq<Order>
    var adStats: seq<AdStat>
    var nextClientId: int
    var nextServiceId: int
    var nextOrderId: int
    var nextAdStatId: int

    /** Every table's ids are handed out by its counter: unique, ascending in insertion order. */
    ghost predicate Valid()
      reads this
    {
      Tables.KeysValid(clients, ClientId, nextClientId)
      && Tables.KeysValid(services, ServiceId, nextServiceId)
      && Tables.KeysValid(orders, OrderId, nextOrderId)
      && Tables.KeysValid(adStats, AdStatId, nextAdStatId)
    }

    /** `init_db()` on a fresh database file: four empty tables whose ids start at 1. */
    constructor ()
      ensures Valid()
      ensures clients == [] && services == [] && orders == [] && adStats == []
      ensures nextClientId == 1 && nextServiceId == 1 && nextOrderId == 1 && nextAdStatId == 1
    {
      clients, services, orders, adStats := [], [], [], [];
      nextClientId, nextServiceId, nextOrderId, nextAdStatId := 1, 1, 1, 1;
    }

    /** `add_client`: one row appended under the next id, not yet a repeat client. */
    method AddClient(name: string, email: string, category: Option<string>, region: Option<string>,
                     source: string, isReferral: int, adChannel: string)
      requires Valid()
      modifies this`clients, this`nextClientId
      ensures Valid()
      ensures clients
        == old(clients) + [Client(old(nextClientId), name, email, category, region, 0, source, isReferral, adChannel)]
      ensures nextClientId == old(nextClientId) + 1
    {
      var row := Client(nextClientId, name, email, category, region, 0, source, isReferral, adChannel);
      Tables.KeysAppend(clients, ClientId, nextClientId, row);
      clients := clients + [row];
      nextClientId := nextClientId + 1;
    }

    /** `get_clients`: every client, in insertion order. */
    method GetClients() returns (rows: seq<Client>)
      requires Valid()
      ensures rows == clients
      ensures forall i, j :: 0 <= i < j < |rows| ==> rows[i].id < rows[j].id
    {
      rows := clients;
    }

    /** `add_service`: one row appended under the next id; the price text is not checked. */
    method AddService(title: string, price: string)
      requires Valid()
      modifies this`services, this`nextServiceId
      ensures Valid()
      ensures services == old(services) + [Service(old(nextServiceId), title, price)]
      ensures nextServiceId == old(nextServiceId) + 1
    {
      Tables.KeysAppend(services, ServiceId, nextServiceId, Service(nextServiceId, title, price));
      services := services + [Service(nextServiceId, title, price)];
      nextServiceId := nextServiceId + 1;
    }

    /** `get_services`: every service, in insertion order. */
    method GetServices() returns (rows: seq<Service>)
      requires Valid()
      ensures rows == services
      ensures forall i, j :: 0 <= i < j < |rows| ==> rows[i].id < rows[j].id
    {
      rows := services;
    }

    /** `load_default_services`: when the catalogue is empty, the 13 defaults are added one
        by one in list order; otherwise nothing changes. */
    method LoadDefaultServices()
      requires Valid()
      modifies this`services, this`nextServiceId
      ensures Valid()
      ensures services == Catalog.SeedDefaults(old(services), old(nextServiceId))
      ensures nextServiceId
        == old(nextServiceId) + if old(services) == [] then |Catalog.DefaultServices| else 0
    {
      var existing := GetServices();
      if |existing| == 0 {
        var defaults := Catalog.DefaultServices;
        var i := 0;
        while i < |defaults|
          invariant 0 <= i <= |defaults| && Valid()
          invariant services == Catalog.Seeded(defaults[..i], old(nextServiceId))
          invariant nextServiceId == old(nextServiceId) + i
        {
          var (title, price) := defaults[i];
          assert defaults[..i + 1] == defaults[..i] + [(title, price)];
          Catalog.SeededAppend(defaults[..i], old(nextServiceId), title, price);
          AddService(title, price);
          i := i + 1;
        }
        assert defaults[..i] == defaults;
      }
    }

    /** `delete_record`: a table name outside the allow-list is refused and nothing changes;
        otherwise the rows of that table with id `recordId` are removed. Counters are kept,
        so an id is never handed out twice. */
    method DeleteRecord(tableName: string, recordId: int) returns (accepted: bool)
      requires Valid()
      modifies this`clients, this`services, this`orders, this`adStats
      ensures Valid()
      ensures accepted <==> tableName in AllowedTables
      ensures clients
        == if tableName == "clients" then Tables.Without(old(clients), ClientId, recordId) else old(clients)
      ensures services
        == if tableName == "services" then Tables.Without(old(services), ServiceId, recordId) else old(services)
      ensures orders
        == if tableName == "orders" then Tables.Without(old(orders), OrderId, recordId) else old(orders)
      ensures adStats
        == if tableName == "ad_stats" then Tables.Without(old(adStats), AdStatId, recordId) else old(adStats)
    {
      accepted := tableName in AllowedTables;
      if !accepted {
        return;
      }
      if tableName == "clients" {
        Tables.WithoutKeysValid(clients, ClientId, nextClientId, recordId);
        clients := Tables.DeleteWhere(clients, ClientId, recordId);
      } else if tableName == "services" {
        Tables.WithoutKeysValid(services, ServiceId, nextServiceId, recordId);
        services := Tables.DeleteWhere(services, ServiceId, recordId);
      } else if tableName == "orders" {
        Tables.WithoutKeysValid(orders, OrderId, nextOrderId, recordId);
        orders := Tables.DeleteWhere(orders, OrderId, recordId);
      } else {
        Tables.WithoutKeysValid(adStats, AdStatId, nextAdStatId, recordId);
        adStats := Tables.DeleteWhere(adStats, AdStatId, recordId);
      }
    }

    /** `add_order(client_id, service_id, client)`: the service's price text is looked up and
        parsed (0 if it does not parse), the discount is decided by the snapshot `client`
        read before the order, one order is appended under the next id dated `today` and
        not completed, and then the client with id `clientId` is flagged as a repeat client. */
    method AddOrder(clientId: int, serviceId: int, client: Client, today: string)
      requires Valid()
      requires Tables.FindByKey(services, ServiceId, serviceId).Some?
      modifies this`orders, this`nextOrderId, this`clients
      ensures Valid()
      ensures var quote := Orders.QuoteFor(Tables.FindByKey(services, ServiceId, serviceId).value.price, client);
        orders == old(orders)
          + [Order(old(nextOrderId), clientId, serviceId, today, quote.discount, quote.finalPrice, 0)]
      ensures nextOrderId == old(nextOrderId) + 1
      ensures clients == Orders.SetRepeat(old(clients), clientId)
    {
      var service := Tables.Lookup(services, ServiceId, serviceId);
      var priceText := service.value.price;
      var quote := Orders.QuoteFor(priceText, client);
      var order := Order(nextOrderId, clientId, serviceId, today, quote.discount, quote.finalPrice, 0);
      Tables.KeysAppend(orders, OrderId, nextOrderId, order);
      Tables.UpdatedKeysValid(clients, ClientId, nextClientId, clientId, MarkRepeat);
      var repeated := Tables.UpdateWhere(clients, ClientId, clientId, MarkRepeat);
      orders, nextOrderId, clients := orders + [order], nextOrderId + 1, repeated;
    }

    /** `get_orders_df` without the DataFrame: the joined orders, latest first. */
    method GetOrders() returns (rows: seq<Listing.OrderRow>)
      requires Valid()
      ensures multiset(rows) == multiset(Listing.Joined(orders, clients, services))
      ensures Listing.DateDesc(rows)
    {
      rows := Listing.SortByDateDesc(Listing.Joined(orders, clients, services));
    }

    /** `mark_order_completed`: the order with that id, if any, is flagged completed. */
    method MarkOrderCompleted(orderId: int)
      requires Valid()
      modifies this`orders
      ensures Valid()
      ensures orders == Orders.SetCompleted(old(orders), orderId)
    {
      Tables.UpdatedKeysValid(orders, OrderId, nextOrderId, orderId, MarkCompleted);
      orders := Tables.UpdateWhere(orders, OrderId, orderId, MarkCompleted);
    }

    /** `get_client_by_order_id`: the client of the order, or `None` when the order or its
        client does not exist. */
    method GetClientByOrderId(orderId: int) returns (client: Option<Client>)
      requires Valid()
      ensures client == ClientOfOrder(orders, clients, orderId)
      ensures client.None? <==>
        Tables.FindByKey(orders, OrderId, orderId).None?
        || Tables.FindByKey(clients, ClientId, Tables.FindByKey(orders, OrderId, orderId).value.clientId).None?
    {
      var order := Tables.Lookup(orders, OrderId, orderId);
      if order.Some? {
        client := Tables.Lookup(clients, ClientId, order.value.clientId);
      } else {
        client := None;
      }
    }

    /** `add_ad_stat`: one campaign row appended under the next id, as given. */
    method AddAdStat(channel: string, spend: real, revenue: Option<real>, date: string)
      requires Valid()
      modifies this`adStats, this`nextAdStatId
      ensures Valid()
      ensures adStats == old(adStats) + [AdStat(old(nextAdStatId), channel, spend, revenue, date)]
      ensures nextAdStatId == old(nextAdStatId) + 1
    {
      Tables.KeysAppend(adStats, AdStatId, nextAdStatId, AdStat(nextAdStatId, channel, spend, revenue, date));
      adStats := adStats + [AdStat(nextAdStatId, channel, spend, revenue, date)];
      nextAdStatId := nextAdStatId + 1;
    }

    /** `increase_ad_revenue(channel, amount)`: the upsert that `Ads.Credited` describes. */
    method IncreaseAdRevenue(channel: string, amount: real, today: string)
      requires Valid()
      modifies this`adStats, this`nextAdStatId
      ensures Valid()
      ensures Ads.Credited(old(adStats), old(nextAdStatId), adStats, nextAdStatId, channel, amount, today)
    {
      var found, best := Ads.FindLatest(adStats, channel);
      if found {
        var row := adStats[best];
        var newRevenue := row.revenue.GetOr(0.0) + amount;
        Tables.UpdatedAt(adStats, AdStatId, nextAdStatId, best, SetRevenue(newRevenue));
        Tables.UpdatedKeysValid(adStats, AdStatId, nextAdStatId, row.id, SetRevenue(newRevenue));
        adStats := Tables.UpdateWhere(adStats, AdStatId, row.id, SetRevenue(newRevenue));
        assert adStats == old(adStats)[best := Ads.Credit(row, amount)];
      } else {
        Tables.KeysAppend(adStats, AdStatId, nextAdStatId, AdStat(nextAdStatId, channel, 0.0, Some(amount), today));
        adStats := adStats + [AdStat(nextAdStatId, channel, 0.0, Some(amount), today)];
        nextAdStatId := nextAdStatId + 1;
      }
    }

    /** `get_ad_channels`: each channel that occurs in the campaigns, once. */
    method GetAdChannels() returns (channels: seq<string>)
      ensures forall i, j :: 0 <= i < j < |channels| ==> channels[i] != channels[j]
      ensures forall ch :: ch in channels <==> ch in Ads.Channels(adStats)
    {
      channels := [];
      var i := 0;
      while i < |adStats|
        invariant 0 <= i <= |adStats|
        invariant forall a, b :: 0 <= a < b < |channels| ==> channels[a] != channels[b]
        invariant forall ch :: ch in channels <==> exists j :: 0 <= j < i && adStats[j].channel == ch
      {
        if adStats[i].channel !in channels {
          channels := channels + [adStats[i].channel];
        }
        i := i + 1;
      }
    }

    /** The "mark completed" button of the orders tab, shown for a listed order not yet
        completed: the order is flagged completed, its client is looked up, and when that
        client came through advertising on a named channel the order's final price is
        credited to that channel's latest campaign; otherwise the campaigns are untouched. */
    method CompleteOrder(row: Listing.OrderRow, today: string)
      requires Valid()
      requires row in Listing.Joined(orders, clients, services) && row.isCompleted == 0
      modifies this`orders, this`adStats, this`nextAdStatId
      ensures Valid()
      ensures orders == Orders.SetCompleted(old(orders), row.id)
      ensures var client := ClientOfOrder(old(orders), clients, row.id);
        if Attributable(client) then
          Ads.Credited(old(adStats), old(nextAdStatId), adStats, nextAdStatId,
                       client.value.adChannel, row.finalPrice, today)
        else
          adStats == old(adStats) && nextAdStatId == old(nextAdStatId)
    {
      ghost var owner := ClientOfOrder(orders, clients, row.id);
      ClientOfCompletedOrder(orders, clients, row.id, row.id);
      MarkOrderCompleted(row.id);
      var client := GetClientByOrderId(row.id);
      assert client == owner;
      if client.Some? && client.value.source == Advertising && client.value.adChannel != Unspecified {
        IncreaseAdRevenue(client.value.adChannel, row.finalPrice, today);
      }
    }
  }
}
