/** One datatype per table row of the store. Column for column these follow the four
    `CREATE TABLE` statements; a column the code reads as possibly NULL is an `Option`. */
module Records {
  import opened Wrappers

  /** A row of `clients`. `category` and `region` may be NULL; `isRepeat` and `isReferral`
      are SQLite INTEGER flags (0 by default, 1 once set). */
  datatype Client = Client(
    id: int,
    name: string,
    email: string,
    category: Option<string>,
    region: Option<string>,
    isRepeat: int,
    source: string,
    isReferral: int,
    adChannel: string)

  /** A row of `services`; the price is text, so that "по договоренности" can be stored. */
  datatype Service = Service(id: int, title: string, price: string)

  /** A row of `orders`: the discount and final price are fixed when the order is placed. */
  datatype Order = Order(
    id: int,
    clientId: int,
    serviceId: int,
    date: string,
    discount: real,
    finalPrice: real,
    isCompleted: int)

  /** A row of `ad_stats`; `revenue` may be NULL. */
  datatype AdStat = AdStat(id: int, channel: string, spend: real, revenue: Option<real>, date: string)

  /** The default of `source` and `ad_channel`, and the value the client form leaves when no
      advertising channel is chosen. */
  const Unspecified: string := "не указано"

  /** The acquisition source that makes a client's orders count towards an ad channel. */
  const Advertising: string := "Реклама"

  // The primary key of each table, as a function value for the generic table operations.
  function ClientId(c: Client): int { c.id }
  function ServiceId(s: Service): int { s.id }
  function OrderId(o: Order): int { o.id }
  function AdStatId(a: AdStat): int { a.id }

  /** The row after `UPDATE clients SET is_repeat_client = 1`. */
  function MarkRepeat(c: Client): (r: Client)
    ensures r.isRepeat == 1 && r.id == c.id
  {
    c.(isRepeat := 1)
  }

  /** The row after `UPDATE orders SET is_completed = 1`. */
  function MarkCompleted(o: Order): (r: Order)
    ensures r.isCompleted == 1 && r.id == o.id
  {
    o.(isCompleted := 1)
  }

  /** The row after `UPDATE ad_stats SET revenue = v`. */
  function SetRevenue(v: real): AdStat -> AdStat {
    (a: AdStat) => a.(revenue := Some(v))
  }
}
