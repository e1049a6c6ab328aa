/** The rules over `ad_stats`: crediting revenue to the latest campaign of a channel
    (`increase_ad_revenue`), the channels listed for the client form, and the
    spend-to-revenue ratio of a campaign. */
module Ads {
  import opened Wrappers
  import opened Records
  import opened Text

  predicate HasChannel(rows: seq<AdStat>, channel: string) {
    exists i :: 0 <= i < |rows| && rows[i].channel == channel
  }

  /** Row `k` is a row of `channel` that `ORDER BY date DESC LIMIT 1` may return: no row of
      that channel has a later date. Which of several equally dated rows SQLite returns
      is not specified. */
  predicate IsLatest(rows: seq<AdStat>, channel: string, k: int) {
    0 <= k < |rows| && rows[k].channel == channel
    && forall j :: 0 <= j < |rows| && rows[j].channel == channel ==> LexLe(rows[j].date, rows[k].date)
  }

  /** `revenue or 0`. */
  function RevenueOrZero(a: AdStat): real {
    a.revenue.GetOr(0.0)
  }

  /** The row `increase_ad_revenue` leaves in place of the latest row `a` of the channel. */
  function Credit(a: AdStat, amount: real): (r: AdStat)
    ensures RevenueOrZero(r) == RevenueOrZero(a) + amount
    ensures r.id == a.id && r.channel == a.channel && r.spend == a.spend && r.date == a.date
  {
    a.(revenue := Some(RevenueOrZero(a) + amount))
  }

  /** The upsert of `increase_ad_revenue(channel, amount)` relating the table and its id
      counter before and after: if the channel has a row, one latest such row is credited
      and nothing else changes; otherwise one row (channel, spend 0, revenue `amount`,
      today) is appended under the next id. */
  ghost predicate Credited(before: seq<AdStat>, next: int, after: seq<AdStat>, next': int,
                           channel: string, amount: real, today: string)
  {
    if HasChannel(before, channel) then
      next' == next
      && exists k :: IsLatest(before, channel, k) && after == before[k := Credit(before[k], amount)]
    else
      next' == next + 1 && after == before + [AdStat(next, channel, 0.0, Some(amount), today)]
  }

  /** A channel's only row is its latest one, so crediting the channel again updates that row. */
  lemma CreditedSingle(row: AdStat, next: int, after: seq<AdStat>, next': int, amount: real, today: string)
    requires Credited([row], next, after, next', row.channel, amount, today)
    ensures next' == next && after == [Credit(row, amount)]
  {
    assert HasChannel([row], row.channel) by { assert [row][0].channel == row.channel; }
    var k :| IsLatest([row], row.channel, k) && after == [row][k := Credit([row][k], amount)];
  }

  /** `SELECT id, revenue FROM ad_stats WHERE channel = ? ORDER BY date DESC LIMIT 1`: the
      first row among the latest ones of the channel, when the channel has any row. */
  method FindLatest(rows: seq<AdStat>, channel: string) returns (found: bool, best: int)
    ensures found <==> HasChannel(rows, channel)
    ensures found ==> IsLatest(rows, channel, best)
  {
    found, best := false, 0;
    var i := 0;
    while i < |rows|
      invariant 0 <= i <= |rows|
      invariant found ==> 0 <= best < i && rows[best].channel == channel
      invariant found ==> forall j :: 0 <= j < i && rows[j].channel == channel ==> LexLe(rows[j].date, rows[best].date)
      invariant !found ==> forall j :: 0 <= j < i ==> rows[j].channel != channel
    {
      if rows[i].channel == channel && (!found || !LexLe(rows[i].date, rows[best].date)) {
        if found {
          LexLeTotal(rows[i].date, rows[best].date);
          forall j | 0 <= j < i && rows[j].channel == channel
            ensures LexLe(rows[j].date, rows[i].date)
          {
            LexLeTrans(rows[j].date, rows[best].date, rows[i].date);
          }
        }
        LexLeRefl(rows[i].date);
        found, best := true, i;
      }
      i := i + 1;
    }
  }

  /** Some row of a channel is always a latest one, so the update branch can always be taken. */
  lemma {:induction false} LatestExists(rows: seq<AdStat>, channel: string)
    requires HasChannel(rows, channel)
    ensures exists k :: IsLatest(rows, channel, k)
  {
    var i :| 0 <= i < |rows| && rows[i].channel == channel;
    if !IsLatest(rows, channel, i) {
      LexLeRefl(rows[i].date);
      var rest := rows[..i] + rows[i + 1..];
      assert HasChannel(rest, channel) by {
        var j :| 0 <= j < |rows| && rows[j].channel == channel && !LexLe(rows[j].date, rows[i].date);
        assert rest[if j < i then j else j - 1] == rows[j];
      }
      LatestExists(rest, channel);
      var k :| IsLatest(rest, channel, k);
      var m := if k < i then k else k + 1;
      assert rows[m] == rest[k];
      forall j | 0 <= j < |rows| && rows[j].channel == channel
        ensures LexLe(rows[j].date, rows[m].date)
      {
        if j == i {
          var w :| 0 <= w < |rows| && rows[w].channel == channel && !LexLe(rows[w].date, rows[i].date);
          assert rest[if w < i then w else w - 1] == rows[w];
          LexLeTotal(rows[w].date, rows[i].date);
          LexLeTrans(rows[i].date, rows[w].date, rows[m].date);
        } else {
          assert rest[if j < i then j else j - 1] == rows[j];
        }
      }
      assert IsLatest(rows, channel, m);
    }
  }

  /** The revenue recorded over all campaigns, a NULL revenue counting as 0. */
  function TotalRevenue(rows: seq<AdStat>): real {
    if rows == [] then 0.0 else TotalRevenue(rows[..|rows| - 1]) + RevenueOrZero(rows[|rows| - 1])
  }

  lemma {:induction false} TotalRevenueAt(rows: seq<AdStat>, k: nat, a: AdStat)
    requires k < |rows|
    ensures TotalRevenue(rows[k := a]) == TotalRevenue(rows) - RevenueOrZero(rows[k]) + RevenueOrZero(a)
  {
    var n := |rows| - 1;
    if k < n {
      assert rows[k := a][..n] == rows[..n][k := a];
      TotalRevenueAt(rows[..n], k, a);
    } else {
      assert rows[k := a][..n] == rows[..n];
    }
  }

  /** Crediting adds exactly `amount` to the revenue recorded over all campaigns, on either
      branch of the upsert, and keeps every recorded channel. */
  lemma CreditedTotal(before: seq<AdStat>, next: int, after: seq<AdStat>, next': int,
                      channel: string, amount: real, today: string)
    requires Credited(before, next, after, next', channel, amount, today)
    ensures TotalRevenue(after) == TotalRevenue(before) + amount
    ensures |after| == |before| + (if HasChannel(before, channel) then 0 else 1)
    ensures HasChannel(after, channel)
  {
    if HasChannel(before, channel) {
      var k :| IsLatest(before, channel, k) && after == before[k := Credit(before[k], amount)];
      TotalRevenueAt(before, k, Credit(before[k], amount));
      assert after[k].channel == channel;
    } else {
      assert after[..|after| - 1] == before;
      assert after[|before|].channel == channel;
    }
  }

  /** The spend-to-revenue ratio shown per campaign; `None` where pandas would show inf or
      NaN because the revenue is 0 or NULL. */
  function Efficiency(a: AdStat): (r: Option<real>)
    ensures r.None? <==> a.revenue.None? || a.revenue.value == 0.0
    ensures r.Some? ==> r.value * a.revenue.value == a.spend
  {
    match a.revenue
    case Some(v) => if v == 0.0 then None else Some(a.spend / v)
    case None => None
  }

  /** The channels that occur in the table: what `SELECT DISTINCT channel` returns, as a set. */
  function Channels(rows: seq<AdStat>): set<string> {
    set i | 0 <= i < |rows| :: rows[i].channel
  }
}
