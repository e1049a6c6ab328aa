/** The counts of the analytics tab: clients per region, repeat clients, and the number of
    clients per acquisition source. */
module Analytics {
  import opened Wrappers
  import opened Records
  import Orders

  /** How many clients satisfy `p` (`len([c for c in clients if p(c)])`). */
  function CountWhere(clients: seq<Client>, p: Client -> bool): (n: nat)
    ensures n <= |clients|
  {
    if clients == [] then 0
    else CountWhere(clients[..|clients| - 1], p) + (if p(clients[|clients| - 1]) then 1 else 0)
  }

  /** Clients whose region column is exactly `region` (no trimming or case folding here). */
  function RegionCount(clients: seq<Client>, region: string): nat {
    CountWhere(clients, (c: Client) => c.region == Some(region))
  }

  function MoscowCount(clients: seq<Client>): nat { RegionCount(clients, "Москва") }

  function RegionsCount(clients: seq<Client>): nat { RegionCount(clients, "Регионы") }

  /** Clients whose repeat flag is 1. */
  function RepeatCount(clients: seq<Client>): nat {
    CountWhere(clients, (c: Client) => c.isRepeat == 1)
  }

  function SourceCount(clients: seq<Client>, source: string): nat {
    CountWhere(clients, (c: Client) => c.source == source)
  }

  function Sources(clients: seq<Client>): set<string> {
    set i | 0 <= i < |clients| :: clients[i].source
  }

  /** `{s: sources.count(s) for s in set(sources)}`. */
  function SourceStats(clients: seq<Client>): map<string, nat> {
    map s | s in Sources(clients) :: SourceCount(clients, s)
  }

  /** Counting two conditions no client meets together counts at most every client once. */
  lemma {:induction false} CountDisjoint(clients: seq<Client>, p: Client -> bool, q: Client -> bool)
    requires forall i :: 0 <= i < |clients| ==> !(p(clients[i]) && q(clients[i]))
    ensures CountWhere(clients, p) + CountWhere(clients, q) <= |clients|
  {
    if clients != [] {
      CountDisjoint(clients[..|clients| - 1], p, q);
    }
  }

  /** The Moscow and regions metrics never exceed the number of clients together. */
  lemma RegionCountsBounded(clients: seq<Client>)
    ensures MoscowCount(clients) + RegionsCount(clients) <= |clients|
  {
    CountDisjoint(clients, (c: Client) => c.region == Some("Москва"), (c: Client) => c.region == Some("Регионы"));
  }

  lemma {:induction false} CountPositive(clients: seq<Client>, p: Client -> bool, k: nat)
    requires k < |clients| && p(clients[k])
    ensures CountWhere(clients, p) >= 1
  {
    if k < |clients| - 1 {
      CountPositive(clients[..|clients| - 1], p, k);
    }
  }

  /** The chart has one bar per source that occurs, and each bar counts at least one and at
      most every client. */
  lemma SourceStatsBars(clients: seq<Client>)
    ensures SourceStats(clients).Keys == Sources(clients)
    ensures forall s :: s in SourceStats(clients) ==> 1 <= SourceStats(clients)[s] <= |clients|
  {
    forall s | s in SourceStats(clients) ensures 1 <= SourceStats(clients)[s] {
      var k :| 0 <= k < |clients| && clients[k].source == s;
      CountPositive(clients, (c: Client) => c.source == s, k);
    }
  }

  /** How many clients have a source in `keys`, summed source by source. */
  ghost function SumCounts(clients: seq<Client>, keys: set<string>): nat
    decreases keys
  {
    if keys == {} then 0
    else
      var s :| s in keys;
      SourceCount(clients, s) + SumCounts(clients, keys - {s})
  }

  lemma {:induction false} CountSplit(clients: seq<Client>, keys: set<string>, s: string)
    requires s in keys
    ensures CountWhere(clients, (c: Client) => c.source in keys)
      == SourceCount(clients, s) + CountWhere(clients, (c: Client) => c.source in keys - {s})
  {
    if clients != [] {
      CountSplit(clients[..|clients| - 1], keys, s);
    }
  }

  lemma {:induction false} SumCountsIsCount(clients: seq<Client>, keys: set<string>)
    ensures SumCounts(clients, keys) == CountWhere(clients, (c: Client) => c.source in keys)
    decreases keys
  {
    if keys == {} {
      ZeroCount(clients, (c: Client) => c.source in keys);
    } else {
      var s :| s in keys && SumCounts(clients, keys) == SourceCount(clients, s) + SumCounts(clients, keys - {s});
      SumCountsIsCount(clients, keys - {s});
      CountSplit(clients, keys, s);
    }
  }

  lemma {:induction false} ZeroCount(clients: seq<Client>, p: Client -> bool)
    requires forall i :: 0 <= i < |clients| ==> !p(clients[i])
    ensures CountWhere(clients, p) == 0
  {
    if clients != [] { ZeroCount(clients[..|clients| - 1], p); }
  }

  lemma {:induction false} FullCount(clients: seq<Client>, p: Client -> bool)
    requires forall i :: 0 <= i < |clients| ==> p(clients[i])
    ensures CountWhere(clients, p) == |clients|
  {
    if clients != [] { FullCount(clients[..|clients| - 1], p); }
  }

  /** The bars of the sources chart add up to the number of clients. */
  lemma SourceStatsTotal(clients: seq<Client>)
    ensures SumCounts(clients, SourceStats(clients).Keys) == |clients|
  {
    var keys := Sources(clients);
    assert SourceStats(clients).Keys == keys;
    SumCountsIsCount(clients, keys);
    FullCount(clients, (c: Client) => c.source in keys);
  }

  /** `add_order` flags its client: the repeat count rises by the number of rows with that
      id not yet flagged, which with unique ids is at most one, and never falls. */
  lemma {:induction false} RepeatCountAfterOrder(clients: seq<Client>, id: int)
    ensures RepeatCount(Orders.SetRepeat(clients, id))
      == RepeatCount(clients) + CountWhere(clients, (c: Client) => c.id == id && c.isRepeat != 1)
  {
    if clients != [] {
      var n := |clients| - 1;
      Orders.SetRepeatEffect(clients, id);
      Orders.SetRepeatEffect(clients[..n], id);
      assert Orders.SetRepeat(clients, id)[..n] == Orders.SetRepeat(clients[..n], id);
      RepeatCountAfterOrder(clients[..n], id);
    }
  }
}
