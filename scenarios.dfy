/** Worked cases of the rules: concrete inputs and what the model says about them, and
    short sequences of repository calls on a fresh database. */
module Scenarios {
  import opened Wrappers
  import opened Records
  import opened Numbers
  import Orders
  import Recommend
  import Catalog
  import Store
  import Tables
  import Ads
  import Text

  function Snapshot(category: string, region: string, isRepeat: int): Client {
    Client(1, "Клиент", "client@example.org", Some(category), Some(region), isRepeat, Unspecified, 0, Unspecified)
  }

  /** A first order for a service priced "150" costs 150 with no discount; a repeat
      client's order for a service priced "200" gets 10% off and costs 180. */
  lemma QuoteExamples()
    ensures Orders.QuoteFor("150", Snapshot("Физическое лицо", "Москва", 0)) == Orders.Quote(0.0, 150.0)
    ensures Orders.QuoteFor("200", Snapshot("Физическое лицо", "Москва", 1)) == Orders.Quote(10.0, 180.0)
  {
    ParseNatText(150);
    assert NatText(150) == "150";
    ParseNatText(200);
    assert NatText(200) == "200";
  }

  /** The two orders of `TwoOrders`: a service priced "150" for a new and for a repeat client. */
  lemma QuoteOf150(c: Client)
    ensures Orders.QuoteFor("150", c)
      == if c.isRepeat == 1 then Orders.Quote(10.0, 135.0) else Orders.Quote(0.0, 150.0)
  {
    ParseNatText(150);
    assert NatText(150) == "150";
  }

  /** A price text with a point: "12.5" is 12.5. */
  lemma PointPriceExample()
    ensures ParseDecimal("12.5") == Some(12.5)
  {
    var w, f := "12", "5";
    assert AllDigits(w) && AllDigits(f);
    assert DigitsValue(w) == 12 by { assert w[..1] == "1"; }
    assert DigitsValue(f) == 5 by { assert f[..0] == ""; }
    PointValue(w, f);
    assert w + "." + f == "12.5";
  }

  /** A signed price text: "-.5" is -0.5. */
  lemma SignedPriceExample()
    ensures ParseDecimal("-.5") == Some(-0.5)
  {
    var f := "5";
    assert AllDigits(f);
    assert DigitsValue(f) == 5 by { assert f[..0] == ""; }
    PointValue("", f);
    assert "" + "." + f == ".5";
    SignValue(".5");
    assert "-" + ".5" == "-.5";
  }

  /** A service priced "по договоренности" is ordered for 0, without an error. */
  lemma NegotiablePriceExample(c: Client)
    ensures Orders.QuoteFor("по договоренности", c).finalPrice == 0.0
  {
    Orders.UnparsedPriceIsFree("по договоренности", 0, c);
  }

  // The normal forms of the category and region texts the client form offers.

  lemma NormalizeCompany()
    ensures Text.Normalize("Юридическое лицо") == "юридическое лицо"
  {
    Text.TrimUnpadded("Юридическое лицо");
    Text.LowerPointwise("Юридическое лицо", "юридическое лицо");
  }

  lemma NormalizeIndividual()
    ensures Text.Normalize("Физическое лицо") == "физическое лицо"
  {
    Text.TrimUnpadded("Физическое лицо");
    Text.LowerPointwise("Физическое лицо", "физическое лицо");
  }

  lemma NormalizeRegions()
    ensures Text.Normalize("Регионы") == "регионы"
  {
    Text.TrimUnpadded("Регионы");
    Text.LowerPointwise("Регионы", "регионы");
  }

  lemma NormalizeMixedCase()
    ensures Text.Normalize("физическое ЛИЦО") == "физическое лицо"
  {
    Text.TrimUnpadded("физическое ЛИЦО");
    Text.LowerPointwise("физическое ЛИЦО", "физическое лицо");
  }

  lemma NormalizePadded()
    ensures Text.Normalize(" МОСКВА ") == "москва"
  {
    var core := "МОСКВА";
    assert core[0] == 'М' && core[5] == 'А';
    Text.TrimPadded(core);
    assert " МОСКВА " == [' '] + core + [' '];
    LowerMoscow();
  }

  lemma LowerMoscow()
    ensures Text.Lower("МОСКВА") == "москва"
  {
    Text.LowerPointwise("МОСКВА", "москва");
  }

  /** A company from the regions, an individual from the regions who is a repeat client, and
      a client with neither category nor region. */
  lemma RecommendExamples(c: Client)
    requires c.category.None? && c.region.None? && c.isRepeat == 0
    ensures Recommend.RecommendService(Snapshot("Юридическое лицо", "Регионы", 0)) == Recommend.CustomerMaterials
    ensures Recommend.RecommendService(Snapshot("Физическое лицо", "Регионы", 1)) == Recommend.SupportDiscount
    ensures Recommend.RecommendService(c) == Recommend.ContentFromScratch
  {
    NormalizeCompany();
    NormalizeIndividual();
    NormalizeRegions();
    assert Recommend.Field(Some("Регионы")) == "регионы";
    assert Recommend.Field(Some("Юридическое лицо")) == "юридическое лицо";
    assert Recommend.Field(Some("Физическое лицо")) == "физическое лицо";
  }

  /** Case and surrounding blanks do not matter: " МОСКВА " and "физическое ЛИЦО" make the
      written consultation, repeat client or not. */
  lemma RecommendIgnoresCaseAndBlanks(isRepeat: int)
    ensures Recommend.RecommendService(Snapshot("физическое ЛИЦО", " МОСКВА ", isRepeat))
      == Recommend.WrittenConsultation
  {
    var c := Snapshot("физическое ЛИЦО", " МОСКВА ", isRepeat);
    NormalizePadded();
    NormalizeMixedCase();
    assert Recommend.Field(c.region) == "москва";
    assert Recommend.Field(c.category) == "физическое лицо";
  }

  /** Seeding a fresh database twice leaves the 13 defaults once. */
  method SeedTwice() returns (db: Store.Database)
    ensures db.Valid()
    ensures db.services == Catalog.Seeded(Catalog.DefaultServices, 1)
    ensures db.nextServiceId == 14
  {
    db := new Store.Database();
    db.LoadDefaultServices();
    db.LoadDefaultServices();
  }

  /** Crediting 500 to "VK" on an empty campaign table adds one row with spend 0 and revenue
      500; crediting 300 more updates that row to 800 instead of adding a second one. */
  method UpsertTwice(today: string) returns (db: Store.Database)
    ensures db.Valid()
    ensures db.adStats == [AdStat(1, "VK", 0.0, Some(800.0), today)]
  {
    db := new Store.Database();
    assert !Ads.HasChannel(db.adStats, "VK");
    db.IncreaseAdRevenue("VK", 500.0, today);
    var first := AdStat(1, "VK", 0.0, Some(500.0), today);
    assert db.adStats == [first];
    db.IncreaseAdRevenue("VK", 300.0, today);
    Ads.CreditedSingle(first, 2, db.adStats, db.nextAdStatId, 300.0, today);
  }

  /** A fresh database holding one client and one service priced "150". */
  method OneClientOneService() returns (db: Store.Database)
    ensures db.Valid() && fresh(db)
    ensures db.clients == [Client(1, "Клиент", "client@example.org", Some("Физическое лицо"), Some("Москва"), 0, Unspecified, 0, Unspecified)]
    ensures db.services == [Service(1, "Создание контента с нуля", "150")]
    ensures db.orders == [] && db.nextOrderId == 1
  {
    db := new Store.Database();
    db.AddClient("Клиент", "client@example.org", Some("Физическое лицо"), Some("Москва"), Unspecified, 0, Unspecified);
    db.AddService("Создание контента с нуля", "150");
  }

  /** A new client's first order is at full price and makes them a repeat client; an order
      placed with the refreshed row then gets the discount. */
  method TwoOrders(today: string) returns (db: Store.Database)
    ensures db.Valid()
    ensures |db.orders| == 2
    ensures db.orders[0].discount == 0.0 && db.orders[0].finalPrice == 150.0
    ensures db.orders[1].discount == 10.0 && db.orders[1].finalPrice == 135.0
    ensures |db.clients| == 1 && db.clients[0].isRepeat == 1
  {
    db := OneClientOneService();
    var clients := db.GetClients();
    var first := clients[0];
    assert Tables.FindByKey(db.services, ServiceId, 1) == Some(db.services[0]);
    QuoteOf150(first);
    db.AddOrder(first.id, 1, first, today);
    Orders.SetRepeatEffect(clients, first.id);
    clients := db.GetClients();
    var again := clients[0];
    QuoteOf150(again);
    db.AddOrder(again.id, 1, again, today);
    Orders.SetRepeatEffect(clients, again.id);
  }
}
