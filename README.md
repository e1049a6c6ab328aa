# Marketing store: a verified model of its business layer

The program is a small single-user information system for a marketing agency. It keeps four
SQLite tables: clients, services (the price list), orders and advertising campaigns
(`ad_stats`). A Streamlit page drives them. This project models the business layer of
`main.py` in Dafny and proves what it does.

- `Store.Database` is the in-memory database. It has one sequence of rows per table and one counter per table, which
  stand in for SQLite's AUTOINCREMENT.
- Its invariant `Valid` says that every table's ids are unique, at least 1, below the
  counter and ascending in insertion order.
- Every function of the program that reads or writes the tables is a method of the class, except the three that
  only wrap a query in a pandas DataFrame (`get_clients_df`, `get_services_df`, `get_ad_stats_df`). The `SELECT`, `UPDATE` and `DELETE`
  statements by id are loops in module `Tables` (`Lookup`, `UpdateWhere`, `DeleteWhere`). Each loop is proved
  against a function saying which rows result (`FindByKey`, `Updated`, `Without`).
- The pricing rule of `add_order` is in `Orders`. The repeat-client discount is decided by the client row the page read
  before the order, and the final price is frozen into the order.
- `Ads` holds the upsert of `increase_ad_revenue`. If the channel has a row, one of its latest campaigns is
  credited; otherwise a new campaign is inserted. Because `ORDER BY date DESC LIMIT 1` does not fix which row wins a
  tie, the contract is the relation `Ads.Credited`, which allows any latest row. The method
  itself takes the first one.
- `Store.Database.CompleteOrder` is the "mark completed" handler of the orders tab. It marks the
  order, looks up its client and, for a client who came through advertising on a named channel,
  credits the order's final price to that channel.
- The pure parts are functions with lemmas:
  - `Recommend`: the first-match recommendation rule;
  - `Analytics`: the counts on the analytics tab;
  - `Listing`: the order listing, an inner join of orders, clients and services, latest date first;
  - `Catalog`: the catalogue of 13 default services.
- Supporting modules:
  - `Text`: Python's `strip` and `lower`, and SQLite's ordering of text;
  - `Numbers`: the subset of `float()` that the price texts use.
- `Scenarios` works through concrete cases: the worked examples of discount and recommendation, and short call
  sequences on a fresh database.

Modelling decisions:

- Prices, spend and revenue are exact `real` numbers, where the program uses Python floats.
- The date of "today" (`datetime.now()`) is a parameter.
- Dates are `YYYY-MM-DD` texts. They are compared the way SQLite compares text: code point by code point, a proper
  prefix first (`Text.LexLe`).
- Nullable columns are `Option`:
  - `category` and `region` of a client, which `recommend_service` treats as "" when empty;
  - `revenue` of a campaign, which `increase_ad_revenue` reads as 0 when null.
- The repeat flag is kept as the integer it is in SQLite. The discount and the repeat-client count test it
  with `== 1`; the recommendation tests Python truthiness, which is `!= 0`.
- `float(price_str)` is modelled by `Numbers.ParseDecimal`:
  - an optional sign, digits, an optional point and digits;
  - at least one digit in total;
  - any other text fails, which `add_order` turns into the price 0.
- `lower()` is modelled for the ASCII and Cyrillic capital letters (U+0400–U+042F).
- `strip()` removes the characters Python's `str.isspace` accepts.

## Model

| member | source | states |
|---|---|---|
| Store.Database.constructor | main.py:9-55 | the four tables exist and are empty, and every id counter starts at 1 |
| Store.Database.AddClient | main.py:97-105 | exactly one client row is appended under the next id, with the given fields and repeat flag 0 (the column default); the ids stay valid |
| Store.Database.GetClients | main.py:107-113 | returns every client row, in insertion order (ids ascending) |
| Store.Database.AddService | main.py:124-129 | exactly one service row is appended under the next id; the price text is stored unchecked |
| Store.Database.GetServices | main.py:131-137 | returns every service row, in insertion order (ids ascending) |
| Store.Database.LoadDefaultServices | main.py:64-82 | when the catalogue is empty the 13 defaults are appended in list order under consecutive ids; otherwise nothing changes |
| Store.Database.DeleteRecord | main.py:85-94 | a table name outside {clients, services, orders, ad_stats} is refused and no table changes; otherwise only the rows of that table with the given id are removed, the rest keep their order and the other tables are untouched |
| Store.Database.AddOrder | main.py:145-165 | appends exactly one order (given client and service, today, the discount and final price of `Orders.QuoteFor` for the snapshot, not completed) and sets the repeat flag on the client with that id only; services and campaigns are not in its frame |
| Store.Database.GetOrders | main.py:167-179 | returns the rows of the inner join of orders with clients and services, each as often as in the join, sorted by date, latest first |
| Store.Database.MarkOrderCompleted | main.py:181-186 | the order with that id, and only it, gets the completed flag; ids stay valid |
| Store.Database.GetClientByOrderId | main.py:190-201 | returns the client of the order with that id, and None exactly when there is no such order or its client row is gone |
| Store.Database.AddAdStat | main.py:232-240 | exactly one campaign row is appended under the next id, as given |
| Store.Database.IncreaseAdRevenue | main.py:252-265 | the new campaign table is related to the old one by `Ads.Credited`: a latest row of the channel is credited with the amount, or a row (channel, spend 0, revenue the amount, today) is appended when the channel has none |
| Store.Database.GetAdChannels | main.py:267-273 | returns each channel that occurs in the campaigns exactly once, and no other text |
| Store.Database.CompleteOrder | main.py:367-373 | the listed order is marked completed; when its client's source is "Реклама" and its channel is not "не указано", the order's final price is credited to that channel by `Ads.Credited`, otherwise the campaigns are unchanged |
| Store.ClientOfOrder | main.py:193-199 | a client found for an order id is a client row whose id is the client id of an order with that id |
| Store.ClientOfCompletedOrder | main.py:181-201 | marking an order completed does not change which client any order belongs to |
| Tables.KeysAppend | main.py:14 | a row appended under the AUTOINCREMENT counter keeps the ids unique, in range and ascending |
| Tables.FindByKey | main.py:148-149 | the row found by id is a row of the table with that id, and nothing is found exactly when no row has the id |
| Tables.FindUnique | main.py:197-199 | with valid ids, looking up a row's id finds that row |
| Tables.Lookup | main.py:148-149 | the loop over the rows returns what `FindByKey` specifies |
| Tables.UpdateWhere | main.py:163 | the loop over the rows returns `Updated`: rows with the id changed, all others as they were, in order |
| Tables.UpdatedUnknown | main.py:184 | an update by an id no row has changes nothing |
| Tables.UpdatedAt | main.py:260 | with valid ids, updating the id of row k changes row k only |
| Tables.UpdatedKeysValid | main.py:163 | an update that keeps ids keeps the ids valid |
| Tables.UpdatedIdempotent | main.py:184 | repeating an idempotent update changes nothing more |
| Tables.FindUpdated | main.py:181-199 | a lookup after an id-preserving update finds the same row, changed when it was the target |
| Tables.Without | main.py:92 | the rows kept by a delete are rows of the table, every row without the id is kept, and no kept row has the id |
| Tables.DeleteWhere | main.py:92 | the loop over the rows returns what `Without` specifies |
| Tables.WithoutAppend | main.py:92 | deleting from a table with one more row at the end keeps that row exactly when it does not have the id |
| Tables.WithoutUnknown | main.py:92 | deleting an id no row has changes nothing |
| Tables.WithoutKeysValid | main.py:92 | a delete keeps the remaining ids valid, under the same counter |
| Text.TrimLeft | main.py:206-207 | the leading white space is removed and nothing else: what remains is a suffix that does not start with white space |
| Text.TrimRight | main.py:206-207 | the trailing white space is removed and nothing else: what remains is a prefix that does not end with white space |
| Text.TrimSlice | main.py:206-207 | `strip` keeps one slice of the text and what it drops on either side is white space |
| Text.LowerChar | main.py:206-207 | lower-casing a letter never turns white space into something else or back |
| Text.TrimLower | main.py:206-207 | stripping and lower-casing commute |
| Text.NormalizeIdempotent | main.py:206-207 | `strip().lower()` of its own result changes nothing |
| Text.LexLeTotal | main.py:175 | the text order of `ORDER BY date` compares any two dates |
| Text.LexLeTrans | main.py:175 | the text order of `ORDER BY date` is transitive |
| Text.LexLeAntisym | main.py:175 | two dates ordered both ways are equal |
| Numbers.ParseDecimal | main.py:151-154 | an empty price text does not parse |
| Numbers.DecimalValue | main.py:152 | the value of whole digits and fraction digits lies between the whole part and the whole part plus 1 |
| Numbers.WholeValue | main.py:152 | a run of digits parses to its decimal value |
| Numbers.PointValue | main.py:152 | digits, a point and digits, with at least one digit ("1500.50", ".5", "7."), parse to the whole part plus the fraction |
| Numbers.SignValue | main.py:152 | a leading '-' negates the value of the unsigned text after it, a leading '+' changes nothing, and text that does not parse stays unparsed |
| Numbers.NonNumeralRejected | main.py:151-154 | the model's parser rejects a price text with any character other than an ASCII digit, point or sign |
| Numbers.UnsignedNonNegative | main.py:152 | a price text without a leading minus parses to a value of at least 0 |
| Numbers.ParseNatText | main.py:152 | every whole number written in decimal parses back to that number |
| Records.MarkRepeat | main.py:163 | the row changed by `SET is_repeat_client = 1` has flag 1 and the same id |
| Records.MarkCompleted | main.py:184 | the row changed by `SET is_completed = 1` has flag 1 and the same id |
| Catalog.Seeded | main.py:81-82 | seeding adds one service per default pair |
| Catalog.SeedDefaultsContents | main.py:65-82 | an empty catalogue becomes the 13 defaults in list order with consecutive ids from the counter; a non-empty one is unchanged |
| Catalog.SeedDefaultsIdempotent | main.py:80-82 | seeding twice has the effect of seeding once |
| Catalog.SeededAppend | main.py:81-82 | seeding the defaults one `add_service` at a time builds the seeded table |
| Orders.QuoteFor | main.py:151-157 | the discount is 10 exactly when the snapshot's repeat flag equals 1 and 0 exactly otherwise; a price text that does not parse costs 0 |
| Orders.QuoteFinalPrice | main.py:156-157 | the final price is the parsed price, or 9/10 of it for a repeat client |
| Orders.UnparsedPriceIsFree | main.py:151-154 | a price text such as "по договоренности" yields a final price of 0 and no error |
| Orders.QuoteBounds | main.py:157 | for a price of at least 0, the final price lies between 90% of it and all of it |
| Orders.QuoteWholePrice | main.py:152-157 | a whole price n costs n, or 9/10 of n for a repeat client |
| Orders.SetRepeatEffect | main.py:163 | after an order, the client with that id has repeat flag 1 and every other client row is unchanged; a set flag stays set |
| Orders.SetCompletedEffect | main.py:184 | completing an order sets the flag on that order only |
| Orders.SetCompletedIdempotent | main.py:184 | completing an order twice is the same as once |
| Orders.SetCompletedUnknown | main.py:184 | completing an unknown id changes nothing |
| Ads.Credit | main.py:258-260 | the credited campaign has revenue (old revenue, or 0 if null) plus the amount, and every other field as before |
| Ads.FindLatest | main.py:255-256 | finds a row exactly when the channel has one, and then a row of the channel with no later date |
| Ads.LatestExists | main.py:255-257 | every channel that has a row has a latest row, so the update branch of the upsert can always be taken |
| Ads.CreditedTotal | main.py:252-263 | an upsert raises the total revenue of all campaigns by exactly the amount, adds at most one row, and the channel has a row afterwards |
| Ads.CreditedSingle | main.py:255-260 | a channel's only row is the one credited |
| Ads.Efficiency | main.py:249 | the ratio spend/revenue is undefined exactly when revenue is null or 0; otherwise ratio × revenue = spend |
| Listing.JoinOf | main.py:171-174 | an order appears in the join exactly when both its client and its service exist, with their name and title and its own date, discount, price and flag |
| Listing.JoinedMembers | main.py:170-174 | a row is in the join exactly when some order joins to it |
| Listing.SortByDateDesc | main.py:175 | the listing is a permutation of the join rows, sorted by date latest first |
| Recommend.RecommendService | main.py:205-216 | the recommendation is always one of the four fixed texts |
| Recommend.RecommendRules | main.py:210-216 | each of the four texts is returned exactly under its own condition, first match wins: Moscow individual (even a repeat client), then regional company, then any repeat client, then the default |
| Recommend.FieldIdempotent | main.py:206-207 | normalising a normalised field changes nothing |
| Recommend.RecommendNormalized | main.py:206-207 | the recommendation depends on category and region only through their stripped, lower-cased form |
| Recommend.BlankField | main.py:206-207 | a category or region of white space only normalises to "", as NULL and "" do |
| Recommend.RecommendNoCategory | main.py:206-216 | with category and region missing, empty or blank, the recommendation depends only on the repeat flag |
| Analytics.CountWhere | main.py:385-387 | a count of clients never exceeds the number of clients |
| Analytics.RegionCountsBounded | main.py:385-386 | Moscow clients and regional clients together are at most all clients |
| Analytics.SourceStatsBars | main.py:388-389 | the sources chart has a bar for each source that occurs, and each bar lies between 1 and the number of clients |
| Analytics.SourceStatsTotal | main.py:388-389 | the bars of the sources chart add up to the number of clients |
| Analytics.RepeatCountAfterOrder | main.py:387 | an order raises the repeat-client count by the clients with that id that were not yet repeat clients |
| Scenarios.QuoteExamples | main.py:156-157 | a new client pays 150 for "150"; a repeat client pays 180 for "200", with a discount of 10 |
| Scenarios.PointPriceExample | main.py:152 | the price text "12.5" parses to 12.5 |
| Scenarios.SignedPriceExample | main.py:152 | the price text "-.5" parses to -0.5 |
| Scenarios.NegotiablePriceExample | main.py:151-154 | a service priced "по договоренности" is ordered for 0 |
| Scenarios.RecommendExamples | main.py:205-216 | the regional company, the regional repeat individual and the client without category or region get their rules' texts |
| Scenarios.RecommendIgnoresCaseAndBlanks | main.py:206-211 | " МОСКВА " and "физическое ЛИЦО" get the written consultation, repeat client or not |
| Scenarios.SeedTwice | main.py:64-82 | seeding a fresh database twice leaves the 13 defaults once, with ids 1 to 13 |
| Scenarios.UpsertTwice | main.py:252-265 | crediting 500 and then 300 to a new channel leaves one row with spend 0 and revenue 800 |
| Scenarios.TwoOrders | main.py:145-165 | a new client's first order costs 150 at no discount; the next order, placed from the re-read client row, gets 10% off and costs 135 |

## Left out

- The Streamlit page is not modelled: rendering, forms, widgets, metrics, charts and styling. The rules
  embedded in it are kept: the completion handler at main.py:367-373, the analytics counts and
  the snapshot the page passes to `add_order`.
- The client form refuses a blank name or email and strips both before `add_client` (main.py:304-307). `AddClient`
  models the call itself and takes the texts as given.
- pandas is not modelled: DataFrame construction, column names and `groupby().mean()` of the efficiency per channel.
  These are presentation and floating-point averaging.
- The campaign overview `get_ad_stats_df` (main.py:242-250) is presentation: only its efficiency formula is modelled.
- The efficiency column divides floats, giving inf or NaN for a revenue of 0. `Ads.Efficiency`
  models it as an `Option` that is `None` for a null or zero revenue.
- SQLite mechanics are not modelled: connections, commits and the SQL text. Foreign keys are not enforced, so
  deleting a client or service leaves its orders in place. The model keeps this, and the join then drops those orders.
- `init_db` re-run on an existing file is a no-op (`CREATE TABLE IF NOT EXISTS`). Only the fresh database is modelled.
- Ids are never reused after a delete. The model shows this by keeping the counters: AUTOINCREMENT never hands out an
  id again.
- Numbers.ParseDecimal: Python's `float()` also accepts surrounding white space, exponents, underscores, "inf", "nan",
  "infinity" and Unicode decimal digits other than ASCII ("１５０" is 150.0). These texts are rejected here, so such a
  price counts as 0.
- Text.LowerChar: `lower()` is modelled only for ASCII and Cyrillic capitals. Other scripts' capitals are left as they
  are, which does not affect the texts the rule compares with.
- Orders.QuoteFor: prices are exact reals, not IEEE doubles, so `final_price` is not bit-exact, e.g. 0.9 × 3 in
  floating point.
- Store.Database.AddOrder: a service id with no row makes the program crash on `fetchone()[0]` (main.py:149). Here it
  is a precondition.
- The guards `len(client) > 5` and `len(c) > 6` (main.py:208, main.py:387-388) are always true for full client rows.
  They are dropped.
- Store.Database.GetClients and Store.Database.GetServices: rows come back in insertion order. That is what SQLite does
  for a plain `SELECT *` on a rowid table, though SQL does not promise it.
- Store.Database.GetOrders: the contract leaves the order of rows with equal dates open, since `ORDER BY o.date DESC`
  does not fix it.
- Store.Database.IncreaseAdRevenue: the contract leaves open which of several rows with the same latest date is
  credited. The method credits the first of them in table order.
- `datetime.now()` is the `today` parameter. The date format itself is not checked.
- Concurrency is not modelled: two sessions writing the same file are not considered.
- `get_client_by_order_id` is defined twice with the same body (main.py:190-201, main.py:218-229). It is modelled once.
- The recommendation "Обработка материалов заказчика" (main.py:213) is not the title of the default service
  "Обработка материала заказчика" (main.py:67). The model keeps both texts as written.
