# POS: order logs, sales analytics, shopping bag and accounts

A Dafny model of the logic beneath the Swing point-of-sale application
`POS/DynamicGUI.java`. The model leaves out the widgets and the disk. Each
file the application reads (`orders.csv`, `order_items.csv`, `customers.txt`,
`profiles.txt`, `menu.txt`) is a sequence of lines. Each write is the lines
it produces. The clock is a parameter, and amounts are integer cents.

Modules:

- `JavaText`: the `java.lang` behaviour the application relies on.
  - `String.trim` and `String.split`, with and without a limit.
  - `Integer.parseInt` / `Integer.toString`, and `String.format("%02d")`.
  - Lexicographic `compareTo`.
  - 32-bit `int` wrap-around.
- `Csv`: the order-log codec.
  - `escape` quotes a field and doubles its quotes when it holds a comma or a quote.
  - `parseCsvLine` is the quote-aware tokenizer: an imperative loop proved against a functional specification.
  - `unescape` strips one outer quote pair. On the one-character field `"` it throws, which the model writes as `None`.
  - The two row formats written by `finishOrder`.
- `Money`: `%.2f` on cents, and `parseDoubleSafe` restricted to decimal numerals.
- `Dates`: `LocalDateTime` text for `ISO_LOCAL_DATE_TIME`, and `parseDateSafe`.
  - `bucketKey` gives the Daily, Weekly and Monthly labels.
  - `sortKey` orders the labels.
- `Assoc`: `HashMap`/`LinkedHashMap` as association lists.
  - `get`, `put`, `putIfAbsent` and `getOrDefault`.
  - The sort-descending-then-`limit(n)` stream pipeline.
- `TopSellers`: `refreshTopSellers`.
- `SalesBuckets`: the reading loop of `refreshChartAndSummary`, which fills `bucketsCustomer` (period → customer → total).
- `SalesChart`: the rest of `refreshChartAndSummary`.
  - Chronological label order, per-period grand totals and per-customer totals.
  - The six top customers, the series map with `TOTAL`, and the summary table.
- `Cashier`: the shopping bag, a class whose rows the `+`/`-` buttons, `addToBag` and `finishOrder` change in place.
  - Also: what `finishOrder` writes, and how the analytics read it back.
- `Accounts`: the customer and profile maps, kept as a class.
  - Loading the files (`split(":")` and `split(":", 4)`).
  - Appending and rewriting them.
  - `authenticate`, registration and the settings dialog's `saveChanges`.
- `OrderHistory`: the settings dialog's order table (`loadOrderHistory`) and items dialog (`showOrderItems`).
- `Menu`: the admin's menu table (`loadMenu`, `saveMenu`) and the customer's category tabs (`loadCategoryItems`).

An exception other than `IOException` escapes the reading loops. An example is
`unescape("\"")`, where `substring(1, 0)` throws. On the first load the
throw escapes a constructor, so the window never opens:
`refreshTopSellers` and `refreshChartAndSummary` run in the `AnalyticsPanel`
constructor (POS/DynamicGUI.java:908-909), which the admin dashboard builds
(POS/DynamicGUI.java:428), and `loadOrderHistory` runs through
`refreshHist.doClick()` in the settings dialog's constructor
(POS/DynamicGUI.java:1457). On a later Refresh the top-seller table and the
chart keep what they showed before, and the order-history table keeps the
rows added before the throw. The model makes such loops return `None` or a
`failed` flag.

Three behaviours of the code are easy to miss:

- The `TOTAL` series is not always last. `series.put("TOTAL", …)` overwrites
  a customer literally named `TOTAL` in place (`SalesChart.SeriesKeys`).
- Malformed rows are not always skipped. A row whose customer or item field
  is the lone `"` aborts the whole refresh (`TopSellers.CountsFail`,
  `SalesBuckets.GatherFails`).
- Ties among top sellers and top customers come from `HashMap` order, not
  first-seen order. The contracts leave the order of equal counts open (`Assoc.IsTopN`).

## Model

| member | source | states |
|---|---|---|
| Csv.Escape | POS/DynamicGUI.java:834-841 | a value with no comma or quote is written unchanged; any other value is wrapped in quotes with its quotes doubled |
| Csv.ParseCsvLine | POS/DynamicGUI.java:1071-1093 | the character loop with its `inQuotes` flag and `""` skip returns exactly the fields of the functional parser `ParseLine` |
| Csv.ParseLine | POS/DynamicGUI.java:1071-1093 | a line always yields at least one field |
| Csv.EmptyLineIsOneEmptyField | POS/DynamicGUI.java:1091 | the empty line parses to the single empty field |
| Csv.CsvRoundTrip | POS/DynamicGUI.java:1071-1093 | parsing the comma-join of escaped fields returns exactly those fields, including empty fields and fields with commas or quotes |
| Csv.OrderRowRoundTrip | POS/DynamicGUI.java:807 | an `orders.csv` row with a comma- and quote-free stamp and total parses back to stamp, raw customer and total |
| Csv.ItemRowRoundTrip | POS/DynamicGUI.java:820 | an `order_items.csv` row parses back to its four fields |
| Csv.Unescape | POS/DynamicGUI.java:1095-1101 | the result is the input itself exactly when the input is not wrapped in quotes; it throws exactly on the one-character input `"` |
| Csv.UnescapeEscape | POS/DynamicGUI.java:1095-1101 | unescaping an escaped value gives the value back |
| Csv.UnescapeAfterParse | POS/DynamicGUI.java:927 | after parsing a written row, unescape recovers a field exactly when that field does not both start and end with a quote, and throws exactly when the field is `"` |
| Money.ParseCentsSafe | POS/DynamicGUI.java:1109-1111 | the trimmed text's value when it is a decimal numeral, otherwise the default |
| Money.ParseFormatCents | POS/DynamicGUI.java:964 | an amount written with `%.2f` reads back as the same amount |
| JavaText.ParseIntSafe | POS/DynamicGUI.java:1106-1108 | the trimmed text's `int` value when `parseInt` accepts it, otherwise the default |
| JavaText.ParseIntOfIntToString | POS/DynamicGUI.java:820 | every 32-bit quantity written with `+ qty` parses back to itself |
| JavaText.Wrap32 | POS/DynamicGUI.java:929 | the result is a 32-bit value and equals the input when that already fits |
| JavaText.Trim | POS/DynamicGUI.java:310 | the result neither starts nor ends with a character at or below space |
| JavaText.TrimIsMiddle | POS/DynamicGUI.java:310 | the trimmed text is the slice of the input that is left once every character at or below space is removed from both ends |
| JavaText.JoinSplitAll | POS/DynamicGUI.java:166 | joining the pieces of a split with the separator gives back the text |
| JavaText.JoinSplitLimit | POS/DynamicGUI.java:184 | the same for `split` with a limit, which yields between one and `limit` pieces |
| Dates.ParseDateSafe | POS/DynamicGUI.java:1103-1105 | the parsed date-time when the text is one, otherwise the supplied `now` |
| Dates.ParseDateTimeText | POS/DynamicGUI.java:803 | a stamp written with `ISO_LOCAL_DATE_TIME` parses back to the same date-time |
| Dates.DailyKeyOrder | POS/DynamicGUI.java:1040-1041 | Daily labels compare as strings exactly as their dates compare in time, for four-digit years |
| Dates.MonthlyKeyOrder | POS/DynamicGUI.java:1048-1049 | for years 1000..9999, Monthly labels compare as strings exactly as year and month compare (a three-digit year such as `999-01` sorts after `1000-01`) |
| Dates.MonthLabelIsDayPrefix | POS/DynamicGUI.java:1048-1049 | for a four-digit year the Monthly label is the first seven characters of the Daily label |
| Dates.WeeklySortKey | POS/DynamicGUI.java:1062-1064 | the sort key of `year-Wnn` is the year followed by the two-digit week |
| Dates.WeeklyKeyOrder | POS/DynamicGUI.java:1062-1064 | for week-based years 1000..9999 and weeks below 100, Weekly sort keys compare exactly as (week-based year, week) compare, so `W09` sorts before `W10` (week 1 of year 999 gives the key `99901`, which sorts after `100001`) |
| Dates.UnmarkedWeekLabel | POS/DynamicGUI.java:1062-1067 | a weekly label without `-W` sorts as itself |
| Dates.MissingWeekNumber | POS/DynamicGUI.java:1062-1067 | a weekly label made of digits followed by `-W` sorts as itself |
| Dates.NonNumericWeek | POS/DynamicGUI.java:1062-1067 | a weekly label `digits-W` followed by a week part that `parseInt` rejects sorts as itself |
| Dates.SortKeyChronological | POS/DynamicGUI.java:977-979 | for every view, when both date-times satisfy `FourDigitPeriod` (years 1000..9999 and, for Weekly, a four-digit week-based year and a week below 100), sort keys of their labels compare exactly as their periods compare in time |
| Assoc.PutGet | POS/DynamicGUI.java:929 | after `put(k, v)`, `get` finds `v` under `k` and the old value under every other key |
| Assoc.PutIfAbsentGet | POS/DynamicGUI.java:967 | `putIfAbsent` leaves a present key's value and adds the value for an absent key |
| Assoc.TopNIsTopN | POS/DynamicGUI.java:936-939 | sort-descending-then-limit keeps `min(n, size)` entries of the map, largest first, with nothing left out larger than anything kept |
| TopSellers.RefreshTopSellers | POS/DynamicGUI.java:918-945 | the loop over `order_items.csv` returns the top ten of the per-item counts, or nothing when a line throws |
| TopSellers.TopSellersMeaning | POS/DynamicGUI.java:918-939 | at most ten distinct items, in non-increasing order; each count is the 32-bit wrap of the item's summed parsed quantities over rows with at least four fields; no left-out item sold more than a listed one |
| TopSellers.TallyCounts | POS/DynamicGUI.java:926-929 | each item's count is the wrapped sum of its rows' quantities (unparsable ones count 0), with distinct keys |
| TopSellers.TallyKeys | POS/DynamicGUI.java:926-929 | an item is counted exactly when some row with at least four fields names it |
| TopSellers.CountsFail | POS/DynamicGUI.java:927 | the refresh throws exactly when some row's item field is the lone quote |
| SalesBuckets.GatherBuckets | POS/DynamicGUI.java:952-975 | the reading loop's `putIfAbsent`/`get`/`put` steps build exactly the buckets of the functional specification, or stop when a line throws |
| SalesBuckets.GatherAmounts | POS/DynamicGUI.java:966-969 | each (period, customer) cell is the sum of the totals of that customer's orders in that period |
| SalesBuckets.GatherTotal | POS/DynamicGUI.java:952-975 | the sum of all cells equals the sum of the totals of all orders with at least three fields |
| SalesBuckets.GatherKeys | POS/DynamicGUI.java:966-967 | the period keys are distinct and are exactly the periods of the orders read |
| SalesBuckets.GatherFails | POS/DynamicGUI.java:963 | the refresh throws exactly when some order's customer field is the lone quote |
| SalesBuckets.AddOrderAmount | POS/DynamicGUI.java:967-969 | adding an order raises exactly its own (period, customer) cell by its total |
| SalesBuckets.AddOrderTotal | POS/DynamicGUI.java:969 | adding an order raises the sum of all cells by its total |
| SalesChart.SortLabels | POS/DynamicGUI.java:978-979 | sorting the labels is a permutation |
| SalesChart.SortLabelsSorted | POS/DynamicGUI.java:978-979 | the sorted labels are in `sortKey` order |
| SalesChart.LabelsChronological | POS/DynamicGUI.java:977-979 | in the sorted labels an earlier label's period is no later than a later label's, for four-digit years |
| SalesChart.Totals | POS/DynamicGUI.java:981-991 | the nested loops fill `grandTotalsByLabel` and `totalsPerCustomer` exactly as their functional specifications |
| SalesChart.TotalColumnSums | POS/DynamicGUI.java:1011 | each period's grand total is the sum of that period's per-customer totals, and the column sums to the sum over all periods |
| SalesChart.TopCustomersRanked | POS/DynamicGUI.java:993-999 | `min(6, customers)` distinct known customers, by non-increasing all-time total, with no left-out customer above a chosen one |
| SalesChart.Column | POS/DynamicGUI.java:1003-1007 | one value per label: the customer's amount in that period, 0 when absent |
| SalesChart.TotalColumn | POS/DynamicGUI.java:1011 | one grand total per label |
| SalesChart.BuildSeries | POS/DynamicGUI.java:1001-1012 | the loop puts a column for each top customer and then `TOTAL`, as the functional series map |
| SalesChart.SeriesGet | POS/DynamicGUI.java:1001-1012 | `TOTAL` maps to the grand totals; each top customer maps to their column; nothing else is present |
| SalesChart.SeriesKeys | POS/DynamicGUI.java:1010-1012 | the series order is the top customers then `TOTAL`, unless a customer is literally named `TOTAL`, whose entry is then overwritten in place |
| SalesChart.Amounts | POS/DynamicGUI.java:1029-1032 | one amount per top customer, read from that customer's series at the row's index |
| SalesChart.BuildSummary | POS/DynamicGUI.java:1016-1034 | one summary row per label, each the label, its grand total and the top customers' amounts |
| SalesChart.RefreshChart | POS/DynamicGUI.java:947-1035 | the whole refresh computes the chart of the functional specification, or nothing when a line throws |
| SalesChart.ChartLabels | POS/DynamicGUI.java:977-979 | the labels are distinct, sorted by `sortKey`, and exactly the periods of the orders read |
| SalesChart.ChartTotals | POS/DynamicGUI.java:981-991 | `TOTAL` has one value per label, each the period's bucket sum, and together they sum to all order totals |
| SalesChart.ChartAmounts | POS/DynamicGUI.java:1003-1009 | every series has one value per label, and a charted customer's value is the sum of their orders in that period |
| SalesChart.ChartCustomers | POS/DynamicGUI.java:993-999 | at most six distinct customers are charted, ranked by all-time total, each total the sum of their column; all customers together sum to all order totals |
| SalesChart.ChartRows | POS/DynamicGUI.java:1025-1034 | row `i` of the summary shows label `i`, its grand total, and each charted customer's amount in that period |
| Cashier.FindItem | POS/DynamicGUI.java:759-760 | the first bag row with the item's name, or none when no row has it |
| Cashier.Bag.AddToBag | POS/DynamicGUI.java:758-767 | the loop leaves the bag as `AddedToBag` of the old bag; a bag with unique names and positive quantities keeps them while the item's quantity is below `Integer.MAX_VALUE` |
| Cashier.AddToBagEffect | POS/DynamicGUI.java:758-767 | the item's quantity rises by one (an existing row keeps its price, a new item is appended with quantity 1); other items and rows are unchanged; names stay unique and quantities positive |
| Cashier.Bag.Plus | POS/DynamicGUI.java:668-674 | the bag becomes `Plussed` of the old bag for the selected row; the bag invariants are kept while the selected quantity is below `Integer.MAX_VALUE` |
| Cashier.PlusEffect | POS/DynamicGUI.java:668-674 | with no selection nothing changes; otherwise only the selected row's quantity rises by one, and the bag invariants hold |
| Cashier.Bag.Minus | POS/DynamicGUI.java:677-687 | the bag becomes `Minussed` of the old bag for the selected row, and the bag invariants are kept |
| Cashier.MinusEffect | POS/DynamicGUI.java:677-687 | with no selection nothing changes; otherwise the quantity drops by one, the row stays exactly when its quantity was above 1, every other row keeps its item, price and quantity in the same order (shifted up by one after a removed row), and the invariants hold |
| Cashier.Bag.FinishOrder | POS/DynamicGUI.java:769-831 | an empty bag writes nothing and stays empty; otherwise the order's lines are written and the bag is cleared; the bag invariants are kept |
| Cashier.ItemLines | POS/DynamicGUI.java:814-822 | one `order_items.csv` line per bag row |
| Cashier.OrderLineReadBack | POS/DynamicGUI.java:806-808 | the chart reads a finished order's line as that stamp and the bag total, with the customer as `unescape` gives it; it throws exactly for the customer `"` |
| Cashier.StampPeriod | POS/DynamicGUI.java:803 | the chart files an order written at `now` under the period of `now` |
| Cashier.ItemLineReadBack | POS/DynamicGUI.java:814-822 | top sellers read an item line as its item and its quantity; it throws exactly for the item `"` |
| Cashier.ItemLineAmount | POS/DynamicGUI.java:819-820 | the fourth field of an item line reads back as the line total |
| Cashier.OrderItemsCount | POS/DynamicGUI.java:814-822 | for item names not wrapped in quotes, summed over a finished order's item lines, each item's quantity equals its quantity in the bag |
| Accounts.CustomerLineRoundTrip | POS/DynamicGUI.java:166-168 | a `username:password` line with no colon in the name and a nonempty, colon-free password loads back as that account |
| Accounts.ColonPasswordLost | POS/DynamicGUI.java:166-168 | an account whose password holds a colon is saved but does not load back |
| Accounts.ProfileLineRoundTrip | POS/DynamicGUI.java:184-186 | a profile line loads back as that profile when name, first and middle hold no colon |
| Accounts.AccountStore.LoadCustomers | POS/DynamicGUI.java:160-175 | the customers map becomes the accounts of the two-part lines, a later line winning; profiles are untouched |
| Accounts.AccountStore.LoadProfiles | POS/DynamicGUI.java:178-193 | the profiles map becomes the profiles of the four-part lines, a later line winning; customers are untouched |
| Accounts.LoadAppended | POS/DynamicGUI.java:196-204 | appending a storable account's line adds exactly that account on the next load |
| Accounts.ReloadCustomers | POS/DynamicGUI.java:1502-1506 | rewriting `customers.txt` from a map of storable accounts, in any order, loads back the same map |
| Accounts.ReloadProfiles | POS/DynamicGUI.java:1523-1528 | rewriting `profiles.txt` from a map of storable profiles loads back the same map |
| Accounts.Authenticate | POS/DynamicGUI.java:222-244 | admin login succeeds exactly for `admin`/`admin123` in the Admin role; customer login succeeds exactly when the name is a key whose password matches |
| Accounts.RegisterAccepts | POS/DynamicGUI.java:317-328 | registration goes through exactly when the trimmed name, the password and the confirmation are nonempty, the two passwords agree and the name is new |
| Accounts.RegisterThenLogin | POS/DynamicGUI.java:325-330 | after registering, the new account logs in, there is exactly one more account, and every other account keeps its password |
| Accounts.AccountStore.Register | POS/DynamicGUI.java:317-332 | a rejected registration changes nothing; an accepted one adds the account and its trimmed profile and appends the account's line |
| Accounts.SaveThenLogin | POS/DynamicGUI.java:1490-1501 | after saving, the new name logs in with the new password, or the kept one when the new one is blank; the old name is gone when it changed; all other accounts are unchanged |
| Accounts.SaveKeepsCount | POS/DynamicGUI.java:1499-1501 | saving keeps the number of accounts |
| Accounts.SavedProfile | POS/DynamicGUI.java:1514-1521 | the profile moves to the new name, each part the entered one or the old one when blank; all other profiles are unchanged |
| Accounts.AccountStore.SaveChanges | POS/DynamicGUI.java:1472-1521 | rejects an empty name, a missing current user, or a different name already taken, changing nothing; otherwise moves the account and profile |
| Accounts.AccountStore.Move | POS/DynamicGUI.java:1499-1521 | the map updates of a save that passed the checks |
| OrderHistory.LoadOrderHistory | POS/DynamicGUI.java:1548-1567 | the loop returns the functional history: (stamp, total) of the user's orders in file order, and whether a line threw |
| OrderHistory.HistoryFails | POS/DynamicGUI.java:1557 | the history stops exactly when some row with at least three fields has the lone-quote customer |
| OrderHistory.FailureSticks | POS/DynamicGUI.java:1557 | once a line throws, later lines add nothing |
| OrderHistory.HistoryRowsAreOwn | POS/DynamicGUI.java:1555-1561 | every row shown comes from an order line of that user |
| OrderHistory.FinishedOrderInHistory | POS/DynamicGUI.java:1548-1567 | for a customer name not wrapped in quotes, a finished order adds one row with its stamp and total to its customer's history and nothing to anyone else's; once an earlier line has thrown it adds nothing |
| OrderHistory.ShowOrderItems | POS/DynamicGUI.java:1569-1592 | the loop returns the item rows whose stamp equals the chosen one, in file order, or nothing when a line throws |
| OrderHistory.ItemsFailureSticks | POS/DynamicGUI.java:1582 | once a line throws, later lines add nothing |
| OrderHistory.FinishedOrderItems | POS/DynamicGUI.java:1573-1588 | for item names not wrapped in quotes, the items dialog for a finished order's stamp gains exactly that order's rows, in bag order |
| Menu.LoadMenu | POS/DynamicGUI.java:496-511 | the loop keeps the lines that split into exactly three parts, in file order |
| Menu.MenuFile | POS/DynamicGUI.java:513-522 | one line per table row |
| Menu.MenuLineRoundTrip | POS/DynamicGUI.java:513-522 | a row with comma-free cells and a nonempty category loads back as itself |
| Menu.CommaItemLost | POS/DynamicGUI.java:516 | an item name with a comma is saved but does not load back as that row |
| Menu.MenuRoundTrip | POS/DynamicGUI.java:496-522 | saving a menu of storable rows and loading it gives the same table |
| Menu.IgnoreCaseExamples | POS/DynamicGUI.java:748 | `food` matches the tab `Food` and `DRINKS` matches `Drinks`; `Snack` does not match `Snacks` |
| Menu.IgnoreCaseEquivalence | POS/DynamicGUI.java:748 | `equalsIgnoreCase` is reflexive, symmetric and transitive |
| Menu.CategoriesDistinct | POS/DynamicGUI.java:653 | no two of the five tab names are equal ignoring case |
| Menu.AtMostOneTab | POS/DynamicGUI.java:653-656 | every menu line is listed on at most one of the five tabs |
| Menu.LoadCategoryItems | POS/DynamicGUI.java:741-756 | the loop returns item and price of the three-part lines whose category equals the tab's, ignoring case |
| Menu.TabIsMenuFilter | POS/DynamicGUI.java:741-756 | a category tab lists exactly the admin table's rows of that category, in file order |
| Menu.SavedMenuTabs | POS/DynamicGUI.java:741-756 | after `saveMenu`, each tab shows the saved rows of its category |

## Left out

- Swing: frames, dialogs, message boxes, table widgets and event wiring. Selected rows and combo-box choices are inputs.
- `Cashier.Bag`: the bag table's cells can be edited by the user, because `bagModel` (POS/DynamicGUI.java:659) is a plain `DefaultTableModel` that does not override `isCellEditable`. An edit can repeat an item name or put a non-integer quantity in a cell. That breaks the invariants `UniqueItems` and `PositiveQuantities`, and it makes the `(int)` casts at POS/DynamicGUI.java:671, 680, 761, 780 and 818 throw. The model has no cell edits, so its bag changes only through `addToBag`, `+`, `-` and `finishOrder`.
- File I/O: files are sequences of lines. `exists()`, `IOException` handling and `printStackTrace` are not modelled.
- The clock: `LocalDateTime.now()` is the parameter `now`.
- Locale week numbering: the week-based year and week of `WeekFields.of(Locale.getDefault())` are a function parameter (`WeekRule`).
- `SalesBuckets.GatherBuckets` takes the period of a stamp as a function parameter (`KeyRule`). The application's rule is `SalesBuckets.PeriodRule`. The same holds for the label order (`SalesChart.SortRuleOf`).
- Floating point: `double` amounts, `price * qty` and sums are integer cents. Rounding in `%.2f` and chart scaling are not modelled.
- `Money.ParseCentsSafe`: accepts decimal numerals `[+-]digits[.digits]` with at most two fraction digits. Longer fractions, exponents, `NaN`, `Infinity`, hex and a trailing `d`/`f` read as the default here, though `Double.parseDouble` accepts them. The application writes every amount with `%.2f`, so its own files never hold them.
- `SalesChart.BuildSummary`: the `%,.2f` cell text (grouping separators) is not modelled; cells hold cents.
- `SimpleLineChartPanel` drawing and `NotificationCenter` messages are not modelled.
- `Cashier.AddToBagEffect`, `Cashier.PlusEffect`, `Cashier.Bag.AddToBag`, `Cashier.Bag.Plus`: the quantity `qty + 1` wraps at 32 bits as in Java. The invariant that quantities stay positive is proved only below `Integer.MAX_VALUE`.
- `Cashier.Bag.FinishOrder`: the receipt dialog and the admin notification are not modelled. `sales.txt` and `transactions.txt` are produced as text but nothing in the model reads them back.
- `Dates.ParseDateSafe`: `LocalDateTime.parse` is modelled for the `ISO_LOCAL_DATE_TIME` shapes the application writes. Years outside 0..9999 and signed years are not modelled.
- Characters: `trim`, digits and `equalsIgnoreCase` are modelled on ASCII. Non-ASCII case folding and Unicode digits are not modelled.
- `HashMap` iteration order: a rewritten `customers.txt` or `profiles.txt` is described by its set of lines. The order of equal counts in the top-seller and top-customer rankings is left open.
- The menu price text: `Double.parseDouble` of a menu price in the Add-to-Bag handler is outside the bag model, whose prices are given in cents.
- Admin screens: adding, editing and deleting menu rows, the orders dialog, and the legacy `sales.txt`/`transactions.txt` viewers are not modelled.
