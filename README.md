# ZeroFood order tracking, modelled in Dafny

ZeroFood is a Telegram bot that collects a group's food order in a chat.
Someone starts a session in the chat. Members then add and delete items with
`/add 2 coke + burger` and `/delete coke`. Anyone can set prices with
`/set coke=1.5, burger=4`, and the service charge and tax with `/service` and
`/tax`. The bot lists a member's orders (`/me`) or the whole chat's (`/all`).
`/bill` shows each member's net and total, with the service charge and tax
split evenly. `/end` closes the session and deletes its orders.

This project models that order-tracking core and proves what it does.

- `db.dfy` (module `Db`): the Session, UserSession and Order documents with
  their defaults. Also the lookup-or-None `DBModel.get` as a three-way
  `Lookup`, the uniqueness of chat ids and usernames as map keying, and the
  cascade that deleting a Session applies to its Orders and UserSessions.
- `text.dfy` (module `Text`): the Python string operations the handlers rely
  on: `split` with a one-character separator, `strip`, `isdigit`, `int`, and
  `float` on decimal numerals.
- `parsing.dfy` (module `Parsing`): `extract_order_details`. It is a method
  with a loop, proved equal to a recursive function. A lemma relates that
  function to an independent reading. The quantity is the value of the first
  all-digit token that is not worth zero, or 1 when there is none. The name
  is every other token, in order, joined by single spaces, except the
  zero-valued digit tokens before the quantity: these are consumed and
  dropped, so "0 2 coke" gives quantity 2 and name "coke". Leading empty
  tokens leave no trace in the name.
- `utils.dfy` (module `Utils`): `get_order_details`. The loop method is
  proved against a step function, and lemmas state the marker grammar: the
  last `Nx`, the last `$N` and the last plain word win.
- `ledger.dfy` (module `Ledger`): what `add_order`, `delete_order`,
  `set_price` and `end_session` do to the Order rows.
  - Each is stated through `View`, which maps (session, username, order) to
    (quantity, price), and through one map update per command.
  - The invariant is one row per key, a positive quantity, a non-empty name
    and a non-negative price.
  - Lemmas cover merge-on-add, decrement-or-delete, the bulk price update,
    stopping at the first invalid fragment, and skipping non-numeric prices.
- `aggregation.dfy` (module `Aggregation`): the `$group` pipelines of
  `all_orders` and `bill` over a sequence of rows.
  - `all_orders` gives per-name sums, the first price, and one user entry per
    row.
  - `bill` gives each user's net and total, the service and tax normalised by
    the number of distinct usernames, and the unpriced orders.
- `bot.dfy` (module `Bot`): class `Database` holds the sessions map, the user
  bindings and the Order rows.
  - Each handler is a method that takes the chat id, the username and the
    command text as parameters, changes the collections, and returns a
    `Reply`.
  - The methods keep `Valid()`, which collects the rules of `db.py`, the
    ledger invariant, and non-negative service and tax on every session
    (both are only ever set from `abs`).
  - Each is tied by its `ensures` to the functions in `Ledger` and
    `Aggregation`.

Money is `real`. Python's `None` is `Option.None`. Python's `int` becomes
Dafny's `int` or `nat`.

Behaviour worth knowing:

- An `/add` payload with an invalid fragment is not atomic. The fragments
  before it stay applied, and it and the ones after it are dropped
  (bot.py:221-226).
- `/set` skips a pair whose value is not numeric and goes on with the next
  pair. A pair that does not split into exactly two parts on `=` raises
  `ValueError`, which stops the loop; the pairs before it stay applied
  (bot.py:95-99).
- The number of users in `/bill` counts the distinct usernames of the whole
  Order collection, not of the chat's session (bot.py:171). The unpriced
  orders listed by `/bill` are not limited to the session either
  (bot.py:194).

## Model

| member | source | states |
|---|---|---|
| Db.NewSession | db.py:15-23 | a new Session carries the given chat id and creator, service 0, tax 0, is_open true, and no message ids |
| Db.NewOrder | db.py:32-37 | a new Order has the given session, user and name, price None, and quantity 1 unless one is given |
| Db.Matching | db.py:8-10 | the positions of exactly the matching documents, in increasing order |
| Db.Get | db.py:7-12 | NotFound exactly when nothing matches; Found(i) only for the single match; MultipleFound exactly when two documents match |
| Db.SessionsKeyed | db.py:16 | `chat_id` is unique: every session is stored under its own chat id, so a chat has at most one |
| Db.BindingsKeyed | db.py:27 | `username` is unique: every UserSession is stored under its own username, so a user has at most one |
| Db.CascadeOrders | db.py:33 | after deleting a session, exactly the Orders of other sessions remain |
| Db.CascadeBindings | db.py:28 | after deleting a session, exactly the UserSessions bound to other sessions remain, unchanged |
| Db.CascadeKeepsReferences | db.py:28-33 | deleting a session with its cascades leaves every remaining Order and UserSession referring to a stored Session |
| Text.IsDigits | bot.py:42 | `str.isdigit`: non-empty and every character a decimal digit |
| Text.IsSpace | bot.py:222 | `str.isspace` on one character: Python's set of whitespace code points |
| Text.Join | bot.py:45-47 | the pieces with the separator between them; `Text.JoinSplit` makes it the inverse of `split`, and `Parsing.ExtractedMeaning` states the parsed name as the kept tokens joined by single spaces |
| Text.Split | bot.py:41 | `split` with one separator: never an empty list, and no piece contains the separator |
| Text.JoinSplit | bot.py:219 | joining the pieces of a split with the separator gives back the payload |
| Text.IndexOf | utils.py:8 | `find` on a present character: the first position holding it |
| Text.Strip | bot.py:96 | `strip`: the result neither starts nor ends with whitespace |
| Text.StripSlice | bot.py:222 | what `strip` keeps is the characters of the input from where the leading whitespace ends, in order and unchanged |
| Text.StripRemovesSpace | bot.py:222 | everything `strip` removes, before and after what it keeps, is whitespace |
| Text.StripRightOfSuffix | bot.py:222 | what `rstrip` removes from the end of a suffix of a string is whitespace of that string |
| Text.StripTrimmed | bot.py:106 | a string with no whitespace at either end is its own strip, so `strip` is idempotent |
| Text.Abs | bot.py:98 | `abs`: non-negative and equal to x or -x |
| Text.StripLeft | bot.py:222 | `lstrip`: the result is a suffix of the input, everything dropped before it is whitespace, and it does not start with whitespace |
| Text.StripRight | bot.py:222 | `rstrip`: the result is a prefix of the input, everything dropped after it is whitespace, and it does not end with whitespace |
| Text.DigitsValue | bot.py:43 | `int` on a digit string, leading zeros allowed: the definition; `Text.ShowNatRoundTrip` and `Text.DigitsValueZero` state what it reads |
| Text.DigitsValueZero | bot.py:42 | a digit token is worth zero (falsy) exactly when all its digits are '0' |
| Text.ShowNatRoundTrip | bot.py:43 | `int` reads back every natural number from its decimal rendering |
| Text.ParseDecimal | bot.py:31-36 | `is_digit` and `float`: a value exactly where `float` succeeds on a signed decimal numeral; the definition, whose meaning the `Text.ParseDecimal…` lemmas state |
| Text.ParseDecimalNeedsDigit | bot.py:31-36 | `is_digit` refuses any text without a digit ("", ".", "-", words) |
| Text.ParseDecimalDigits | bot.py:31-36 | `is_digit` accepts a digit string with or without a sign, and `float` reads it as the signed integer it spells |
| Text.ParseDecimalShowNat | bot.py:31-36 | `float` reads back every natural number from its decimal rendering |
| Text.ParseDecimalFraction | bot.py:97-98 | `float` reads `whole.frac` as the whole part plus the value of the fraction digits |
| Text.ParseDecimalOneAndHalf | bot.py:97-98 | the price in `/set coke=1.5` reads as 1.5 |
| Text.ParseUnsignedSplit | bot.py:31-36 | an unsigned numeral is split at its first '.' into the whole and the fraction digits |
| Text.FirstIndex | utils.py:8 | `find` returns the position with no earlier occurrence of the character |
| Text.ParseDecimalUnsigned | bot.py:31-36 | text without a leading sign is read as an unsigned numeral |
| Parsing.ExtractStep | bot.py:42-47 | one iteration of the loop: the definition; `Parsing.ShiftPastToken` and `Parsing.ExtractWordsQuantitySet` state what it does |
| Parsing.Extracted | bot.py:38-51 | the value `extract_order_details` returns: the definition; `Parsing.ExtractedMeaning` states it independently |
| Parsing.ExtractOrderDetails | bot.py:38-51 | the loop returns the value of the recursive definition, and the quantity is at least 1 |
| Parsing.FirstQuantityToken | bot.py:42 | the first token that settles the quantity (all digits, non-zero), with no such token before it |
| Parsing.NonDigitTokens | bot.py:44-47 | exactly the tokens that are not all digits |
| Parsing.QuantityOf | bot.py:49 | the quantity is at least 1: a missing or zero quantity gives 1 |
| Parsing.AppendAllNonEmpty | bot.py:45-47 | appending words to a non-empty name joins them with single spaces |
| Parsing.AppendAllEmpty | bot.py:45-47 | appending to the empty name drops the leading empty words and joins the rest with single spaces |
| Parsing.ExtractWordsQuantitySet | bot.py:42-47 | once the quantity is set, every later token, digits included, goes into the name |
| Parsing.ShiftPastToken | bot.py:42-47 | a token that does not settle the quantity goes into the name unless it is all digits |
| Parsing.ExtractWordsQuantityUnset | bot.py:41-47 | while the quantity is unset, the loop's result is the first quantity token and the name tokens around it |
| Parsing.ExtractedMeaning | bot.py:38-51 | the quantity is the value of the first all-digit token not worth zero, or 1; the name is every other token except the zero-valued digit tokens before it, in order, joined by single spaces, with leading empty tokens leaving no trace |
| Parsing.ExtractedLeadingQuantity | bot.py:41-51 | "2 coke" gives quantity 2 and name "coke" |
| Parsing.ExtractedNoQuantity | bot.py:41-51 | "coke" gives quantity 1 and name "coke" |
| Parsing.ExtractedZeroQuantity | bot.py:41-51 | "0 coke" gives quantity 1 and name "coke": the "0" token is consumed but leaves the quantity unset |
| Utils.IsQuantityMarker | utils.py:8 | the `Nx` test: the word ends in 'x' and the text before its first 'x' is a non-empty digit string |
| Utils.IsPriceMarker | utils.py:11 | the `$N` test: the word starts with '$' and the rest is a non-empty digit string |
| Utils.DetailsStep | utils.py:6-15 | one iteration of the loop: the definition; `Utils.QuantityAndPriceDisjoint` and the `Last…Wins` lemmas state what it does |
| Utils.OrderDetails | utils.py:3-17 | the value `get_order_details` returns: the definition; the `Utils` lemmas below state the marker grammar about it |
| Utils.GetOrderDetails | utils.py:3-17 | the loop returns the value of the recursive definition over the split words |
| Utils.NoQuantityMarker | utils.py:8-9 | words with no `Nx` marker leave the quantity as it was |
| Utils.LastQuantityMarkerWins | utils.py:6-9 | the quantity is the one of the last `Nx` marker |
| Utils.NoPriceMarker | utils.py:11-12 | words with no `$N` marker leave the price as it was |
| Utils.LastPriceMarkerWins | utils.py:6-12 | the price is the one of the last `$N` marker, wherever it stands |
| Utils.NoNameWord | utils.py:13-15 | words that are all markers leave the name as it was |
| Utils.LastNameWordWins | utils.py:13-15 | the name is the last plain word, not a concatenation of words |
| Utils.QuantityAndPriceDisjoint | utils.py:8-11 | no token is both a quantity marker and a price marker |
| Utils.DefaultsWhenUnclassified | utils.py:4-5 | with no token of a kind, that field keeps its default: quantity 1, price None, name None |
| Utils.MarkerExamples | utils.py:8-15 | "3x" is 3, "1x2x" is 1, "$12" is 12.0, and a bare "x", "$" or "" is a plain word |
| Ledger.FragmentDetails | bot.py:222 | a fragment is stripped, then parsed by `extract_order_details`; /delete does the same at bot.py:260 |
| Ledger.AddToRow | bot.py:229-243 | one valid `add_order` fragment on the rows: the definition; `Ledger.AddToRowView` states its effect on the view |
| Ledger.DeleteFromRow | bot.py:262-271 | one `delete_order` fragment on the rows: the definition; `Ledger.DeleteFromRowView` states its effect on the view |
| Ledger.SetPrices | bot.py:95-99 | the `set_price` loop on the rows: the definition; `Ledger.SetPricesSkipsNonNumeric` and `Ledger.SetPricesInvariant` state what it does |
| Ledger.AddedViewOk | bot.py:229-243 | adding a positive quantity under a non-empty name keeps every line well-formed |
| Ledger.DeletedViewOk | bot.py:263-271 | deleting keeps every line well-formed, adds no key, and raises no quantity |
| Ledger.CascadedViewOk | bot.py:84-85 | removing a session's lines keeps every line well-formed |
| Ledger.RepricedViewOk | bot.py:97-99 | a non-negative price keeps every line well-formed, and no line appears or disappears |
| Ledger.AddThenDelete | bot.py:229-271 | deleting n of an item just added n times gives back the ledger as it was |
| Ledger.ViewDomain | db.py:33-35 | a key is in the view exactly when some row carries it |
| Ledger.ViewAt | db.py:33-37 | with unique keys, each row is what the view holds under its key |
| Ledger.ViewSize | db.py:33-35 | with unique keys, there are as many rows as keys in the view |
| Ledger.ViewReplace | bot.py:235 | rewriting a row in place under the same key rewrites only its line |
| Ledger.RemoveAtUnique | bot.py:269 | deleting a row keeps one row per key |
| Ledger.ViewRemove | bot.py:269 | deleting a row takes exactly its key out of the view |
| Ledger.RemoveAt | bot.py:269 | the rows without the i-th one, the others in order |
| Ledger.GetUnique | bot.py:229-231 | with unique keys the lookup never raises; NotFound exactly when the key has no line; Found points at the key's row |
| Ledger.AddToRowView | bot.py:229-243 | an existing row grows by exactly the quantity and no row appears; otherwise exactly one row with that quantity and no price is inserted |
| Ledger.AddFragments | bot.py:219-243 | the fragment loop keeps one row per key |
| Ledger.AddStopsAtFirstInvalid | bot.py:219-226 | fragments before the first one with an empty name stay applied; it and the later ones are not; the outcome is InvalidOrder exactly when there is such a fragment |
| Ledger.AddTwice | bot.py:229-243 | adding q1 and then q2 of a new item leaves one row with q1 + q2 and no price |
| Ledger.AddFragmentsInvariant | bot.py:219-243 | add_order keeps the ledger invariant; no line disappears; every line other than the sender's in this session keeps its presence and its value |
| Ledger.DeleteFromRowView | bot.py:260-271 | a quantity at least the row's deletes the row; a smaller one lowers it by exactly that; a missing row means no change |
| Ledger.DeleteFragments | bot.py:257-271 | the fragment loop keeps one row per key |
| Ledger.DeleteFragmentsInvariant | bot.py:257-271 | delete_order keeps every surviving quantity positive, only removes or lowers lines, keeps each surviving line's price, and leaves every line of other users or sessions as it was |
| Ledger.DeletedViewFrame | bot.py:262-271 | one delete fragment touches only its own key and keeps the price of a line it keeps |
| Ledger.DeleteFrame | bot.py:257-271 | the whole delete_order loop changes only the sender's lines in this session, and each line it keeps keeps its price |
| Ledger.UpdatePrice | bot.py:99 | every row of that session and name gets the price; every other row is unchanged |
| Ledger.UpdatePriceView | bot.py:99 | the bulk update sets the price of exactly the session's lines of that name, and keeps keys unique |
| Ledger.AbsNumeral | bot.py:97-98 | a value is produced exactly when the text is numeric, and it is the numeral's absolute value |
| Ledger.SetPricesSkipsNonNumeric | bot.py:95-99 | a well-formed pair with a non-numeric value has no effect on the result of the other pairs |
| Ledger.SetPricesInvariant | bot.py:95-99 | set_price keeps the ledger invariant and adds or removes no line |
| Ledger.RepricedViewFrame | bot.py:99 | one bulk update adds or removes no line, changes no quantity, and changes nothing outside its session |
| Ledger.SetPricesFrame | bot.py:95-99 | the whole set_price loop adds or removes no line, changes no quantity, and leaves every other session's lines as they were |
| Ledger.UpdatePriceInvariant | bot.py:97-99 | one bulk update with a non-negative price keeps the ledger invariant and adds or removes no line |
| Ledger.ResolveFromView | db.py:33 | if every line's session is stored, every Order refers to a stored Session |
| Ledger.ViewFromResolve | db.py:33 | if every Order refers to a stored Session, so does every line |
| Ledger.AddToRowKeeps | bot.py:229-243 | one valid add_order fragment keeps the ledger invariant and keeps every Order referring to a stored Session |
| Ledger.DeleteFromRowKeeps | bot.py:262-271 | one delete_order fragment keeps the ledger invariant and keeps every Order referring to a stored Session |
| Ledger.CascadeUnique | db.py:33 | the cascade on Orders keeps one row per key |
| Ledger.CascadeView | db.py:33 | the cascade on Orders removes exactly the session's lines from the ledger and keeps every other line as it was |
| Aggregation.Select | bot.py:141-143 | `$match`: exactly the rows with that key |
| Aggregation.SelectInOrder | bot.py:141-143 | `$match` keeps the matching rows in collection order, each exactly once |
| Aggregation.SelectKeys | bot.py:141-147 | the names (or users) among the matched rows are exactly those of the session's rows |
| Aggregation.FindGroup | bot.py:146-147 | the position of the group with that key, when there is one; None exactly when no group has it |
| Aggregation.GroupBy | bot.py:146-151 | a `$group` stage: the definition; `Aggregation.GroupByKeys` and `Aggregation.GroupByFolds` state what it computes |
| Aggregation.GroupByKeys | bot.py:146-147 | `$group`: one group per distinct key, and the group keys are exactly the row keys |
| Aggregation.GroupByFolds | bot.py:146-151 | each group's accumulator is the fold over exactly the rows with its key, in order |
| Aggregation.GroupCount | bot.py:146-147 | the number of groups is the number of distinct keys |
| Aggregation.UserOrders | bot.py:128 | `/me` lists exactly the sender's Orders in this session |
| Aggregation.UserOrdersSnoc | bot.py:128 | a row appended to the collection is appended to the sender's list exactly when it is the sender's row in the session |
| Aggregation.UserOrdersInOrder | bot.py:128 | `/me` lists the sender's rows of the session in collection order, each exactly once |
| Aggregation.UnknownOrders | bot.py:194 | exactly the Orders with no price, from every session |
| Aggregation.UsersOf | bot.py:150 | one (username, quantity) entry per row, in row order |
| Aggregation.StartTotals | bot.py:148-150 | the accumulators on a group's first row: its quantity, its price, and a one-entry user list |
| Aggregation.AddTotals | bot.py:148-150 | each further row adds its quantity, keeps the first price, and appends its user entry |
| Aggregation.AccumulateTotals | bot.py:148-150 | a group's quantity is the sum of its rows, its price is the first row's, and its users are one entry per row |
| Aggregation.AllOrders | bot.py:140-153 | the `all_orders` pipeline: the definition; `Aggregation.AllOrdersMeaning` states it |
| Aggregation.AllOrdersMeaning | bot.py:140-153 | one group per name ordered in this session; each group's quantity is the sum over that name's rows, its price the first row's, and its users one entry per row |
| Aggregation.RowNet | bot.py:184 | a row's price × quantity, or nothing for an unpriced row |
| Aggregation.AddNet | bot.py:184 | the `$sum` step: the running net plus the row's price × quantity |
| Aggregation.AccumulateNet | bot.py:184 | a user's net is the sum of price × quantity over the user's priced rows |
| Aggregation.Usernames | bot.py:171 | the distinct usernames of the whole Order collection |
| Aggregation.NormalizedCharge | bot.py:173-175 | the charge divided by the number of users, or 0 when there are none; `Aggregation.NormalizedChargeSplits` states what it means |
| Aggregation.NormalizedChargeSplits | bot.py:166-175 | with N users the charge is split into N equal shares that add back up to it; with none it is 0, with no division |
| Aggregation.BillLines | bot.py:187-190 | each line's total is its net plus the normalised service and tax |
| Aggregation.MakeBill | bot.py:166-194 | the `bill` handler's value: the definition; `Aggregation.BillMeaning` and `Aggregation.ChargesSplit` state it |
| Aggregation.UserGroups | bot.py:177-186 | the bill's `$match` and `$group`: the session's rows grouped by username, each with its net; `Aggregation.BillMeaning` states it |
| Aggregation.BillMeaning | bot.py:166-194 | one line per distinct user of this session; net is the sum over that user's rows here; total = net + service/N + tax/N; the unknown orders are exactly the unpriced rows |
| Aggregation.BillLineUsers | bot.py:177-190 | the bill's lines name each distinct username of the session exactly once, and there are as many lines as such users |
| Aggregation.BillLinesKeys | bot.py:187-190 | the `$addFields` stage keeps each group's username on its line, so distinct groups give distinct lines |
| Aggregation.BillLineAmounts | bot.py:177-190 | each line's net is the user's priced total in the session, and its total adds service/N and tax/N |
| Aggregation.BillUsers | bot.py:177-186 | the bill's users are exactly the session's distinct usernames, each once |
| Aggregation.SharesProduct | bot.py:188-190 | k lines each charged the same share are charged k × share in all |
| Aggregation.ExtrasEqualShares | bot.py:188-190 | the service and tax added across the bill are one share per line |
| Aggregation.BillSize | bot.py:171-186 | the bill has at most as many lines as the collection has distinct usernames |
| Aggregation.BillExtras | bot.py:188-190 | the service and tax added across the bill are the same share once per line |
| Aggregation.ChargesSplit | bot.py:166-190 | the bill never charges more than service + tax in all; it charges exactly that when every user of the collection is in this session |
| Aggregation.ShareBound | bot.py:171-175 | k ≤ N users each charged service/N + tax/N pay at most service + tax, and exactly that when k = N > 0 |
| Bot.Database.Valid | db.py:15-39 | the store invariant every handler keeps: unique chat ids and usernames, every reference resolving, non-negative service and tax, and the ledger invariant |
| Bot.Database.constructor | db.py:15-39 | the store starts empty and valid |
| Bot.Database.SessionCheck | bot.py:10-29 | the chat's session exactly when it has one; None otherwise |
| Bot.Database.StartSession | bot.py:65-78 | a chat that already has a session changes nothing and is refused; otherwise a new session with defaults is stored |
| Bot.Database.EndSession | bot.py:80-86 | without a session, nothing changes; otherwise the session goes, and with it exactly its Orders and bindings |
| Bot.RepriceRows | bot.py:99 | the update loop gives the bulk price update: each row of that session and name gets the price, the others stay |
| Bot.Database.UpdatePrices | bot.py:97-99 | with a non-negative price the stored rows become the bulk price update and the store stays valid |
| Bot.Database.SetPrice | bot.py:88-99 | the pairs are applied as the set_price loop defines; a malformed pair raises after the earlier pairs; the sessions are unchanged |
| Bot.Database.SetService | bot.py:101-109 | a numeric text stores its absolute value as the session's service; other text changes nothing |
| Bot.Database.SetTax | bot.py:111-119 | a numeric text stores its absolute value as the session's tax; other text changes nothing |
| Bot.Database.MyOrders | bot.py:121-130 | exactly the sender's Orders in this session, in collection order and each once, or the no-session reply |
| Bot.Database.AllOrders | bot.py:132-157 | the session's groups by name, or the no-session reply |
| Bot.Database.Bill | bot.py:159-204 | the session's bill, or the no-session reply; the service and tax charged across the bill never exceed the session's service + tax |
| Bot.AddRow | bot.py:229-243 | the lookup and save give `Ledger.AddToRow`, so keys stay unique and the view becomes the increment-or-insert of one valid fragment |
| Bot.Database.AddOne | bot.py:229-243 | one valid fragment increments or inserts the sender's row and keeps the store valid |
| Bot.Database.AddOrder | bot.py:206-243 | the fragments are applied left to right as the add_order loop defines; 'Invalid order' exactly when a fragment has no name; without a session nothing changes |
| Bot.DeleteRow | bot.py:262-271 | the lookup and update give `Ledger.DeleteFromRow`, so keys stay unique and the view becomes the delete-lower-or-keep of one fragment |
| Bot.Database.DeleteOne | bot.py:262-271 | one fragment removes, lowers or leaves the sender's row, and keeps the store valid |
| Bot.Database.DeleteOrder | bot.py:245-271 | the fragments are applied left to right as the delete_order loop defines; without a session nothing changes |
| Bot.FragmentTwoCoke | bot.py:222 | the fragment "2 coke" is quantity 2 of "coke" |
| Bot.FragmentCoke | bot.py:222 | the fragment "coke" is quantity 1 of "coke" |
| Bot.AddOneNewFragment | bot.py:219-243 | a fragment whose key has no row appends one new unpriced row with its quantity, and nothing else changes |
| Bot.AliceAddsTwoCoke | bot.py:219-243 | alice's "2 coke" on an empty collection creates the single row (alice, coke, 2, unpriced) |
| Bot.BobAppendsCoke | bot.py:219-243 | bob's "coke" on the collection holding alice's row appends one row (bob, coke, 1, unpriced) after it |
| Bot.BobAddsCoke | bot.py:219-243 | bob's "coke" next appends his own row (bob, coke, 1) after alice's, which stays as it was |
| Bot.CokePricePair | bot.py:95-98 | the pair "coke=1.5" splits at `=` into the name "coke" and the numeric price 1.5 |
| Bot.SetCokeIsUpdate | bot.py:95-99 | on any collection `/set coke=1.5` is the one bulk update of the session's coke rows to 1.5 |
| Bot.RepriceBothCoke | bot.py:99 | that update prices both coke rows of the session |
| Bot.SetCokePrice | bot.py:95-99 | `/set coke=1.5` gives alice's and bob's rows the price 1.5 and keeps their quantities |
| Bot.ExampleGroups | bot.py:177-186 | the bill's `$group` gives alice the net 2 × 1.5 = 3.0 and bob 1 × 1.5 = 1.5, in order of first appearance |
| Bot.UnchargedShare | bot.py:166-175 | with no service and no tax (a fresh session's defaults) each user's share is 0 |
| Bot.BillOfExample | bot.py:166-194 | the bill of the priced rows has the lines (alice, 3.0, 3.0) and (bob, 1.5, 1.5) |
| Bot.TwoUsersOneBill | bot.py:88-243 | the whole exchange (alice adds "2 coke", bob adds "coke", `/set coke=1.5`, bill) ends with alice's net 3.0 and bob's 1.5 |

## Left out

- Telegram transport is not modelled: `Updater`, handler registration, `reply_text` and `main`. Each handler returns a `Reply` value instead of sending a message.
- Rendering through Jinja templates is not modelled. The replies carry the data the templates would show.
- Reading the YAML configuration and connecting to MongoDB are not modelled.
- Each handler takes its payload as a parameter; how the payload is cut from the message belongs to the transport. The source uses `str.replace`, which removes the command word everywhere in the text, not only at its start:
  - `/add` removes every occurrence of `/add` (bot.py:215, 217). So "/add 2 coke + /add burger" orders 2 coke and 1 burger.
  - `/delete` removes every occurrence of `/delete` (bot.py:255). When the command replies to a message, it removes `/add` from the replied-to text instead (bot.py:253).
  - `/set`, `/service` and `/tax` remove every occurrence of `/set `, `/service ` and `/tax `, each with its trailing space (bot.py:93, 106, 116).
- `is_digit` and `float` are modelled on decimal numerals with an optional sign only. Exponents, `inf`, `nan`, underscores and surrounding whitespace, which Python's `float` also accepts, are not.
- `isdigit` is modelled on the ASCII digits; Python also accepts other Unicode digits. `isspace` follows Python's set of whitespace characters.
- The `message_id` fields are omitted. `Order.message_id` is declared required (db.py:38), and mongoengine's `save()` validates required fields, so `order_object.save()` at bot.py:243 as written raises `ValidationError` for every new Order and `add_order` never inserts a row. The model inserts the row, as the handler evidently intends.
- Aggregation.BillMeaning: a user's net is stated over the priced rows only. Mongo's treatment of a missing price in `$multiply` is library behaviour; the unpriced rows are reported through `UnknownOrders`.
- Aggregation.AllOrders: groups come in order of first appearance. Mongo's `$group` promises no output order.
- Username `None`, for a Telegram user without a username, is not modelled. Usernames are strings.
- UserSession documents are never created by the handlers. The model keeps the collection, its keying and its cascade, and every handler leaves it unchanged.
- Ledger.GetUnique: `MultipleObjectsReturned` from `Order.get` is excluded by the ledger invariant rather than raised. The handlers never create two rows with the same key.
- Stored integers are not bounded. MongoDB stores an `IntField` in at most 8 bytes, and pymongo raises `OverflowError` when saving a quantity of 2^63 or more (or below -2^63). Dafny's `int` is unbounded, so the model accepts any quantity.
- Concurrency between handlers is not modelled; each handler runs to completion before the next.
