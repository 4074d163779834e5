# Verification of the trading servers

This project models the account engine of the transaction server `src/transServer.c`, and the parts of the load
balancer, the workload generator and the log server that meet it, and proves what these promise each other.
`src/transServerWeb.c` holds the same engine behind another queue and is not modelled twice.

* **Accounts** (`Accounts`, `AccountSafety`, `AccountRuns`, `AccountClash`, `AccountLosses`, `AccountMoney`, `AccountMeaning`,
  `AccountEffects`).  One user's balance, pending order, holdings and triggers, and the commands and the trigger firings
  that change them; what each leaves behind, pays and answers.  A step from a safe account is safe if and only if a
  condition on the amounts and the pending sale holds; so is a run.  In the server's own reading of the amounts money is
  conserved on every run, and the exact condition is proved under which the books balance.
* **The user object** (`Users`).  The same commands as methods that update the fields and the two tries in place, each
  proved to do what the step functions say.
* **Database** (`Rows`, `Mirror`, `Recovery`, `Ledger`).  Tables without uniqueness, the statements that are sent, the
  exact condition under which tables and memory agree, the reloading of a user, and the exact condition under which the
  transaction rows in the table add up to what became of the account.
* **Tries** (`TrieSpec`, `TrieHeap`, `TrieOrder`, `TrieWalk`).  Nodes with parent pointers and child tables, refined to
  sets of paths; the exact effect of both removals; the two-pass listing.
* **Trigger rings and the sweep** (`Rings`, `SweepAlone`, `SweepCrowd`, `SweepWorld`, `Index`).  The linked ring, the
  loop with its moving sentinel alone and with triggers being added and cancelled, and the agreement of rings and tries.
* **Threads** (`Workers`, `Rendezvous`, `LockOrder`, `Queues`).  Permits and hunting, the exchange with the database
  workers, the order of the mutexes, and the linked queues.
* **Text and routing** (`Prices`, `Messages`, `Names`, `Quotes`).  Amounts, delimited messages and log records, identifiers
  and routing, and the quote cache with the age of committed prices.

Amounts are integers of cents, of any size.  Text is a sequence of `char` values in their signed range.  Times, quotes,
the answers of trylocks and the order of threads are choices of the environment.

## What was found

The model follows the code also where the code departs from what it seems meant to do.

* `str2price` accepts almost every three-character text with a point in the middle, and some of them as negative
  amounts, "/.0" as minus one dollar: `ShortTextsAlmostAllAccepted`, `NegativeExactly`, `NegativeDeposit`.
* A single decimal is read as cents by the server and as tenths by the database: `SqlAgreement`, `StepTablesByText`.  So
  a deposit of "12.5" is booked as 12.50 and raises the balance by 12.05, and the books balance after every step exactly
  if no such deposit goes through: `TenthsBooked`, `RunsBalanceExactly`.
* `removeTrigger` starts its pruning one letter early.  Removing the trigger on "ABC" takes the one on "ABB" out of the
  trie: `RemoveTriggerExact`, `CasualtiesExactly`, `DoubledLetterReachable`.  The lost trigger stays in the ring and in
  the table, and its reserved money is out of the user's reach.  Which events do this is decided by their guards and by
  the keys in the trie, and exactly then conservation, the indexes and the mirror fail: `LosesNothingExactly`,
  `RunsBalanceExactly`, `RunsAgreeExactly`, `SweepAgreesExactly`, `RunsTablesExactly`.
* A sell trigger that fires while a sale of its stock is pending can make the holding negative: `ClashOverdraws`,
  `ClashReachable`.
* After a failed trylock the sweep unlocks a mutex that it does not hold, exactly once for each failure: `Sweep`.  This
  can take the stock's mutex away from a command that is changing the ring: `StealingReachable`.  As long as no trylock of
  the sweep fails, no mutex is taken away and none is shared: `RunsOwnExactly`, `TidyRunsExclude`.  No circle of waiting
  threads comes of it in any case: `NoDeadlock`.
* If the only trigger of a stock fires while another is added at the wrong moment, the sweep of that stock never ends
  as long as it has triggers: `DanglesExactly`, `DanglingReachable`, `AdriftForEver`.  The same happens when the
  sentinel's trigger is cancelled beside others: `CancelDriftsExactly`, `CancelledSentinelGoesOn`.  Among additions and
  cancellations nothing else takes a sweep off its course: `CourseExactly`.
* A deposit made before the account row exists is written to no balance: `LateAccountRow`.

## Model

| member | source | states |
|---|---|---|
| Prices.ParseChars | src/transServer.c:2629-2663 | `str2price` computes the decimal grammar's value, and the unchecked value of any three characters around a point; -1 exactly where the specification says |
| Prices.ParsePrice | src/transServer.c:2629-2632 | NULL is refused; other text goes to the grammar |
| Prices.BeforeComma | src/loadBalancer.c:900-901 | the field that the load balancer parses is comma-free and ends at the first comma |
| Prices.ParseQuoteField | src/loadBalancer.c:895-932 | the load balancer's parser agrees with the server's on the text before the first comma |
| Prices.PriceRoundTrip | src/transServer.c:2620-2663 | printing and parsing any amount of zero or more gives it back, and the database reads the same number |
| Prices.CanonicalRoundTrip | src/transServer.c:2620-2663 | parsing and printing gives back every two-decimal text without superfluous zeros |
| Prices.LongTextsFollowGrammar | src/transServer.c:2644-2663 | from four characters on, failure is exactly not being a decimal, and accepted amounts are not negative |
| Prices.ShortTextsAlmostAllAccepted | src/transServer.c:2634-2643 | exactly two three-character texts with a point in the middle fail; "/.0" is minus one dollar |
| Prices.NegativeExactly | src/transServer.c:2634-2643 | an amount is read as less than the failure value if and only if the text is three characters around a point with its first below '0', or '0' and its third below '/', or '1' and its third below -53 |
| Prices.SqlAgreement | src/transServer.c:2646-2662 | server and database read an amount alike if and only if it has two decimals or its one decimal is zero |
| Prices.PriceTextFits | src/transServer.c:786-787 | a printed amount fits its twenty-byte buffer if and only if it is below 10^18 cents |
| Messages.Split | src/transServer.c:2666-2703 | both splitters, and the loader's, return the pieces between delimiters up to the limit, none for empty text |
| Messages.JoinOfFields | src/transServer.c:2666-2703 | joining what was split restores the text, for every text and limit |
| Messages.PiecesOfJoin | src/transServer.c:2685-2703 | splitting what was joined restores the pieces; with a limit the last may hold delimiters |
| Messages.TrimmedEnds | src/transServer.c:648-651 | a space, a carriage return and a line feed are trimmed in this order, each if it is there; a line feed before a carriage return stays |
| Messages.CommandRoundTrip | src/transServer.c:646-688 | a formatted command is parsed back to itself if and only if its last character is not one that is trimmed |
| Messages.ParsedJoinsBack | src/transServer.c:648-688 | every message that parses formats to its own trimmed text |
| Messages.LogRoundTrip | src/logServer.c:249-297 | a comma-free `userCmd` record is read back with exactly its optional fields if and only if none supplied begins with a space |
| Names.CheckUser | src/transServer.c:3221-3238 | a user ID passes exactly if it is ten letters or digits |
| Names.CheckStock | src/transServer.c:3240-3255 | a stock ID passes exactly if it is three capital letters |
| Names.IndexesInjective | src/transServer.c:2581-2594 | the 62-way, 26-way and 2x26-way child indexes are injective and within their tables |
| Names.IndexesSpell | src/transServer.c:2581-2594 | a user index is the character's place among digits, small letters and capitals, a stock index its place among capitals, a trigger index the same with sells behind all buys |
| Names.TriggerPathInjective | src/transServer.c:2179-2186 | triggers of different type or stock have different paths |
| Names.StockPathInjective | src/transServer.c:2106-2110 | different stocks have different paths |
| Names.UserSort | src/transServer.c:3257-3271 | the loop computes the sum of letter values, reduced, and 0 for a letter without a value |
| Names.LettersAddUp | src/transServer.c:3257-3271 | the sum of letters is additive over parts, and one letter counts its place |
| Names.AssignServers | src/Workload.c:108-110 | queue `i` is connected to server `i` modulo the number of servers |
| Names.ShardOfQueue | src/Workload.c:236-250 | reducing by the queues first keeps the shard of every user if and only if the shard count divides the queue count |
| Names.RoutingAgrees | src/Workload.c:163-173 | for every identifier the server of its queue has the index of its shard |
| TrieSpec.PutKeepsForm | src/transServer.c:2205-2228 | adding keeps the nodes linked and no node empty |
| TrieSpec.LookupAfterPut | src/transServer.c:2198-2232 | a lookup after an add finds the object added, or the older one; other keys are undisturbed; adding twice changes nothing |
| TrieSpec.RemoveDeletesExactlyOneKey | src/transServer.c:2061-2093 | removal with the full bound deletes exactly its key and leaves no empty node but the root |
| TrieSpec.PrunedDetermined | src/transServer.c:2073-2091 | a pruned trie is determined by its contents |
| TrieSpec.RemoveUndoesPut | src/transServer.c:2061-2166 | removing a key just added restores the whole trie |
| TrieSpec.RemoveShortEffect | src/transServer.c:2008-2059 | the exact contents after removal with the bound one short: the key, and the subtree that goes astray, are gone |
| TrieSpec.RemoveTriggerExact | src/transServer.c:2011-2057 | `removeTrigger` deletes exactly one key if and only if neither of two situations in the trie holds |
| TrieSpec.CasualtiesExactly | src/transServer.c:2039-2057 | exactly which keys of the trie go with the removed one |
| TrieSpec.RemoveTriggerLosesDoubledLetter | src/transServer.c:2039-2057 | the key with the second letter doubled is lost when the last two letters differ |
| TrieSpec.DoubledLetterReachable | src/transServer.c:2039-2057 | that happens two adds away from the empty trie |
| TrieSpec.RemoveShortKeepsForm | src/transServer.c:2039-2057 | whatever slot is cleared, the trie stays well formed and loses no other keys than those said |
| TrieOrder.WalkListsEveryKeyOnce | src/transServer.c:1875-1897 | the walk lists every stored key exactly once, in key order |
| TrieHeap.Trie.Seek | src/transServer.c:2171-2194 | the walk down finds the node of a key if there is one |
| TrieHeap.Trie.Get | src/transServer.c:2168-2196 | lookup in the linked nodes is lookup in the abstract trie |
| TrieHeap.Trie.Assign | src/transServer.c:1055 | updating a stored object changes that key only |
| TrieHeap.Trie.Child | src/transServer.c:2205-2228 | one turn of the adding loop makes the child node and its table only where missing |
| TrieHeap.Trie.Add | src/transServer.c:2123-2166 | adding to the linked nodes is adding to the abstract trie, and returns what is stored |
| TrieHeap.Trie.AllSlotsEmpty | src/transServer.c:2083-2087 | the loop over the slots tells whether any node is below |
| TrieHeap.Trie.PruneStep | src/transServer.c:2078-2090 | clearing a slot drops the subtree, and frees the table exactly if it was the last |
| TrieHeap.Trie.RemoveFrom | src/transServer.c:2061-2093 | the pruning loop, with either bound, does what the abstract removal does |
| TrieWalk.GetAll | src/transServer.c:1875-1897 | the counting and the filling pass return the same number, and the filling pass writes the objects in walk order and nothing else |
| TrieWalk.ListAll | src/transServer.c:1597-1603 | count, allocate and fill lists all stored objects in key order |
| AccountSafety.PricedMeansUnitPrice | src/transServer.c:997 | a pending sum is a unit price of at least a cent times the number of shares |
| AccountSafety.StepKeepsForm | src/transServer.c:875-1563 | every step keeps the trigger trie well formed and pending orders on valid stocks, whatever the amounts |
| AccountSafety.BuyExact | src/transServer.c:936-1008 | BUY leaves a safe account safe if and only if the amount is above minus the price |
| AccountSafety.SellExact | src/transServer.c:1109-1176 | SELL likewise |
| AccountSafety.CommitSafe | src/transServer.c:1012-1105 | commits and cancels always keep a safe account safe |
| AccountSafety.SetBuyAmountExact | src/transServer.c:1275-1339 | reserving keeps safety if and only if the amount is not negative |
| AccountSafety.SetSellAmountExact | src/transServer.c:1430-1482 | SET_SELL_AMOUNT likewise |
| AccountSafety.CancelSetSafe | src/transServer.c:1343-1383 | cancelling a trigger always keeps safety |
| AccountSafety.FireBuySafe | src/transServer.c:1750-1805 | a firing buy always keeps safety, also over a pending order |
| AccountSafety.FireSellExact | src/transServer.c:1806-1858 | a firing sale keeps safety if and only if it leaves enough shares for a pending sale of its stock |
| AccountSafety.StepSafeExactly | src/transServer.c:875-1563 | from a safe account, a step of any kind is safe if and only if it is admissible |
| AccountRuns.RunsSafeExactly | src/transServer.c:819-1639 | a run stays safe to its end if and only if all its steps are admissible |
| AccountRuns.CleanRunsSafe | src/transServer.c:875-1245 | without texts that are read as negative and without a sell trigger examined during a pending sale of its stock, every run is safe throughout |
| AccountRuns.UsersIndependent | src/transServer.c:835-855 | under every interleaving each account sees exactly its own events in order |
| AccountRuns.SystemSafe | src/transServer.c:835-855 | so all accounts stay safe under every interleaving of admissible events |
| AccountClash.NegativeDeposit | src/transServer.c:875-888 | ADD "/.0" makes the balance of an empty account minus one dollar |
| AccountClash.ClashOverdraws | src/transServer.c:1207-1228 | whenever a firing sale is not admissible, a commit in time goes through and makes the holding negative |
| AccountClash.ClashReachable | src/transServer.c:1806-1829 | that situation is six ordinary commands away from an empty account |
| AccountMoney.StepConserves | src/transServer.c:891-896 | every step changes balance plus reserved amounts by exactly what its statements of transaction rows come to as the server reads them, less the triggers it loses |
| AccountMoney.RunConserves | src/transServer.c:1783-1788 | the same over every run, for all amounts |
| AccountMoney.ExactRunsBalance | src/transServer.c:1364-1374 | on runs none of whose events is selected to take a trigger along, they come to the same, whatever the amounts |
| AccountMoney.StepBalancesExactly | src/transServer.c:1364-1374 | in the server's reading, a step of an account without negative reserved amounts balances if and only if its guards select no key that takes a trigger with reserved money along |
| AccountMoney.RunBalancesExactly | src/transServer.c:1364-1374 | and a whole run, whose triggers are set from texts that are not read as negative, if and only if no step does so |
| AccountLosses.LosesNothingExactly | src/transServer.c:2011-2057 | a step loses no trigger if and only if its guards select no key or one that neither situation of the short bound holds for |
| AccountLosses.RemovalKeepsOthersExactly | src/transServer.c:2011-2057 | a removal leaves all other triggers of its user in the trie if and only if neither situation holds for its key |
| AccountMeaning.BuySpendsMost | src/transServer.c:987-1003 | BUY orders as many shares as the amount pays for, and not one more would fit |
| AccountMeaning.SellRaisesEnough | src/transServer.c:1159-1171 | SELL orders the fewest shares that bring in more than the amount, or all that are held |
| AccountMeaning.SoldMeans | src/transServer.c:1159-1165 | the same for any amount, price and holding |
| AccountMeaning.FiringRefundsRest | src/transServer.c:1757-1783 | a firing buy spends its amount up to less than the price of one share, and gives back the rest |
| AccountMeaning.RefusalsLeaveAccount | src/transServer.c:955-984 | a refused step changes and writes nothing, except that a commit of a timed-out order drops the order |
| AccountMeaning.CommitsExactly | src/transServer.c:1017-1037 | a commit goes through exactly if its order is pending and the quote is not older than 28000 ms |
| AccountMeaning.CancelUndoesOrder | src/transServer.c:1096-1100 | CANCEL_BUY and CANCEL_SELL undo BUY and SELL completely |
| AccountMeaning.CancelUndoesSetBuy | src/transServer.c:1364-1374 | CANCEL_SET_BUY undoes SET_BUY_AMOUNT, and leaves the other triggers in place if and only if neither situation holds for the key once added |
| AccountEffects.OrderGoesByQuote | src/transServer.c:973-1003 | an order that goes through is at the price and time of the cached quote, unless that is older than 28000 ms and then of the quote fetched anew, and changes nothing else |
| AccountEffects.CommitBuyEffect | src/transServer.c:1041-1068 | a commit of a buy adds its shares to what is held, takes its sum from the balance, clears the order, writes one row of the sum, and leaves the rest |
| AccountEffects.CommitSellEffect | src/transServer.c:1207-1228 | a commit of a sale takes its shares, credits its sum, clears the order, writes one row of the sum, and leaves the rest |
| AccountEffects.BuyThenCommit | src/transServer.c:936-1079 | BUY and a commit in time move, at the quote's price, as many shares as the amount pays for |
| AccountEffects.SellThenCommit | src/transServer.c:1109-1245 | SELL and a commit in time move, at the quote's price, the fewest shares that bring in more than the amount, or all |
| AccountEffects.FreshOrderCommits | src/transServer.c:973-1037 | an order whose quote, where it had to be fetched, is not older than 28000 ms can be committed at that moment |
| AccountEffects.FiresExactly | src/transServer.c:1750-1822 | a trigger fires exactly if it is there and ripe: a buy below its price whose amount pays for a share, a sell above its price, that being set and shares held |
| AccountEffects.FireBuyEffect | src/transServer.c:1753-1805 | a firing buy turns its amount into whole shares at the quote, gives back less than the price of one, and leaves the order |
| AccountEffects.FireSellEffect | src/transServer.c:1815-1858 | a firing sale sells the fewest shares that bring in more than its amount, or all, and credits exactly the quote for each |
| AccountEffects.FiringPaysPrice | src/transServer.c:1767-1833 | whatever fires, the shares that come or go are paid at the quote |
| AccountEffects.SimpleEffects | src/transServer.c:888-896 | ADD raises the balance by what its text is read as, a cancel clears the order, and nothing else changes |
| AccountEffects.SetAmountEffect | src/transServer.c:1318-1330 | a new trigger is under its key with the typed amount and no price; a buy's amount leaves the balance |
| AccountEffects.SetPriceEffect | src/transServer.c:1412-1420 | a trigger's price is replaced by the typed one, and nothing else of it |
| AccountEffects.CancelSetEffect | src/transServer.c:1364-1374 | a cancelled trigger is gone with those that it takes along, and a buy's amount is back |
| AccountEffects.RepliesByChecks | src/transServer.c:936-1003 | every command is refused with the code of the first of its checks that fails, and done if none does |
| Users.User.constructor | src/transServer.c:2428-2459 | a new user has an empty account and empty tries |
| Users.User.Add | src/transServer.c:875-905 | ADD in place is the step on the account's value, statements included |
| Users.User.Buy | src/transServer.c:936-1008 | BUY in place is the step; nothing but the five order fields changes |
| Users.User.Sell | src/transServer.c:1109-1176 | SELL in place is the step |
| Users.User.Cancel | src/transServer.c:1083-1105 | CANCEL_BUY and CANCEL_SELL clear the order exactly if there is one on that side |
| Users.User.CommitBuy | src/transServer.c:1012-1079 | COMMIT_BUY in place is the step, with the holding made or updated in its trie |
| Users.User.CommitSell | src/transServer.c:1180-1245 | COMMIT_SELL in place is the step; an order whose holding is missing is left pending |
| Users.User.SetBuyAmount | src/transServer.c:1275-1339 | SET_BUY_AMOUNT in place is the step |
| Users.User.RefuseBuyAmount | src/transServer.c:1277-1316 | its refusals, in their order |
| Users.User.SetSellAmount | src/transServer.c:1430-1482 | SET_SELL_AMOUNT in place is the step |
| Users.User.RefuseSellAmount | src/transServer.c:1432-1469 | its refusals, in their order |
| Users.User.SetTriggerPrice | src/transServer.c:1387-1426 | SET_BUY_TRIGGER and SET_SELL_TRIGGER in place are the step |
| Users.User.CancelSetBuy | src/transServer.c:1343-1383 | CANCEL_SET_BUY in place is the step, with the pruning of `removeTrigger` |
| Users.User.CancelSetSell | src/transServer.c:1531-1563 | CANCEL_SET_SELL in place is the step |
| Users.User.FireBuy | src/transServer.c:1750-1805 | the firing of a buy trigger in place is the step |
| Users.User.FireSell | src/transServer.c:1806-1858 | the firing of a sell trigger in place is the step |
| Rows.InsertRow | src/transServer.c:297 | a row for a new key adds that key to what the table holds |
| Rows.ModifyRow | src/transServer.c:298 | UPDATE changes what the table holds for the key, and nothing where there is no row |
| Rows.DeleteRow | src/transServer.c:304 | DELETE takes exactly the key out |
| Mirror.AddMirrors | src/transServer.c:891-900 | after ADD balance, holdings and triggers in the tables are those in memory if and only if the database reads the typed text |
| Mirror.ReadAlikeExactly | src/transServer.c:2644-2663 | any text but a short one that is no decimal is read alike by database and server if and only if it has two decimals or one that is zero |
| Mirror.CommitBuyMirrors | src/transServer.c:1046-1068 | after COMMIT_BUY those three always agree |
| Mirror.FireBuyMirrors | src/transServer.c:1772-1804 | after a firing buy those three agree if and only if the key it removes, if any, takes no other along |
| Mirror.StepMirrorsExactly | src/transServer.c:294-304 | after any admissible step balance, holdings and triggers agree if and only if a typed deposit was read, any other typed text was read alike, and the key it removes, if any, takes no other along |
| Mirror.LateAccountRow | src/transServer.c:711-720 | a deposit before the account row exists leaves a row that starts at nothing |
| Recovery.RunsMirrorExactly | src/transServer.c:1064-1068 | along a run those three agree throughout if and only if every step is faithful in this sense |
| Recovery.ReloadRestores | src/transServer.c:2495-2557 | from agreeing tables the same balance, holdings and triggers are rebuilt, and no pending order |
| Recovery.RestartRestores | src/transServer.c:2495-2557 | so after every admissible and faithful run of a new user whose row was inserted first and who typed no trigger price that is read as negative |
| Recovery.ExecKeepsKeys | src/transServer.c:297-304 | no statement puts anything but validated stocks into the tables |
| Recovery.Load | src/transServer.c:2495-2557 | the loops of `addUser` build exactly the reloaded account |
| Ledger.StepBooked | src/transServer.c:891-896 | from any tables, a request is carried out if and only if its typed text is read, and its rows then add up to the change of the account, the lost triggers counted, if and only if a deposit is read alike |
| Ledger.StepBooksExactly | src/transServer.c:891-896 | account and transaction rows in the table balance for a step if and only if a deposit is read alike and no reserved money goes with a removed trigger |
| Ledger.TenthsBooked | src/transServer.c:896 | a deposit of "12.5" to any safe account raises the balance by 1205 cents and leaves a row of 1250 |
| Ledger.MisreadDeposit | src/transServer.c:888-896 | in general a deposit raises the balance by the server's number and leaves a row of the database's |
| Ledger.StepTablesExactly | src/transServer.c:294-304 | after any admissible step all four kinds of rows agree with memory if and only if its typed text is read alike and the key it removes, if any, takes no other along |
| Ledger.StepTablesByText | src/transServer.c:2644-2663 | unless that text is short and no decimal, its decimals decide |
| Ledger.RunsTablesExactly | src/transServer.c:1064-1068 | along an admissible run all four kinds of rows agree throughout if and only if every step is of that kind |
| Ledger.RunBooked | src/transServer.c:1783-1788 | on every admissible run balance plus reserved amounts change by exactly what the transaction rows in the table add up to, less the triggers lost and the deposits misread |
| Ledger.RunsBalanceExactly | src/transServer.c:1783-1788 | and they balance after every step if and only if every text is read, every deposit alike, and no reserved money goes along |
| Rings.Ring.Insert | src/transServer.c:2246-2260 | a new trigger goes before `curr`, the end of the circle, and the circle stays doubly linked |
| Rings.Ring.Advance | src/transServer.c:1736-1737 | `curr` moves on and the circle turns |
| Rings.Ring.Remove | src/transServer.c:2017-2028 | exactly that node leaves the circle; the last one leaves NULL |
| SweepAlone.AfterVisit | src/transServer.c:1862 | the loop condition fails exactly after the last trigger, also when the sentinel fires |
| SweepAlone.Visit | src/transServer.c:1735-1860 | one pass through the body: what it does to ring, sentinel and mutex |
| SweepAlone.Sweep | src/transServer.c:1734-1863 | undisturbed, the sweep ends, visits every trigger once in order, leaves exactly those that did not fire, and unlocks an unheld mutex once for each failed trylock |
| SweepCrowd.RingHoldsTheRest | src/transServer.c:1734-1862 | with triggers being added, what was there or was added has fired or is in the ring |
| SweepCrowd.StaysOnCourse | src/transServer.c:1790-1796 | a visit that does not dangle keeps the sentinel at the first trigger passed |
| SweepCrowd.OrderlySweep | src/transServer.c:1734-1862 | with new triggers being added, a sweep that never dangles visits no trigger twice; when it ends it has visited all of its start, first and in order, and exactly their unfired ones are in the ring, in their original order |
| SweepCrowd.DanglesExactly | src/transServer.c:1790-1798 | the sentinel leaves the ring if and only if the lone trigger fires and triggers are added after the sentinel was looked at |
| SweepCrowd.AdriftGoesOn | src/transServer.c:1862 | then the loop goes on exactly as long as there is any trigger |
| SweepCrowd.AdriftForEver | src/transServer.c:1862 | and for ever if none fires |
| SweepCrowd.DanglingReachable | src/transServer.c:1790-1798 | a lone trigger dangles when it fires while another is added after the sentinel was looked at, and the sweep that began there goes on as long as nothing fires |
| SweepCrowd.CancelDriftsExactly | src/transServer.c:2017-2028 | a cancellation sets the sweep adrift if and only if it takes the sentinel and leaves other triggers |
| SweepCrowd.CancelKeepsCourse | src/transServer.c:2017-2028 | any other cancellation keeps the course, with the same triggers to come but that one |
| SweepCrowd.CancelledSentinelGoesOn | src/transServer.c:2017-2028 | after the sentinel was cancelled beside others, the loop goes on exactly as long as there is any trigger, and for ever if none fires |
| SweepCrowd.CourseExactly | src/transServer.c:1734-1862 | among new additions and cancellations a sweep is on course throughout if and only if no visit dangles and no cancellation takes the sentinel and leaves others |
| SweepCrowd.SweepAmongAll | src/transServer.c:1734-1862 | then no trigger is visited twice, the visits are bounded, and at the end every trigger of the start was visited or cancelled |
| SweepCrowd.TurnAmong | src/transServer.c:1734-1862 | on the linked ring, one turn of the loop with triggers added in its windows does what the abstract turn says, its condition included |
| SweepWorld.VisitEffect | src/transServer.c:1734-1860 | a visit on the accounts does to the ring what the loop body does, and keeps the stock's entries in agreement whatever it loses |
| SweepWorld.VisitPaysPrice | src/transServer.c:1734-1860 | the visited trigger fires exactly if its user could be locked and it is ripe at the stock's price; its user's shares are then paid at that price, and no other user changes |
| SweepWorld.SweepAgreesExactly | src/transServer.c:1734-1862 | the same for any number of visits |
| SweepWorld.SweepOfAccounts | src/transServer.c:1734-1862 | a whole sweep leaves exactly the triggers whose firing did not go through, in order, and all indexes in agreement if and only if no firing takes another trigger along |
| Index.TurningKeepsAgreement | src/transServer.c:1736-1737 | moving `curr` keeps the indexes in agreement |
| Index.IndexesAgreeExactly | src/transServer.c:2008-2059 | after a step rings and tries hold the same triggers, each once, if and only if the key it removes, if any, takes no other along |
| Index.RingKeepsOrder | src/transServer.c:2017-2028 | a trigger joins behind all others, and one that leaves is taken from its place, as on the linked ring |
| Index.LostAreOfOtherStocks | src/transServer.c:2039-2057 | a step loses no trigger of the stock that it names |
| Index.JoiningKeepsAgreement | src/transServer.c:2495-2557 | a user that joins with reloaded triggers, added to the rings one by one, keeps the indexes in agreement |
| Index.EmptyWorldAgrees | src/transServer.c:401-431 | they agree where there are no users |
| Index.RunsAgreeExactly | src/transServer.c:2198-2265 | along every interleaving of commands, firings, joining users and turning rings they agree throughout if and only if no removed trigger takes another along |
| Workers.KeepsPermits | src/transServer.c:2705-2725 | queued commands equal free permits, permits held and permits about to be posted, after every action |
| Workers.PermitMeansCommand | src/transServer.c:833-854 | a worker with a permit has a command to find |
| Workers.OneAtATime | src/transServer.c:835-855 | no two workers hold one user, and none does while the sweep or the adding thread does |
| Workers.KeepsOrder | src/transServer.c:2705-2740 | executed, then executing, then queued commands of a user are its enqueued ones in order |
| Workers.InitiallyInvariant | src/transServer.c:808-817 | the start satisfies all of this |
| Workers.ReachableInvariant | src/transServer.c:808-864 | all of this holds in every reachable state, and `cdeq` never returns NULL to a worker |
| Workers.MovesOn | src/transServer.c:811-849 | a worker stays at a user exactly if it gets the lock, or finds a command there, and else is at the next one, as after its command |
| Workers.HuntEnds | src/transServer.c:835-854 | a worker that hunts while no other thread acts takes a command within one lap of the ring if any user is free that has one waiting, whatever locks others hold |
| Workers.FreeHuntEnds | src/transServer.c:835-854 | when all locks are free that is always so |
| Workers.HuntGoesOn | src/transServer.c:835-854 | while others hold all locks, a worker still hunts after any number of tries, and is as many users further round the ring |
| Rendezvous.NoUseAfterFree | src/transServer.c:2914-2923 | no action touches a freed element, and `dbdeq` always finds one |
| Rendezvous.ReadsOwnAnswer | src/transServer.c:898-900 | a woken requester reads the answer to its own request |
| Rendezvous.AnswersStay | src/transServer.c:2914-2916 | an answer is written once, by the worker that serves the element |
| Rendezvous.SemaphoresBack | src/transServer.c:2914-2917 | both semaphores are back at zero between exchanges |
| Rendezvous.TakesOldest | src/transServer.c:2933-2962 | a worker takes the oldest request that nobody has taken |
| Rendezvous.ReachableInTurn | src/transServer.c:2933-2962 | in every reachable state the queue is in the order in which the requests were made |
| Rendezvous.NeverStalls | src/transServer.c:2887-2928 | while a requester waits some exchange can go on |
| Rendezvous.InitiallyInvariant | src/transServer.c:2862-2890 | the start satisfies the protocol's invariant |
| Rendezvous.ReachableInvariant | src/transServer.c:2933-2962 | the invariant holds in every state that any number of threads can reach |
| LockOrder.RoutinesOrdered | src/transServer.c:2381-2480 | every routine's blocking acquires go upwards in rank |
| LockOrder.RoutinesLeave | src/transServer.c:1707-1860 | each routine leaves locked exactly the user or stock that the next one needs, with either outcome of its trylock |
| LockOrder.SomeoneRuns | src/transServer.c:1859-1860 | behind every waiting thread is one that holds a lock and does not wait |
| LockOrder.NoDeadlock | src/transServer.c:1707-1745 | no reachable state of any number of threads has a circle of waiting threads, although an unlock takes a mutex away from whoever holds it |
| LockOrder.TryIsNeeded | src/transServer.c:1740-1744 | with a blocking acquire in place of the sweep's trylock there is such a circle |
| LockOrder.HonestExactly | src/transServer.c:1740-1744 | from a state in which all threads hold what they go by, a step keeps that if and only if it does not unlock what another thread holds |
| LockOrder.RoutinesOwn | src/transServer.c:1740-1745 | a routine unlocks only what it has taken if and only if it is not one that a sweep goes on with after a failed trylock |
| LockOrder.RunsOwnExactly | src/transServer.c:1740-1745 | in a run all threads are about to unlock only what is theirs throughout if and only if no such routine begins |
| LockOrder.TidyRunsExclude | src/transServer.c:1740-1745 | in such a run no mutex is taken away and no two threads go by the same one |
| LockOrder.StealingReachable | src/transServer.c:1740-1744 | thirteen states from the start the sweep unlocks the mutex of a stock whose ring a command is changing |
| Queues.Queue.Enqueue | src/transServer.c:2705-2725 | an addition goes to the end of the linked elements |
| Queues.Queue.Dequeue | src/transServer.c:2727-2740 | the oldest is taken, or NULL exactly when there is none |
| Quotes.SlotInjective | src/loadBalancer.c:322-326 | different stocks have different slots among the 26^3 |
| Quotes.Cache.Ask | src/loadBalancer.c:328-346 | a reply comes exactly from an entry of that slot less than 28000 ms old |
| Quotes.Cache.Store | src/loadBalancer.c:495-504 | storing changes no other stock's entry |
| Quotes.OrderAfter | src/transServer.c:973-1003 | a pending order after a step is the one before, gone, or new at the quote at hand |
| Quotes.ActionKeepsTraced | src/transServer.c:999-1003 | every price in the cache, in a stock object or in an order is traced to a price stored for that stock |
| Quotes.ReachableTraced | src/transServer.c:999-1003 | in every world reachable from an empty one, users with or without reloaded accounts joining |
| Quotes.FetchedIsAtHand | src/transServer.c:999-1003 | a price just fetched and taken over is what an order of its stock goes by, as of now, and no other stock's |
| Quotes.CommitsAtFreshPrice | src/transServer.c:1025-1037 | every commit pays a price that was stored for its stock at most 28000 ms before |
| Quotes.HitIsFreshAndOwn | src/loadBalancer.c:330-333 | a cache hit is that stock's own and less than 28000 ms old |

## Left out

- The sockets, the connecting and the reconnecting, and the setup in `main`: input and output without decidable content.
- The pool of quote threads and its handshake with the quote handler: it depends on timing; a fetched quote is a choice of the environment.
- `removeUser`: it is never called, and its index arithmetic does not match the tries.
- The handshake of the quote queue: its element can be freed before the requester reads it, so nothing is claimed for it.
- The dispatch on the name of a command and the number of its arguments, and QUOTE, DUMPLOG and the text of replies: easy beside the commands.
- XML, PostgreSQL and mxml: libraries that are not part of this model; the tables are abstract and a statement runs whole or not at all.
- SQL syntax: how the database reads a short text that is no plain decimal, such as "-.5", is left open and the results hold for every way; any other text that is no plain decimal counts as refused, and the server never sends one.
- The size of `long int`, `numeric(15,2)` and `integer`, apart from the twenty-byte buffers: amounts are unbounded.
- Transaction IDs: they are kept as text and not read as numbers by the database.
- The NULs that the splitters write into their input: pieces are values, so aliasing between pieces is not captured.
- The child table of a trie node: it is a sequence field of its node and not an array of its own, which no other node shares.
- A trigger or a holding that a command changes: it is replaced in its node, so pointers to it that are held across commands are not captured.
- The firing of a trigger that was lost from its user's trie: its node was freed, so the code uses memory after its release there.
- The memory of threads: reads of `curr`, of a queue's length and of a stock's price and time are taken as atomic.
- Clocks of different machines: the load balancer and the transaction server read one clock.
- Waiting for a semaphore while holding a mutex: the order of locks is about mutexes; that a database request is answered is stated by `NeverStalls`.
- What becomes of a ring that two threads change at once, after a mutex was taken away from one: the operations on a ring are modelled one at a time.
- Messages of two fields: their `message[3]` is what an earlier message left there.
- A trigger cancelled in the midst of another's firing visit: cancellations come between visits.
- The number of triggers added during a sweep without end: the bound on visits counts them.
- Workers.HuntEnds: for a worker that runs while no other thread acts; while others hold every lock a hunt goes on, as `HuntGoesOn` says.
- Prices.ParseQuoteField: requires a comma, because the code reads on through memory until it finds one.
- PHP pages, scripts and server configuration: user interface.
