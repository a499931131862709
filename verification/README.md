# Verification of the trade ledger

A Dafny model of an event-driven prediction-market ledger: trades arrive out of order and more than once, positions are
kept incrementally at average cost, markets resolve and are corrected later, old trades move to an archive, and research
code reads the result. `dafny verify dfyconfig.toml` checks everything.

Tables are maps or sequences, a database commit is one atomic step, floats are reals, times are integers. Rows that the
program updates in place are classes; every such method is proved against a function on the row's value, and the laws
are proved about that function over all inputs or all runs. Failures, page arrivals, generator draws, query orders and
tie orders are universally quantified inputs.

| file | subject |
|---|---|
| `Ledger`, `LedgerRuns` | the position row, all its writers, and what every history of events keeps |
| `Backfill` | the replay of a position from its trades, and when it equals the live row |
| `CostBasis` | the cost basis that sells and settlements are valued with, when it equals the position row, and the laws of the recorded row |
| `RebuildPnl` | the PnL half of the rebuild, with the closed rows the ingest writes and with rows of other origin |
| `Pagination`, `Poller`, `PollerResume` | reading a list that grows at its head; ingesting it in batches that can crash anywhere |
| `Holdings` | end to end: polls, live captures, settlements, closes and purges leave exactly the ledger run over the log of what was committed |
| `Effects` | what one committed trade, settlement or close does to the records, by its own fields, and what the buys of any history add up to |
| `Markets`, `Restamp`, `ConsistencyCheck`, `Settlement`, `Sweep` | market state, stamping trades with results, when the hourly check pages, settling positions, sweep fairness |
| `Calendar`, `Retention` | monthly archive partitions and the archive-then-delete purge |
| `Plateaus`, `Crossings`, `Bootstrap`, `Scoring`, `ExitRules` | the research algorithms |
| `Continuity`, `PriceLevels` | gap list and price-level alerts |
| `Sums`, `Sequences`, `Arithmetic`, `Wrappers` | order-independent sums, filters, products of reals, options |

## Where the code does not keep a promise

Each of these is proved as an exact condition or shown by a concrete input.

- A BUY of size zero on a row that holds nothing leaves it Open with no shares; nothing else breaks the status (`LedgerRuns.StatusBreaksExactlyOnAnEmptyBuy`).
- The rebuilt row has the live row's shares, average, cost basis, status and opening time after every trade if and only if no sell exceeds what is left or leaves less than 0.001 shares, or the history is nothing but sells without a positive price (`Backfill.LiveRefinesReplay`). A clean history has the live PnL if and only if each sell is rightly valued (`Backfill.CleanPnlAgrees`): at positive prices always with the closed rows of the ingest alone (`RebuildPnl.RebuildRealizesTheLivePnl`), but a row of the dust job can take a sell's place (`RebuildPnl.ExtraRowsAgreeExactly`, `RebuildPnl.ResidualRowTakesTheSell`).
- The cost basis and the position row part, and shares can then be disposed of twice, through a sell that leaves dust, a row closed by the dust job or for an unknown outcome, or a cost basis deleted unsettled, and in no other way (`CostBasis.BasisTracksExactlyUnlessParted`, `CostBasis.BoughtIsWhatWasBoughtExactly`; inputs `CostBasis.DustPartsTheRecords`, `CostBasis.ResidualPartsTheRecords`, `CostBasis.GivenUpThenSettled`).
- The external trade id is made from the transaction hash alone, so a window is ingested in full if and only if the fresh trades have different, unused transactions; otherwise the same fault returns on every run (`PollerResume.WindowFinishesExactlyWhenTransactionsAreFree`).
- A trade can be committed twice: a poll that looks back behind a purge commits purged trades again, since the duplicate check reads live trades alone (`Holdings.PurgedTradesComeBack`), and the live ingestor looks for no duplicate at all (`Holdings.CapturesRepeatExactly`). Without either it cannot (`Holdings.KeysStayUnique`).
- Stamps that were stale before migration 0034 are visible to the job only where the market also has an unstamped eligible trade (`Restamp.MigrationHidesOldStaleStamps`, `ConsistencyCheck.HiddenStampExample`).
- The hourly consistency check compares labels exactly while stamping ignores case, and a trade tagged after stamping is never re-stamped. After a run of the job it is silent if and only if the hidden stale stamps are the case variants and no tagged trade contradicts its market (`ConsistencyCheck.AfterTheJobTheCheckIsSilentExactly`): it pages for each of the three, except that a wrong stamp on a case variant goes unnoticed (`ConsistencyCheck.CancellingExample`).
- A sell print can fire an accumulation signal. Which prints fire is `Crossings.FiresExactlyByPeersAndExpiry`; a sell does so only beside a buy at its own time or after an older sell has left the window (`Crossings.ASellFiresBesideBuysOrAfterSells`).
- The signal's price depends on the order of equal timestamps, unless all prints at the signal's time have one price (`Crossings.TieOrderKeepsPricesExactly`).
- A price-level edge inside the cooldown is lost for as long as the price stays beyond the level (`PriceLevels.SuppressedEdgeStaysSilent`).
- A close that the resolver sees reported for an unresolved market is recorded if and only if the market ended more than 48 hours ago (`Markets.CloseIsRecordedExactlyWhenStale`).

## Model

| member | source | states |
|---|---|---|
| Ledger.WalletPosition.OnBuy | app/services/wallets/positions.py:53-61 | a further buy re-averages over the remaining shares and reopens the row; the whole new row is given |
| Ledger.WalletPosition.InflateOnOversell | app/services/wallets/positions.py:121-125 | shares sold beyond shares bought raise the bought total and the cost basis with it |
| Ledger.WalletPosition.OnSell | app/services/wallets/positions.py:112-130 | a sell reduces the remaining shares to no less than zero, and a leftover below 0.001 closes the row |
| Ledger.WalletPosition.OnResolution | app/services/wallets/positions.py:157-167 | a settlement counts the settled shares as sold and closes the row |
| Ledger.WalletPosition.OnCloseOut | app/tasks/run_market_resolver.py:465-470 | the unguarded closers sell exactly what remains |
| Ledger.WalletPosition.OnResidual | app/services/wallets/epsilon_close.py:152-191 | the dust job at one row: the new row and the closed position that is written |
| Ledger.PositionTable.UpdatePositionOnBuy | app/services/wallets/positions.py:18-61 | one row object per wallet and asset is created or updated; every other row stays as it was |
| Ledger.PositionTable.UpdatePositionOnSell | app/services/wallets/positions.py:64-130 | the sell of an unknown position leaves a closed placeholder exactly with a positive price and a market |
| Ledger.PositionTable.ClosePositionOnResolution | app/services/wallets/positions.py:133-167 | settles the row if there is one, and nothing else |
| Ledger.PositionTable.EpsilonClose | app/services/wallets/epsilon_close.py:120-191 | an open row with less than one share is closed at the wallet's own last print, else at its positive average, else at anyone's last print, its PnL moves by (that price - average) * remaining, and a closed position with the given values is written; in all other cases nothing changes and nothing is written |
| Ledger.ResiduesCloseAtTheChain | app/services/wallets/epsilon_close.py:82-104 | for every open residue and every own and other print: which of the three prices it closes at, that nothing is written exactly when there is none, and the row and closed position that result |
| Ledger.ResidualRowAccountsForTheClose | app/services/wallets/epsilon_close.py:152-191 | a closed position is written exactly where a row is closed, for the shares the row held and the PnL it gained |
| Ledger.PositionTable.ClosePositionsUnknownOutcome | app/tasks/run_market_resolver.py:502-520 | the rows of a market with unknown outcome are given up one by one: sold in full at no PnL, all others untouched |
| LedgerRuns.EveryWriterKeepsAmounts | app/services/wallets/positions.py:112-130 | every writer, guarded or not, keeps remaining >= 0, sold + remaining <= bought and cost = avg * bought |
| LedgerRuns.StatusBreaksExactlyOnAnEmptyBuy | app/services/wallets/positions.py:53-61 | a row stays sound after an event if and only if the event is not a zero-size buy that leaves nothing held |
| LedgerRuns.EmptyBuyExample | app/services/wallets/positions.py:37-61 | the concrete history that leaves an open row without shares |
| LedgerRuns.EveryRunIsSound | app/services/wallets/epsilon_close.py:187-191 | over every interleaving of buys, sells, settlements and all closers with positive amounts the row invariant holds, and Closed means exactly nothing remaining |
| LedgerRuns.AverageStaysBetweenEntryPrices | app/services/wallets/positions.py:52-61 | over every run the average lies between the least and the greatest entry price |
| LedgerRuns.EveryStepBalances | app/tasks/run_market_resolver.py:416-421 | one event changes PnL by its cash plus the change in book value plus the entry cost it leaves unmatched |
| LedgerRuns.RealizedPnlIsCashFlow | app/services/wallets/positions.py:112-130 | over every run of row events PnL = cash in - cash out + remaining * avg + unmatched cost, a sale being valued at the row; the law for what the code records is CostBasis.LivePnlIsCashFlow |
| LedgerRuns.UnmatchedIsDust | app/services/wallets/positions.py:127-130 | in an orderly run the unmatched cost is positive and below 0.001 shares' cost per dust close, and zero without one |
| LedgerRuns.OnlyDustSeparatesPnlFromCash | app/services/wallets/positions.py:127-130 | the error of reading PnL as cash flow is bounded by the dust closes and is zero if and only if there are none |
| LedgerRuns.ClosedPositionRealizedItsCash | app/services/wallets/positions.py:157-167 | a closed, orderly, dust-free position has realized exactly its net cash |
| Backfill.MatchIsClosestUnused | app/tasks/run_positions_backfill.py:120-139 | a sell takes the earliest of the closest unused closed rows within 30 seconds, and none exactly when there is none |
| Backfill.FindSellWcp | app/tasks/run_positions_backfill.py:123-139 | the scan finds that row |
| Backfill.RebuildPosition | app/tasks/run_positions_backfill.py:109-202 | the loops write the row that the replay fold and the status decision give |
| Backfill.StepAgreesExactlyWhenClean | app/tasks/run_positions_backfill.py:141-162 | from a state that adds up, the rows go on agreeing if and only if the trade neither oversells nor leaves dust, or is a sell without a price before there is any row |
| Backfill.CleanHistoriesAreTight | app/tasks/run_positions_backfill.py:141-162 | after a clean history sold + remaining = bought and live and rebuilt rows agree at every prefix |
| Backfill.LiveRefinesReplay | app/tasks/run_positions_backfill.py:109-186 | live and rebuilt rows agree after every prefix of a history if and only if every sell is clean, or the history holds nothing but sells without a positive price |
| Backfill.UnpricedSellsLeaveNoRow | app/tasks/run_positions_backfill.py:157-165 | after such sells neither side has a row, though the replay has counted what they sold |
| Backfill.CleanPnlAgrees | app/tasks/run_positions_backfill.py:157-162 | whatever closed rows there are to match, a clean history realizes the same PnL after every prefix if and only if each sell is rightly valued: its matched row carries what the sale realized, or, unmatched, its entry price is positive or it makes no profit |
| Backfill.SettlementAgreesExactlyOnRemaining | app/tasks/run_positions_backfill.py:171-179 | a final settlement agrees if and only if it settles exactly the remaining shares, and then both rows carry its closing time |
| Backfill.SettlementsCloseTheRebuiltRow | app/tasks/run_positions_backfill.py:171-179 | a rebuilt row adds up its settlements, is closed exactly when they leave nothing, and carries the time of the last of them |
| Backfill.ReplayAddsUp | app/tasks/run_positions_backfill.py:141-162 | the replay's totals are the sums of the trades' sizes |
| Backfill.ArrivalOrderKeepsShares | app/services/wallets/positions.py:53-61 | two clean arrival orders of the same trades give the same shares and status, whatever rows the sells are matched with |
| Backfill.OversoldHistoriesDiverge | app/services/wallets/positions.py:121-125 | the concrete oversell on which the two differ |
| RebuildPnl.RebuildRealizesTheLivePnl | app/tasks/run_positions_backfill.py:120-162 | with the closed rows that the ingest itself writes, every clean history at positive prices is rebuilt with the live PnL, after every prefix |
| RebuildPnl.EachSellTakesItsOwnRow | app/tasks/run_positions_backfill.py:123-139 | each sell is matched with its own row, whatever follows the rows in the queue |
| RebuildPnl.AnyOrderOfRowsRealizesTheLivePnl | app/tasks/run_positions_backfill.py:83-95 | in whatever order those rows come back, sells at one time included, the rebuild has realized the live PnL in the end |
| RebuildPnl.ClosingTimesAgree | app/tasks/run_positions_backfill.py:181-186 | with those rows and trades in the order of their times, a closed row is rebuilt with its closing time |
| RebuildPnl.ExtraRowsAgreeExactly | app/tasks/run_positions_backfill.py:83-97 | with rows of any origin in the queue, as long as no two sells share a time and each has a row at its own, the PnL agrees after every prefix if and only if the first row stamped with the time of each sell carries what that sell realized |
| RebuildPnl.ResidualRowTakesTheSell | app/services/wallets/epsilon_close.py:165-182 | a row of the dust job, stamped with the last trade, takes the place of the sell that left the residue |
| CostBasis.WalletCostBasis.UpdateOnBuy | app/services/wallets/exit_skill.py:158-192 | a buy re-averages the cost basis over the tracked size |
| CostBasis.WalletCostBasis.WriteSellClosedPosition | app/services/wallets/exit_skill.py:195-284 | a sell writes a closed position exactly where shares with a positive entry price are tracked, for no more than those, with cost = entry * shares and PnL = exit * shares - cost, and reduces the tracked size |
| CostBasis.AnExitPaysForItsShares | app/services/wallets/exit_skill.py:239-284 | the closed position of every sell in terms of the tracked size and price: shares, shares before, cost, PnL, and exactly when there is one |
| CostBasis.WalletCostBasis.Reduce | app/services/wallets/exit_skill.py:287-295 | the tracked size falls to no less than zero |
| CostBasis.StepTracksExactlyUnlessParting | app/services/wallets/epsilon_close.py:158-193 | of all seven events on one wallet and asset, exactly these part cost basis and position row: a sell that leaves dust, a row closed by the dust job or for an unknown outcome, a holding whose cost basis is deleted unsettled |
| CostBasis.BasisTracksExactlyUnlessParted | app/tasks/run_market_resolver.py:502-520 | over every history of trades, settlements and closers cost basis and row agree on shares and average after every prefix if and only if no event parts them |
| CostBasis.LiveRowIsTheLedgers | app/services/wallets/exit_skill.py:195-284 | until they part, the live row, its PnL included, is the ledger run over the events as they are recorded |
| CostBasis.LivePnlIsCashFlow | app/services/wallets/exit_skill.py:239-284 | over every history of trades, settlements and closers the recorded PnL = cash + book value + unmatched cost + what sells took from a cost basis that had parted |
| CostBasis.NoGapsUntilParted | app/services/wallets/exit_skill.py:239-246 | that last part is zero until the records part |
| CostBasis.BoughtIsWhatWasBoughtExactly | app/services/wallets/positions.py:121-125 | the row's bought shares are the sum of the buys if and only if no event disposes of shares twice or of shares never bought |
| CostBasis.CoveredStepsInflateOnlyAfterParting | app/services/wallets/positions.py:157-167 | without an oversell, only a settlement after the records have parted can dispose of shares twice |
| CostBasis.UnpartedSharesGoOnce | app/services/wallets/positions.py:157-167 | over every history without oversells whose records never part, every share is disposed of at most once |
| CostBasis.LivePnlIsTheCashOfHeldShares | app/services/wallets/exit_skill.py:239-246 | without dust and with positive prices, realized PnL is exactly the cash of the shares that were held plus their book value, oversells included |
| CostBasis.DustPartsTheRecords | app/services/wallets/positions.py:127-130 | three trades after which the cost basis sells a leftover that the position row had dropped |
| CostBasis.ResidualPartsTheRecords | app/services/wallets/epsilon_close.py:165-193 | four events in which half a share is realized by the dust job and again by a sell |
| CostBasis.GivenUpThenSettled | app/tasks/run_market_resolver.py:657-664 | a market given up and settled late, after which twice the bought shares count as bought |
| Pagination.PageExtendsCover | app/tasks/poll_watched_wallets.py:224-253 | a page that starts no older than what is covered extends the cover; nothing is jumped over while the head grows |
| Pagination.FetchWalletTrades | app/tasks/poll_watched_wallets.py:206-253 | whichever stop ends the loop, an untruncated fetch holds every trade in the window that was listed at the start; truncation always names its reason |
| Pagination.RecentIsFilter | app/tasks/poll_watched_wallets.py:256-262 | trimming keeps each trade at or after the cutoff with its multiplicity and drops the rest |
| Pagination.StampsReadInEitherUnit | app/tasks/poll_watched_wallets.py:670-677 | a time reads the same in seconds and in milliseconds, and an unreadable one lies before all others |
| Pagination.SortKeeps | app/tasks/poll_watched_wallets.py:256-262 | the sort is an ordered, stable permutation |
| Pagination.WindowIsSortedAndExact | app/tasks/poll_watched_wallets.py:256-262 | the window is oldest first, holds exactly the fetched trades in the lookback, and keeps ties in delivery order |
| Pagination.UntruncatedWindowIsComplete | app/tasks/poll_watched_wallets.py:526-540 | after an untruncated fetch the ingested window misses no listed trade of the lookback |
| Poller.PollWallet | app/tasks/poll_watched_wallets.py:559-634 | under any ingest and commit faults exactly a whole-batch prefix of the fresh trades is committed, inserted and sells are counted from it, inserted + skipped = window when not aborted, and without faults the run stops only at an id collision; what each committed trade does to the records is in Effects |
| Poller.ExtendingStep | app/tasks/poll_watched_wallets.py:414-507 | an accepted trade with a new key and a free id extends the open batch and nothing committed |
| Poller.CollidingStep | app/tasks/poll_watched_wallets.py:479 | an id collision in the session is the first collision of the whole window |
| Poller.CommitStep | app/tasks/poll_watched_wallets.py:604-619 | a full batch moves from the session to the committed tables |
| PollerResume.NoKeyIsCommittedTwice | app/tasks/poll_watched_wallets.py:389-411 | however a run ends, no (transaction, asset) is committed twice and old rows stay |
| PollerResume.FreshKeysAreNew | app/tasks/poll_watched_wallets.py:559-599 | the trades a window adds have pairwise different keys, none captured before |
| PollerResume.CompleteRunsCaptureTheWindow | app/tasks/poll_watched_wallets.py:559-634 | after a complete run every acceptable trade of the window is captured |
| PollerResume.FreshAfterPrefix | app/tasks/poll_watched_wallets.py:389-411 | once a prefix of the fresh trades is captured, exactly the others are fresh |
| PollerResume.ResumingChangesNothing | app/tasks/poll_watched_wallets.py:559-634 | an undisturbed run after a disturbed one ends as if the disturbed one had never been |
| PollerResume.CrashesNeverShow | app/tasks/poll_watched_wallets.py:559-634 | any number of crashed runs followed by a good one leave the trades, ids and positions of one good run |
| PollerResume.NoCollisionExactlyWhenFree | app/tasks/poll_watched_wallets.py:479 | no insert collides if and only if the transactions are different and unused |
| PollerResume.RunsStopAtWholeHundreds | app/tasks/poll_watched_wallets.py:559-634 | a run without outside failures commits everything, or the whole hundreds before the first trade whose transaction is used or repeats |
| PollerResume.SellsAreCounted | app/tasks/poll_watched_wallets.py:594-619 | the reported sells are the committed SELL trades |
| PollerResume.WindowFinishesExactlyWhenTransactionsAreFree | app/tasks/poll_watched_wallets.py:479 | the whole window gets ingested if and only if the fresh trades have different, unused transactions |
| PollerResume.TwoAssetsOneTransaction | app/tasks/poll_watched_wallets.py:479 | the concrete pair of fills that can never be ingested |
| Holdings.RecordingRunsTheLedger | app/tasks/poll_watched_wallets.py:482-495 | recording trades moves cost basis and position exactly as the ingest of that asset's trades; each trade's effect by its own fields is in Effects |
| Holdings.RecordsFollowTheLog | app/tasks/poll_watched_wallets.py:510-634 | after any polls over any windows with any failures, trades captured live, settlements, closes and purges, cost basis and position are the ledger run over the log of what was committed |
| Holdings.LiveTradesWereCommitted | app/tasks/poll_watched_wallets.py:510-634 | over any such history the live trades are committed ones, each as often, and without a purge all of them in the order they were committed |
| Effects.TradeTouchesItsAsset | app/tasks/poll_watched_wallets.py:465-495 | a committed trade adds its row and its external id and touches the records of its own asset alone |
| Effects.ABuyAddsItsShares | app/tasks/poll_watched_wallets.py:485-487 | a BUY adds its size to bought, remaining and cost basis, moves both averages by its cost, leaves the row Open, and opens a new row with its own time |
| Effects.ASellTakesItsShares | app/tasks/poll_watched_wallets.py:488-495 | a SELL on a row adds its size to sold, takes it from remaining to no less than zero, closes the row below 0.001 shares, and realizes (price - basis average) on no more shares than the cost basis holds |
| Effects.ASellShrinksTheBasis | app/tasks/poll_watched_wallets.py:488-491 | and takes its size from the cost basis, to no less than zero, at the same average |
| Effects.ASellWithoutARowLeavesAPlaceholder | app/tasks/poll_watched_wallets.py:492-495 | a SELL without a row leaves a closed, estimated placeholder exactly with a positive price |
| Effects.ACapturedTradeMovesTheRecords | app/services/polymarket/normalizer.py:263-304 | a live capture stores its row always, and moves the records as a polled trade does exactly with a price and a size other than zero, an asset and a side |
| Effects.OnlyCompleteTradesAreInserted | app/tasks/poll_watched_wallets.py:430-461 | a poll inserts only trades of its window with transaction, asset, wallet, price, size, side and a known market whose (transaction, asset) it has not seen |
| Effects.EveryCompleteTradeIsInserted | app/tasks/poll_watched_wallets.py:559-599 | and inserts one for every such trade |
| Effects.ASettlementTakesTheBasis | app/services/markets/resolution.py:379-440 | a settlement closes the row for the shares and at the average of the cost basis and deletes that; an invalid cost basis is deleted alone |
| Effects.AResolutionPaysTheHolding | app/tasks/run_market_resolver.py:404-470 | the resolver closes a row that holds shares at one or nothing a share, less the average of the cost basis if positive and else the row's own, and deletes the cost basis |
| Effects.GivingUpLosesTheHolding | app/tasks/run_market_resolver.py:502-520 | an unknown outcome closes a row that holds shares without PnL and keeps the cost basis |
| Effects.TheDustJobClosesAResidue | app/services/wallets/epsilon_close.py:82-191 | the dust job on both records: which rows it closes, at which PnL, and that the cost basis stays |
| Effects.HistoryBuysWhatWasCommitted | app/tasks/poll_watched_wallets.py:485-487 | the buys of an asset's events are the sizes of the committed BUY trades of that asset |
| Effects.BoughtIsTheCommittedBuysExactly | app/services/wallets/positions.py:121-125 | after any history of polls, captures, settlements, closes and purges bought is at least the sum of the committed BUY sizes of the asset, and equals it if and only if nothing was disposed of twice |
| Holdings.KeysStayUnique | app/tasks/poll_watched_wallets.py:389-411 | as long as no poll looks back behind an earlier purge (by more than the skew of the stamps) and no live capture repeats a trade, no (transaction, asset) is ever committed twice, purged or not |
| Holdings.CapturesRepeatExactly | app/services/polymarket/normalizer.py:229-262 | the live ingestor looks for no duplicate: a capture keeps the keys different if and only if the trade is new |
| Holdings.PurgedTradesComeBack | app/tasks/poll_watched_wallets.py:389-411 | a run that commits its window keeps all keys ever committed different if and only if no acceptable trade of the window has the key of a purged one |
| Holdings.PolledAgainAfterThePurge | app/tasks/poll_watched_wallets.py:389-411 | a trade polled, purged and polled again counts twice |
| Holdings.RecordsAreSoundAndPaid | app/services/wallets/positions.py:18-167 | after any such history with positive sizes every row is sound, obeys the law of the recorded PnL, is the ledger run until its records part, and counts as bought what was bought if and only if nothing was disposed of twice |
| Holdings.PolledPnlIsTheCashOfHeldShares | app/services/wallets/exit_skill.py:239-246 | without closers, dust and non-positive prices, realized PnL is the cash of the shares that were held plus their book value |
| Holdings.RebuildAgreesWithThePolls | app/tasks/run_positions_backfill.py:109-186 | when nothing of the asset was purged and arrival order and time order are both clean, the rebuild writes the live shares and status whatever closed rows it matches; with the rows of the ingest and trades in the order of their times, the live PnL as well |
| Holdings.RebuildAgreesAfterSettlement | app/tasks/run_positions_backfill.py:171-179 | the same after a final settlement of what the cost basis holds, with the row of that settlement and its closing time |
| Holdings.ListedTradesAreCaptured | app/tasks/poll_watched_wallets.py:206-253 | from the server's list to the table: no acceptable trade of the window stays uncaptured |
| Markets.WritersNeverRegress | app/services/discovery/refresh.py:93-101 | every market writer keeps resolved => closed and inactive, never takes a resolution back and never touches the stamp |
| Markets.OnlyOverwritersReplaceALabel | app/tasks/run_market_status_refresh.py:69-85 | a present label is replaced only by the resolver, the status refresh or a correction |
| Markets.InsertIsSound | app/services/discovery/refresh.py:73-91 | a new market row meets the invariant and has no stamp |
| Markets.ASyncRecordsTheWinner | app/services/markets/resolution.py:162-191 | a reported winner is recorded where none was, and closes and deactivates the market; an answer without one, or about a market that has one, changes nothing |
| Markets.ADiscoveryMerges | app/services/discovery/refresh.py:93-101 | discovery fills in a missing winner and never takes one back; what either side calls resolved is closed and inactive |
| Markets.ANewRowFollowsTheReport | app/services/discovery/refresh.py:73-91 | a new row says what the report says, a resolved one being closed and inactive |
| Markets.OverwritersRecordTheirWinner | app/tasks/run_market_status_refresh.py:66-94 | resolver and status refresh record their winner over any other, a correction records it alone, and a report without a winner records at most the close |
| Markets.AStaleMarketIsInactive | app/tasks/run_market_resolver.py:652-703 | a market that stays unresolved becomes inactive exactly more than 48 hours past its end, and its resolution is not touched |
| Markets.CloseIsRecordedExactlyWhenStale | app/tasks/run_market_resolver.py:652-696 | a close that the API reports is recorded if and only if the market ended more than 48 hours ago (or was closed already) |
| Markets.LostCloseExample | app/tasks/run_market_resolver.py:652-703 | thirty hours after the end the reported close is lost |
| Markets.MarketRow.OnDiscovery | app/services/discovery/refresh.py:93-101 | the monotone merge, field by field |
| Markets.MarketRow.OnSync | app/services/markets/resolution.py:162-191 | the sync's update, and that it reports exactly the new resolutions |
| Markets.MarketRow.OnResolver | app/tasks/run_market_resolver.py:538-541 | the resolver's update |
| Markets.MarketRow.OnRefresh | app/tasks/run_market_status_refresh.py:66-94 | the status refresh's update; no change is reported exactly when the API shows the market active, open and without a labelled resolution, and then nothing is written |
| Markets.MarketRow.OnStaleLadder | app/tasks/run_market_resolver.py:652-703 | what the 48-hour and 7-day branches commit for a market that stays unresolved, and that its positions are given up exactly past seven days |
| Restamp.StepKeepsConsistent | app/services/markets/resolution.py:270-318 | each step of any writer keeps: a stamped trade lies on a settled market, and its result is what the recorded stamp gives |
| Restamp.WhatAStepDoesToATrade | app/services/markets/resolution.py:270-318 | of all steps only the processing of its market changes a trade's outcome or result; it arrives without a result, wallet and tag are filled in once, and only a purge takes it away |
| Restamp.TokensKeepTheirLabels | app/services/discovery/refresh.py:120-136 | a token's label is set and may be replaced, and a missing one never replaces it |
| Restamp.EveryInterleavingKeepsConsistent | app/services/markets/resolution.py:321-459 | so does every interleaving of discovery, syncs, corrections, arrivals, tags, purges, selections and processing |
| Restamp.NoStaleStampIsHidden | app/services/markets/resolution.py:208-267 | in every reachable state a stampable BUY whose result disagrees with its market's resolution puts the market on the candidate list |
| Restamp.ProcessingRepairsTheMarket | app/services/markets/resolution.py:270-318 | processing gives every stampable trade of the market its result, changes nothing else, and the market is selected again exactly for an unstampable trade; the result by fields is in ProcessingByFields |
| Restamp.ProcessingByFields | app/services/markets/resolution.py:270-318 | after processing, every BUY of the market without an outcome carries the label of its token, stampable or not; a stampable one has result 1 exactly when its label is the resolution in any case, and else 0; a present outcome, a sell's outcome and every other field stay |
| Restamp.UpperForgetsCase | app/services/markets/resolution.py:301-309 | two labels are the same in upper case if and only if they differ in the case of letters alone |
| Restamp.SelectedExactly | app/services/markets/resolution.py:208-267 | a market is selected if and only if it is resolved and closed with a resolution and has a BUY with a wallet and no tag that has no result, or was last stamped with another resolution |
| Restamp.SelectedAgainExactly | app/services/markets/resolution.py:208-318 | right after its processing, if and only if such a BUY has no price, or neither an outcome nor a labelled token |
| Restamp.ProcessingTwiceIsProcessingOnce | app/services/markets/resolution.py:445-453 | processing is idempotent |
| Restamp.ProcessAllRepairs | app/services/markets/resolution.py:462-492 | processing a list of selected markets in any order makes nothing stale and repairs each of them |
| Restamp.OneRunLeavesNoStaleStamp | app/services/markets/resolution.py:462-492 | one undisturbed run of the job leaves no stale stamp anywhere |
| Restamp.MigrationHidesOldStaleStamps | migrations/versions/0034_outcome_result_stamped_resolution.py:69-90 | after the migration an old stale stamp is visible if and only if the market has an unstamped eligible trade |
| ConsistencyCheck.EveryInterleavingKeepsSane | app/services/markets/resolution.py:321-459 | from any database whose stamped trades lie on settled markets, every interleaving keeps that |
| ConsistencyCheck.MigrationKeepsSane | migrations/versions/0034_outcome_result_stamped_resolution.py:69-90 | the migration keeps a database of that kind, so migrated ones are included |
| ConsistencyCheck.CheckFindsOneOfTwoExactly | app/tasks/run_outcome_result_consistency_check.py:54-83 | on a stamped, untagged trade the check pages if and only if the stamp is stale or the label a case variant, but not both |
| ConsistencyCheck.WhatTheCheckLooksAt | app/tasks/run_outcome_result_consistency_check.py:54-83 | the check looks at labelled, stamped BUY trades of closed markets with a resolution, and pages for those whose result denies that label and resolution are equal letter for letter, or claims it |
| ConsistencyCheck.HiddenStampExample | migrations/versions/0034_outcome_result_stamped_resolution.py:69-90 | a stale stamp that the migration takes off the candidate list while the check pages for it |
| ConsistencyCheck.CheckPagesOnCaseVariants | app/tasks/run_outcome_result_consistency_check.py:54-83 | on a correctly stamped trade the hourly check pages if and only if label and resolution differ in case alone |
| ConsistencyCheck.TaggedTradeIsFrozen | app/services/markets/resolution.py:296-314 | once a stamped trade is tagged, no later step but a purge changes it |
| ConsistencyCheck.FrozenTradesPageExactly | app/services/markets/resolution.py:296-314 | whatever happens after the tagging, the check pages for a tagged trade if and only if its market's resolution contradicts the result it was tagged with |
| ConsistencyCheck.TaggedTradesPageExactly | app/services/markets/resolution.py:296-314 | from a consistent start that is: exact agreement with the present resolution differs from case-blind agreement with the one it was stamped with |
| ConsistencyCheck.CheckIsSilentExactly | app/tasks/run_outcome_result_consistency_check.py:54-83 | in every state reachable from any such database the check is silent if and only if stale stamps and case variants are the same trades and no tagged trade contradicts its market |
| ConsistencyCheck.AfterTheJobTheCheckIsSilentExactly | app/services/markets/resolution.py:462-492 | an undisturbed run of the job leaves exactly the stale stamps that were hidden, and the check is then silent if and only if these are the case variants and no tagged trade contradicts its market |
| ConsistencyCheck.ConsistentHidesNothing | app/services/markets/resolution.py:208-267 | a consistent database hides no stale stamp |
| ConsistencyCheck.TaggedTradeExample | app/tasks/run_outcome_result_consistency_check.py:54-83 | a reachable state where the check pages and no candidate exists |
| ConsistencyCheck.CaseVariantExample | app/tasks/run_outcome_result_consistency_check.py:54-83 | a consistent, fully processed state where a label pages for its case alone |
| ConsistencyCheck.CancellingExample | app/tasks/run_outcome_result_consistency_check.py:54-83 | a wrong result on a case variant, for which the check is silent |
| Settlement.Store.ProcessMarketResolution | app/services/markets/resolution.py:321-455 | the loop closes, drops, settles and stamps exactly what the specification of the five tables says, and a market without a resolution changes nothing |
| Settlement.ClosingsAreExact | app/services/markets/resolution.py:379-440 | a closed position exists if and only if a valid, labelled cost-basis row gave it, with that row's values |
| Settlement.ClosingsByTheTables | app/services/markets/resolution.py:358-428 | the same by the tables alone: token, label and winner in any case, exit one or zero, cost, PnL, and the settlement time where it is known and else the present |
| Settlement.WhatProcessingLeaves | app/services/markets/resolution.py:321-455 | table by table: exactly the market's cost-basis rows are gone, closed positions are only added, the resolution is recorded as the stamp, and without one nothing changes |
| Settlement.AffectedWalletsClosed | app/services/markets/resolution.py:379-455 | the wallets reported are exactly those with a new closed position |
| Settlement.NoRowClosesTwice | app/services/markets/resolution.py:379-440 | each row closes at most once |
| Settlement.SettlementConserves | app/services/markets/resolution.py:394-428 | shares closed = shares consumed, and PnL = winning shares - total cost |
| Settlement.SettledRowsAreClosed | app/services/markets/resolution.py:430-437 | a position with a closing is settled by it, one without is untouched |
| Settlement.SecondPassChangesNothing | app/services/markets/resolution.py:321-455 | a second processing at any time changes none of the five tables and affects no wallet, and the market is selected again exactly for a trade that cannot be stamped |
| Sweep.MarketTable.SyncResolvedMarkets | app/services/markets/resolution.py:139-205 | every due or swept market is stamped as checked whatever its answer, nothing else changes, and exactly the newly resolved are returned |
| Sweep.CandidatesAreDistinct | app/services/markets/resolution.py:116-139 | no market is both due and swept, so none is a candidate twice |
| Sweep.ACandidateIsSyncedAndStamped | app/services/markets/resolution.py:150-191 | a candidate is stamped as checked and takes the winner of its answer; without an answer its market state stays |
| Sweep.QueriesSplitTheUnresolved | app/services/markets/resolution.py:113-139 | an unresolved market is due once its end has passed and in the sweep while it is active and has not ended; others are in neither |
| Sweep.UncheckedWhileOthersAre | app/services/markets/resolution.py:127-137 | while k syncs leave a market out they check 50 * k different others, all of them newer since |
| Sweep.ASyncStampsTheSwept | app/services/markets/resolution.py:150-160 | of the sweep, one sync stamps exactly the swept markets, and stamps stay in the past |
| Sweep.EveryMarketIsCheckedInTime | app/services/markets/resolution.py:127-160 | over runs of the sync, a market that stays in a sweep of at most N without entrants is checked and stamped within any ceil(N/50) of them, for any tie-breaking |
| Calendar.PartitionEndIsNextMonth | app/services/maintenance/retention.py:44-59 | 32 days on from the first of any month, back to the first, is the next month |
| Calendar.MonthsHaveTheirDays | app/services/maintenance/retention.py:44-59 | which months have 31, 30, 29 and 28 days |
| Calendar.PartitionsCoverEachDateOnce | app/services/maintenance/retention.py:44-59 | each date lies in exactly one monthly partition |
| Retention.CountCheckIsExact | app/services/maintenance/retention.py:83-105 | the count check passes if and only if no selected trade was archived more than once |
| Retention.PassConservesTrades | app/services/maintenance/retention.py:62-116 | a pass moves exactly the selected ids, each archived once, with the content of the live row where no older copy exists, and every other id keeps its place, content and count |
| Retention.ArchivedRowsFallInOnePartition | app/services/maintenance/retention.py:74-77 | every selected row has its partition, and no other takes it |
| Retention.Purger.ArchiveThenDelete | app/services/maintenance/retention.py:62-116 | the transaction ends as the specification, and an abort leaves all tables as they were |
| Retention.Purger.SelectTrades | app/services/maintenance/retention.py:143-157 | a pass's query returns every old trade of a resolved market that has no wallet, or in the second pass one that was scored, once, in any order |
| Retention.Purger.PurgeOldTrades | app/services/maintenance/retention.py:119-168 | each pass queries what the one before it left; what leaves the live table is old, resolved, without a wallet or of a scored one, and archived once; after a finished purge every remaining trade is at or after the cutoff, or its market is unresolved, or its wallet is not scored; it reports how many it moved |
| Retention.StepKeepsTrades | app/services/maintenance/retention.py:143-158 | no step of the world loses a trade or moves one of an unresolved market, of an unscored wallet, or from after the cutoff |
| Retention.PurgesNeverLoseATrade | app/services/maintenance/retention.py:119-168 | over any history a trade is live or archived, and live and unchanged while its market is unresolved, or its wallet is unscored, or no purge has reached its time |
| Plateaus.Expand | pathfinder/research/variant_c.py:914-917 | one expansion visits exactly the unvisited positive neighbours |
| Plateaus.PositiveCells | pathfinder/research/variant_c.py:897-898 | a cell is positive if and only if its observations add up to more than zero; positive ones make it so, others do not |
| Plateaus.RaisingKeepsPositive | pathfinder/research/variant_c.py:897-898 | raising observations keeps a positive cell positive |
| Plateaus.StepsAreOneApart | pathfinder/research/variant_c.py:914-917 | two cells are neighbours if and only if their distances along the three axes add up to one |
| Plateaus.FindPlateaus | pathfinder/research/variant_c.py:890-919 | for any start order the search ends, and its components are connected, closed under steps, disjoint and cover the positive cells |
| Plateaus.PlateausAreConnectedComponents | pathfinder/research/variant_c.py:890-919 | two positive cells share a plateau if and only if single steps over positive cells connect them |
| Plateaus.PlateausAreUnique | pathfinder/research/variant_c.py:904-919 | any two results over the same cells have the same plateaus |
| Crossings.FiresAtRunStarts | pathfinder/research/signals.py:84-104 | the firing rows are exactly the first rows of the maximal elevated runs |
| Crossings.ElevatedRowsHaveOneSignal | pathfinder/research/signals.py:84-104 | every elevated row belongs to exactly one firing row |
| Crossings.DropBetweenSignals | pathfinder/research/signals.py:84-104 | between two firing rows the net has been below the threshold |
| Crossings.SignalKeysAreDistinct | pathfinder/research/signals.py:243-283 | no two signals of a wallet and asset share a time, so the upsert key is unique |
| Crossings.NetIsBuysLessSells | pathfinder/research/signals.py:84-92 | the net at a time is the BUY notional less the SELL notional of the prints at most the window older |
| Crossings.TieOrderDoesNotMatter | pathfinder/research/signals.py:84-104 | any two orders of equal timestamps have the same nets and fire at the same rows |
| Crossings.TieOrderKeepsSignals | pathfinder/research/signals.py:84-104 | and give as many signals, at the same times with the same accumulated nets |
| Crossings.TieOrderKeepsPricesExactly | pathfinder/research/signals.py:84-104 | the signal prices are the same in every tie order if and only if, at each signal's time, all prints have one price |
| Crossings.TieOrderCanChangeThePrice | pathfinder/research/signals.py:84-104 | two prints at one time whose order decides the signal's price |
| Crossings.NetMovesByEnteringAndLeaving | pathfinder/research/signals.py:84-92 | the net moves by what enters the window less what leaves it |
| Crossings.FiresExactlyByPeersAndExpiry | pathfinder/research/signals.py:84-104 | a print, buy or sell, fires if and only if it is the first at its time, the net before it was below the threshold, and that net with all prints at its time and without what left reaches it |
| Crossings.ASellFiresBesideBuysOrAfterSells | pathfinder/research/signals.py:84-104 | a sell print fires only beside a later-listed buy at its own time or because an older sell has left the window |
| Crossings.ASellPrintCanFire | pathfinder/research/signals.py:84-104 | the concrete sell print that fires as an older sell leaves |
| Crossings.ASellBesideABuyFires | pathfinder/research/signals.py:84-104 | the concrete sell print that fires beside a buy, with nothing leaving |
| Bootstrap.PercentileIsBoundedAndMonotone | pathfinder/research/stats.py:39-47 | on any sorted list the percentile is monotone and lies between the ends |
| Bootstrap.PercentileOnTheLine | pathfinder/research/stats.py:39-47 | between two neighbouring ranks the percentile lies on the line that joins their values |
| Bootstrap.GroupByCluster | pathfinder/research/stats.py:66-69 | the dictionary holds each cluster's values in order, the list each cluster once in order of appearance |
| Bootstrap.PoolDraw | pathfinder/research/stats.py:74-75 | the pool is the drawn clusters' values in order |
| Bootstrap.ClusterBootstrapCi | pathfinder/research/stats.py:61-88 | the loops give the specified interval and counts, and both input errors exactly where they belong |
| Bootstrap.IntervalIsBounded | pathfinder/research/stats.py:66-83 | for every draw min(values) <= low <= high <= max(values) |
| Bootstrap.BothEndsCutOffTheSame | pathfinder/research/stats.py:79-83 | the interval is read off at the two percentages that are the level apart and as far from the ends as each other |
| Bootstrap.HigherLevelIsWider | pathfinder/research/stats.py:79-83 | a higher confidence level never narrows the interval |
| Bootstrap.SingleClusterCollapses | pathfinder/research/stats.py:66-83 | with one cluster the interval is the observed mean |
| Bootstrap.DrawingEachOnceIsTheSample | pathfinder/research/stats.py:74-76 | drawing every cluster once pools exactly the sample |
| Scoring.OnlyTheWindowMatters | pathfinder/scoring/engine.py:87-98 | putting in, taking out or replacing rows closed at the time or later, before the window, in an excluded way or by other wallets never changes a score |
| Scoring.ScoreCountsTheWindow | pathfinder/scoring/engine.py:87-98 | the positions of a score are exactly the wallet's rows closed in the window and before the time, with no source or an allowed one |
| Scoring.WhatAScoreSays | pathfinder/scoring/engine.py:132-145 | mean return, win rate, implied rate and concentration times their totals are the sums of the rows' returns, wins and entry prices and the greatest absolute PnL |
| Scoring.WhatSpeaksAgainstAWallet | pathfinder/scoring/engine.py:112-154 | each reason stands if and only if its own figure misses its threshold, and a wallet qualifies exactly without reasons |
| Scoring.OnlyFlaggedWalletsAreExcluded | pathfinder/scoring/engine.py:225-237 | a wallet is excluded as a sybil if and only if the exclusion is on and it is listed as flagged |
| Scoring.ScoreIgnoresRowOrder | pathfinder/scoring/engine.py:170-194 | the order of the rows does not change a score |
| Scoring.ConcentrationRange | pathfinder/scoring/engine.py:143-145 | with some PnL the concentration lies in [1/n, 1] |
| Scoring.WhatAQualifiedWalletHas | pathfinder/scoring/engine.py:112-154 | a qualified wallet has the required positions, one that returned the required mean, one that beat its entry odds where skill is required, and no fewer than the concentration cap implies |
| Scoring.StricterThresholdsQualifyFewer | pathfinder/scoring/engine.py:112-154 | tightening any threshold never lets a wallet in |
| Scoring.ScoreIgnoresTheUnitOfMoney | pathfinder/scoring/engine.py:132-145 | counting all costs and profits in another unit changes no score |
| Scoring.GroupByWallet | pathfinder/scoring/engine.py:212-220 | the grouping holds each wallet's rows in order, each wallet once |
| Scoring.ScoreUniverse | pathfinder/scoring/engine.py:209-240 | exactly one score per wallet with a row closed in the window, before the time and in an allowed way, equal to the wallet's own score |
| ExitRules.ApplyExitLadder | pathfinder/research/variant_c.py:204-235 | each stage sells half at the first observation that reaches its trigger, the rest is resolved, unknown rules are refused |
| ExitRules.WhatTheLadderSells | pathfinder/research/variant_c.py:204-235 | by the prices alone: half at each of the two levels that is reached, with the level values of both rules, and the rest at resolution |
| ExitRules.LadderSellsEverythingOnce | pathfinder/research/variant_c.py:204-235 | one or two legs with positive fractions that add up to one |
| ExitRules.LadderTimesAreOrdered | pathfinder/research/variant_c.py:219-235 | with resolution last, the legs leave in order of time |
| ExitRules.NetReturnForLegs | pathfinder/research/variant_c.py:238-257 | the loop computes the fraction-weighted return and holding time |
| ExitRules.ALegEarnsItsReturn | pathfinder/research/variant_c.py:248-252 | one plus a leg's return, times the entry price with its cost, is the exit price less its cost |
| ExitRules.HigherCostsLowerALeg | pathfinder/research/variant_c.py:248-252 | a higher cost lowers a leg's return if and only if entry and exit price add up to something |
| ExitRules.HigherCostsReturnLess | pathfinder/research/variant_c.py:238-257 | higher costs lower the net return of every exit with positive fractions at prices that are not negative |
| ExitRules.NetReturnLiesBetweenLegs | pathfinder/research/variant_c.py:238-257 | the net return lies between any bounds on its legs' returns |
| ExitRules.HoldingTimeLiesBetweenLegs | pathfinder/research/variant_c.py:238-257 | the holding time lies between any bounds on its legs' times, a leg that left before it began counting as nothing |
| ExitRules.ApplyBracketExit | pathfinder/research/variant_c.py:633-671 | leaves at the first touch of the bracket up to the time exit, else at the time exit, else not at all |
| ExitRules.ApplyBracketExitC4 | pathfinder/research/variant_c.py:1051-1086 | leaves at the same first touch, at the fill price of the side that was touched |
| ExitRules.BothBracketExits | pathfinder/research/variant_c.py:1075-1086 | on one series both exits fire at the same time or both do not; a take-profit fill is at most the plain one plus 1e-9 |
| ExitRules.LaterPricesDoNotMatter | pathfinder/research/variant_c.py:662-671 | prices after the first touch or after the time exit cannot change the exit |
| ExitRules.SidesExclude | pathfinder/research/variant_c.py:633-661 | one price cannot touch both sides of a bracket wider than twice the tolerance |
| ExitRules.BracketByItsShares | pathfinder/research/variant_c.py:633-661 | a price touches the bracket if and only if it lies the take-profit share above or the stop-loss share below the entry price, within the tolerance |
| ExitRules.StitchWindows | pathfinder/research/variant_c.py:988-998 | consecutive windows from start to end, all of full length but the last |
| ExitRules.WindowsCoverExactlyOnce | pathfinder/research/variant_c.py:988-998 | every instant of the span lies in exactly one window |
| Continuity.FindGaps | app/tasks/run_continuity_check.py:66-82 | the gaps are ordered maximal runs that cover exactly the absent hours, and gap hours + present hours = expected hours |
| Continuity.GapsAreUnique | app/tasks/run_continuity_check.py:66-82 | no other list of gaps meets that description |
| Continuity.AlertExactlyOnRecentSilence | app/tasks/run_continuity_check.py:122-125 | the audit reports n recent gap hours or more if and only if n hours in a row, ending after the cutoff, have no trade |
| PriceLevels.PriceLevelAlert.Note | app/services/alerts/price_levels.py:96-134 | one observation at one row: its new state, and whether it fires |
| PriceLevels.AlertBook.EvaluatePriceLevels | app/services/alerts/price_levels.py:77-137 | every watching row notes the observation, the others stay, the alerts written are those of the firing rows in order, and each row's fired count stays the number of its alerts |
| PriceLevels.CountsAreKept | app/services/alerts/price_levels.py:96-134 | one observation keeps fired counts and written alerts equal for every row |
| PriceLevels.RowRemembers | app/services/alerts/price_levels.py:36-64 | what a row knows after a run is the last price, the last fire and the number of fires |
| PriceLevels.FiresExactlyAtClearEdges | app/services/alerts/price_levels.py:41-64 | a row fires if and only if the price moves over to the trigger side and the cooldown since its last fire has passed |
| PriceLevels.FiresAreApart | app/services/alerts/price_levels.py:41-64 | any two fires are a cooldown apart with an observation on the other side between them, for any timestamps |
| PriceLevels.NeighbouringFiresAreApart | app/services/alerts/price_levels.py:41-64 | the same of neighbouring fires even for a negative cooldown |
| PriceLevels.FiresTakeTime | app/services/alerts/price_levels.py:59-62 | n fires span at least n - 1 cooldowns |
| PriceLevels.FirstObservationNeverFires | app/services/alerts/price_levels.py:50-55 | the first observation only seeds the row |
| PriceLevels.InactiveRowsNeverFire | app/services/alerts/price_levels.py:36-64 | a row that was switched off never fires |
| PriceLevels.EdgesByThePrices | app/services/alerts/price_levels.py:28-33 | an edge is a price short of the level followed by one at the level or past it |
| PriceLevels.SuppressedEdgeStaysSilent | app/services/alerts/price_levels.py:57-62 | an edge inside the cooldown is lost while the price stays beyond the level |
| PriceLevels.SuppressedEdgeExample | app/services/alerts/price_levels.py:57-62 | a crossing that is missed and never made up for |
| PriceLevels.DirectionsMirror | app/services/alerts/price_levels.py:28-33 | the two directions are mirror images |

## Left out

- HTTP, WebSocket and chain clients, retries, Telegram, Redis and logging: their results are inputs or faults of the model.
- `scorer.py`, `unwind.py` and `tagging.py` are not part of this model; tagging is one step that sets a tag once.
- Poller.PollWallet: takes the trade's wallet to be the polled one and the market lookup to be fixed during a run; PollerResume speaks of reruns on one window, Holdings of any windows.
- Holdings.RecordsFollowTheLog: settlements and closers take the cost basis as they find it; which market triggers them is in Settlement and Markets.
- Holdings.KeysStayUnique: a fill that is delivered again is taken to carry the time it was committed with, up to a given skew.
- Holdings.RebuildAgreesWithThePolls: PnL only when the trades came in the order of their times, because the average price does depend on arrival order.
- LedgerRuns.RealizedPnlIsCashFlow: values a sale at the row's own average; the code's cost basis has the same one exactly until the records part, see CostBasis.BasisTracksExactlyUnlessParted.
- LedgerRuns.OnlyDustSeparatesPnlFromCash: for orderly runs (no oversell, settlements of what the row holds at its own average); the general law is RealizedPnlIsCashFlow.
- Restamp.NoStaleStampIsHidden: for live BUY trades with a wallet, a price and no tag; upper-casing covers ASCII letters; a correction to a missing label is not a step.
- Closed positions and archived trades are not rewritten by a correction; the code does not do it, although the repository's README can be read that way.
- Retention.PassConservesTrades: conserves ids, not contents, where an archived copy existed before; the archived copy may be an older one.
- Sweep.EveryMarketIsCheckedInTime: for a sweep without new entrants; with entrants there is no bound.
- Bootstrap.ClusterBootstrapCi: at least one resample and a level in [0, 1]; the generator's draws are inputs.
- Duplicate guards for resolved closed rows (the cost basis is then only dropped), lifetime conviction, log ROI, snapshots and Welford statistics: figures beside the ledger.
- Price, time and volume filters of the signal funnel, materializing upserts, gate verdict, plateau candidate selection, removal of top signals and report rendering: selections by thresholds and keys that would only add easy members.
- Float rounding and six-decimal storage of prices: amounts are reals.
- One-off repair scripts: they step outside the invariants on purpose.
- User interface, API routes, configuration and discovery categories.
