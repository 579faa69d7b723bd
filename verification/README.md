# Verified model of the game server's stateful rules

A Dafny model of six parts of the server that keep rules of their own, with proofs of what they keep.
`dafny verify dfyconfig.toml` checks everything.

Where the source changes objects, the model has a class with the same fields whose methods follow the source
statement by statement. Each method is proved to be an operation on a plain value (`State`, `Market`,
`Calendar`, `Room`, a condition table), and the promises are proved about these operations and about whole runs
of them. Databases are maps, sessions and clocks are parameters, and whether a character exists is whether he has
a purse.

- **Achievements** (`Achievements.dfy`, `SumAchievements.dfy`, `Sums.dfy`). Storing progress tests achievements,
  recording one runs the meta criteria, and those store progress again. The recursion is proved to end on any graph
  of links and to close: nothing passes its test unrecorded, no meta criterion misses its credit. Counters are
  32-bit and wrap only where the source lets them.
- **Conditions** (`Conditions.dfy`). The converter turns rows of one to three inline conditions into ids of a
  shared table of atoms and AND nodes. Ids mean the conjunction of the row, mean it for ever, and are shared
  exactly by equal rows; four passes update every row once.
- **Dig site zones** (`Winding.dfy`). The quadrant walk around a polygon is the winding number: signed ray
  crossings, with the laws that a winding number has, convex and triangle cases included.
- **Auction house** (`Auctions.dfy`, `AuctionHouse.dfy`, `AuctionSorter.dfy`). Money and items of every player
  through listing, bidding, winning, expiry, cancellation and delivery, and the comparator of the auction list.
  The bid handler does not look at the delivery time, so bids on auctions already won are part of every result;
  `LateBid` and `LastBidderPays` say what they do.
- **Calendar** (`CalendarRemap.dfy`, `Calendars.dfy`, `CalendarLoading.dfy`, `CalendarManager.dfy`). Renumbering of
  two linked tables at start, and writing back what requests have changed.
- **Map cells and chat channels** (`CellVisits.dfy`, `Channels.dfy`). Which cells a visit reaches, each how often;
  and who owns, moderates and is banned from a channel.

`Ordering.dfy` holds what ordered walks share, the step to the smallest remaining id among it, and `Machine.dfy` the
32-bit integers.

Findings that the proofs pin down:

- An achievement that refers to the criteria of a pure counter is not recorded by progress of that counter,
  because `SetCriteriaProgress` returns early for counters. `RecordFollowsTestExactly` has the exact condition,
  `BorrowedCounterIsMissed` the smallest case.
- Withdrawing an achievement takes back neither its points nor the meta credit given for it
  (`LoweringKeepsPointsExactly`, `LoweringKeepsCreditsExactly`; `WithdrawalHappens` is a case).
- The sum of a SUMM achievement is kept in 32 bits: where it can run over before the achievement passes, a recorded
  achievement can fail its test. `SumFollowsExactly` has the exact condition on the criteria list,
  `WrappedSumStaysRecorded` the smallest case.
- `AuctionSorter` is not a strict weak order when one item of the list has no prototype and two others differ
  in a prototype column; the exact condition is `SorterIsStrictWeakOrder`.
- When the radius of a visit reaches a whole cell or more below the low edge of the map, the negative cell index
  is read as a huge unsigned one and the area starts past its end: along x nothing is visited, along y only the
  standing cell (`ColumnsCover`, `VisitAround`). `LowEdgeIsReached` names such a place on the map.
- A bid on an auction already won is accepted until the seller is paid. The item stays with the first winner, who
  gets his whole bid back, and the later bidder pays for nothing (`LateBid`, `LastBidderPays`; `LateBidHappens` is a
  case).
- An invite without an event is adopted by a renumbered event when its event id is one of the new ids
  (`ReferencesKept` gives the exact condition). The server writes such invites itself when it stops between two
  ticks (`RestartAfterTickExactly`; `StrayHappens` is a case); a restart from a quiet calendar keeps every reference
  (`RestartKeepsReferences`).
- An owner who kicks himself while others are on the channel is put back without his guid (`KickGoodExactly`;
  `SelfKickHappens` is a case).

## Model

| member | source | states |
|---|---|---|
| `Achievements.AccumulateIsBoundedSum` | src/game/AchievementMgr.cpp:3776-3838 | the 32-bit ACCUMULATE step of a counter within its maximum is min(max, counter + change) over the integers: nothing wraps |
| `Achievements.AccumulateRun` | src/game/AchievementMgr.cpp:3776-3838 | any run of ACCUMULATE calls ends at min(max, counter + sum of the changes) |
| `Achievements.NextCounterBounded` | src/game/AchievementMgr.cpp:3776-3838 | every progress type leaves a counter at or below a nonzero maximum, and only SET can lower it |
| `Achievements.DoneMonotone` | src/game/AchievementMgr.cpp:3708-3769 | growing counters never undo a completion, as long as the 32-bit sum of a SUMM achievement does not run over |
| `Achievements.DoneLocal` | src/game/AchievementMgr.cpp:3708-3769 | a completion test depends on the progress of its own criteria list only |
| `Achievements.DoneIsCount` | src/game/AchievementMgr.cpp:3708-3769 | an achievement that does not sum passes exactly when at least its count of criteria, or all of them where it has none, are done; never with an empty list, never for a counter |
| `Achievements.SumIsTotal` | src/game/AchievementMgr.cpp:3725-3743 | an achievement that sums, and asks the same of each of its criteria, passes exactly when the counters add up to that much, as long as the sum fits 32 bits |
| `Achievements.DoneIsFull` | src/game/AchievementMgr.cpp:3666-3690 | in a valid manager a criterion is done exactly when its counter is full, or has moved where that is enough; never for a statistic or a realm first that is taken |
| `Achievements.CountersFit` | src/game/AchievementMgr.cpp:3666-3690 | a stored counter is at most 1 for meta credit, 9000 for points, and the limit of any other criterion |
| `Achievements.PointsReached` | src/game/AchievementMgr.cpp:1571-1579 | a points criterion that does not lag is at the achievement points, up to 9000 |
| `Achievements.ImprovesTransitive` | src/game/AchievementMgr.cpp:3848-3872 | the effect promised for one gaining call (nothing newly missed, uncredited or lagging; recorded achievements pass their test; points exact) is promised for two in a row, whatever the order of the recursion |
| `Achievements.RaiseSettled` | src/game/AchievementMgr.cpp:3838-3872 | once the achievement of a raised counter and all that refer to it have been tested, no achievement passes its test unrecorded that did not before |
| `Achievements.EntrySettled` | src/game/AchievementMgr.cpp:3893-3967 | recording an achievement leaves nothing missed, uncredited or lagging once both meta criteria lists have been run over |
| `Achievements.LoweringKeepsClosed` | src/game/AchievementMgr.cpp:3874-3890 | after a lowered counter and the withdrawals it causes, a regular achievement is recorded exactly when it passes its test |
| `Achievements.LoweringKeepsPointsExactly` | src/game/AchievementMgr.cpp:3975-4010 | a withdrawal takes no points back: the points stay those of the recorded achievements exactly when the recorded ones that the lowered counter makes fail have points adding up to 0 in 32 bits; read off the state before the call |
| `Achievements.LoweringKeepsCreditsExactly` | src/game/AchievementMgr.cpp:3975-4010 | nor meta credit: it stays exact exactly when no eligible untimed meta criterion links to one of these |
| `Achievements.WithdrawalHappens` | src/game/AchievementMgr.cpp:3874-3890 | a valid state and one SET to 0 after which both the points and the meta credit are wrong |
| `Achievements.StepKeepsSettled` | src/game/AchievementMgr.cpp:3772-3890 | every kind of outside call (gain, lowering SET, timer) leaves a settled manager settled |
| `Achievements.RunSettles` | src/game/AchievementMgr.cpp:3693-3917 | from an empty manager, after any run of calls between which only the eligibility for meta and points criteria stays the same: a regular achievement is recorded exactly when it passes its test, every eligible untimed meta criterion of a recorded achievement has credit, every eligible points criterion is up to date |
| `Achievements.RunCloses` | src/game/AchievementMgr.cpp:3693-3706 | the first of these needs nothing to stay the same between the calls: whatever each call saw of the server, a regular achievement is recorded exactly when it passes its test |
| `Achievements.GainingRun` | src/game/AchievementMgr.cpp:3893-3917 | without lowered counters the achievement points are the points of the recorded achievements and meta credit is given exactly for recorded links |
| `Achievements.GainingRunMissesNothing` | src/game/AchievementMgr.cpp:3693-3706 | without lowered counters every achievement that passes its test is recorded, SUMM and timed ones included, unless it is a realm first or borrows from a pure counter |
| `Achievements.RecordFollowsTestExactly` | src/game/AchievementMgr.cpp:3844-3846 | for an untimed achievement that is no counter, no SUMM and no realm first: over all runs it is recorded exactly when it passes its test, if and only if it does not borrow from a pure counter a non-empty list that can meet its count; the borrowed criteria are taken to be ordinary ones, not meta criteria |
| `Achievements.BorrowedCounterIsMissed` | src/game/AchievementMgr.cpp:3844-3846 | the smallest case of the failing side: from a settled state one call stores progress of a pure counter, the borrowing achievement passes its test and stays unrecorded |
| `Achievements.SweepIsValidStep` | src/game/AchievementMgr.cpp:1188-1227 | removing expired timers and the progress of their unfinished criteria keeps every timer backed by a record and changes untimed criteria not at all |
| `Achievements.StartIsValidStep` | src/game/AchievementMgr.cpp:1124-1183 | starting timed criteria backs every timer with a record and leaves untimed criteria alone |
| `Achievements.LoadedValid` | src/game/AchievementMgr.cpp:800-846 | a loaded record clamped to a nonzero maximum keeps counters bounded and timers backed |
| `Achievements.AchievementMgr.IsCompletedCriteria` | src/game/AchievementMgr.cpp:3666-3690 | the test of one criterion, branch by branch |
| `Achievements.AchievementMgr.IsCompletedAchievement` | src/game/AchievementMgr.cpp:3708-3769 | the loops over the criteria decide the declarative test: running sum, count, or all of them; never for a counter |
| `Achievements.AchievementMgr.StoreProgress` | src/game/AchievementMgr.cpp:3772-3838 | a call without effect on the stored counter stores nothing; any other leaves the record at the change for SET, at the capped sum for ACCUMULATE and at the larger for HIGHEST, all within the maximum, marks it changed, and dates it |
| `Achievements.AchievementMgr.SetCriteriaProgress` | src/game/AchievementMgr.cpp:3772-3890 | ends on any achievement graph; for a criterion of its own type the counter after the whole recursion is the change (SET), the capped sum (ACCUMULATE) or the larger (HIGHEST), cut to the limit; a gain improves, a lowering withdraws exactly the failing dependents; the manager stays valid |
| `Achievements.AchievementMgr.CompletedCriteriaFor` | src/game/AchievementMgr.cpp:3693-3706 | afterwards the achievement is not missed, and nothing else is newly missed however deep the recursion went |
| `Achievements.AchievementMgr.CompletedAchievement` | src/game/AchievementMgr.cpp:3893-3967 | records the achievement once, adds its points and runs both meta updates; the measure is the set of achievements not yet recorded |
| `Achievements.AchievementMgr.UpdateAchievementCriteria` | src/game/AchievementMgr.cpp:1233-1266 | for any mix of changes and progress types, SET included, the loop is a walk of single calls from the old state to the new one; no criterion of the list is uncredited or lagging afterwards, and a settled manager stays settled |
| `Achievements.AchievementMgr.UpdateOne` | src/game/AchievementMgr.cpp:1571-1579 | one turn of that loop: a criterion of its own type that is offered and not done is stored as above and otherwise nothing changes; the two meta cases COMPLETE_ACHIEVEMENT and EARN_ACHIEVEMENT_POINTS are computed |
| `Achievements.AchievementMgr.DoFailedTimedAchievementCriterias` | src/game/AchievementMgr.cpp:1188-1227 | removes exactly the timers at or before now and exactly the progress of their unfinished criteria; the assertion that a timer has progress never fires |
| `Achievements.AchievementMgr.StartTimedAchievementCriteria` | src/game/AchievementMgr.cpp:1124-1183 | in a list of different criteria exactly the matching, explicitly started, unfinished ones whose time is not over already get a record at zero, dated to the start or to now, and a timer from then on |
| `Achievements.AchievementMgr.LoadProgress` | src/game/AchievementMgr.cpp:800-846 | rows of different criteria are all in memory afterwards: date kept, counter cut to a nonzero maximum and then marked changed, a timer exactly for a timed criterion that the stored counter does not fill, failed exactly when that has run out; unknown rows are skipped and the manager stays valid |
| `Achievements.AchievementMgr.IncompletedAchievement` | src/game/AchievementMgr.cpp:3975-4010 | erases the record and nothing else |
| `SumAchievements.UnreachedFits` | src/game/AchievementMgr.cpp:3725-3743 | counters within their maxima that do not make the achievement pass add up to at most the headroom of its criteria list, as long as no criterion can take the sum over 32 bits from there |
| `SumAchievements.FillHeadroom` | src/game/AchievementMgr.cpp:3772-3872 | that much is reached by calls from an empty manager, with the achievement still failing |
| `SumAchievements.SumFollowsExactly` | src/game/AchievementMgr.cpp:3725-3743 | main result: for an untimed SUMM achievement that is no counter and no realm first, over all runs of calls it is recorded exactly when it passes its test, if and only if it borrows no non-empty list of a pure counter and no criterion can take the sum over 32 bits before the achievement passes; for the failing half the criteria are ordinary ones, each once |
| `SumAchievements.WrappedSumStaysRecorded` | src/game/AchievementMgr.cpp:3725-3743 | the smallest case of the failing half: one gaining call leaves the achievement recorded although it fails its test |
| `Conditions.FindCorrect` | contrib/convertConditions/ConvertConditions.py:71-76 | the linear search returns the id of the equal entry, or 0 when there is none |
| `Conditions.EvalStable` | contrib/convertConditions/ConvertConditions.py:63-69 | appending entries never changes what an earlier id means |
| `Conditions.EvalIsLeaves` | contrib/convertConditions/ConvertConditions.py:172-211 | a shared node is met exactly when all atoms below it are |
| `Conditions.FindPairCorrect` | contrib/convertConditions/ConvertConditions.py:206-208 | searching both orders finds a node over two atoms whenever there is one |
| `Conditions.InsertAtom` | contrib/convertConditions/ConvertConditions.py:138-144 | interning an absent atom keeps ids dense, entries distinct and nodes canonical |
| `Conditions.InsertPair` | contrib/convertConditions/ConvertConditions.py:206-211 | appending an absent pair keeps the table canonical and represents exactly these two atoms |
| `Conditions.InsertTriple` | contrib/convertConditions/ConvertConditions.py:195-200 | appending a node over a pair and a third atom keeps the table canonical when no triple with these atoms was there |
| `Conditions.TripleSplits` | contrib/convertConditions/ConvertConditions.py:174-184 | every node over three atoms is a pair of two of them and the third, so the three searches see it |
| `Conditions.NoTripleYet` | contrib/convertConditions/ConvertConditions.py:188-196 | when the searches over all splits fail there is no node over these three atoms |
| `Conditions.RowIdMeaning` | contrib/convertConditions/ConvertConditions.py:98-220 | main result: for every environment the id emitted for a row is met exactly when all its non-empty conditions are |
| `Conditions.RowIdStable` | contrib/convertConditions/ConvertConditions.py:98-220 | the id of a row keeps its meaning however the table grows |
| `Conditions.RowIdCanonical` | contrib/convertConditions/ConvertConditions.py:112-211 | two rows have the same id exactly when they hold the same multiset of conditions, whatever came in between |
| `Conditions.PassMissesNothing` | contrib/convertConditions/ConvertConditions.py:273-292 | the tables a pass skips have no row with that many conditions |
| `Conditions.EveryRowOnce` | contrib/convertConditions/ConvertConditions.py:308-311 | over the four passes every row with a condition, in any table the expansion has, is due exactly once and rows without none |
| `Conditions.TablesAre` | contrib/convertConditions/ConvertConditions.py:260-292 | the tables of a database are gossip_menu, gossip_menu_option and ten loot tables, from expansion 1 on prospecting, from 2 on spell and milling loot, each once |
| `Conditions.CompareCondition` | contrib/convertConditions/ConvertConditions.py:50-61 | the comparison is the lexicographic order on (type, value1, value2) |
| `Conditions.OrderConditions` | contrib/convertConditions/ConvertConditions.py:112-119 | the compare-and-swap steps sort descending and keep every non-empty condition as often as it was there, so these form a prefix |
| `Conditions.RowConditions` | contrib/convertConditions/ConvertConditions.py:100-128 | the columns of a row yield its active conditions in descending order |
| `Conditions.Converter.FindCondition` | contrib/convertConditions/ConvertConditions.py:71-76 | the search loop is the search function |
| `Conditions.Converter.PairId` | contrib/convertConditions/ConvertConditions.py:203-211 | returns a node over exactly the two atoms, found or appended |
| `Conditions.Converter.TripleId` | contrib/convertConditions/ConvertConditions.py:173-200 | returns a node over exactly the three atoms, whichever two were joined before |
| `Conditions.Converter.ProgressRow` | contrib/convertConditions/ConvertConditions.py:94-220 | a row is interned in pass 0, gets one UPDATE in the pass of its number of conditions and none in the others |
| `Conditions.Converter.ProgressTable` | contrib/convertConditions/ConvertConditions.py:79-220 | the same for all rows of a table in order; the error branch for a missing atom is not reached |
| `Conditions.Converter.DoTables` | contrib/convertConditions/ConvertConditions.py:260-292 | the same for the tables of a database |
| `Conditions.Converter.Convert` | contrib/convertConditions/ConvertConditions.py:303-315 | all four passes over all databases, table by table as the expansion has them: every row with a condition has exactly one UPDATE, under its database, table and keys, with an id of its meaning in the final table; every UPDATE is for such a row |
| `Winding.IsPointInZone` | src/game/Archaeology.cpp:165-210 | the loop decides whether the sum of quadrant turns around the point is nonzero, for at least three vertices |
| `Winding.TurnVersusCrossing` | src/game/Archaeology.cpp:184-205 | for any edge, exactly when the quadrant step differs from the signed ray crossing (only for degenerate edges) |
| `Winding.TurnIsCrossing` | src/game/Archaeology.cpp:184-205 | off the edge the quadrant step is the signed crossing of the ray |
| `Winding.WindingIsCrossings` | src/game/Archaeology.cpp:170-209 | off the boundary the number is the upward minus the downward crossings of the ray |
| `Winding.RotationLaw` | src/game/Archaeology.cpp:170-209 | starting the list of vertices anywhere else does not change the winding number |
| `Winding.ReversalLaw` | src/game/Archaeology.cpp:170-209 | walking the polygon backwards negates the winding number of a point on no edge |
| `Winding.ChordLaw` | src/game/Archaeology.cpp:170-209 | a chord that misses the point cuts the polygon into two whose winding numbers add up |
| `Winding.SeparatedIsOutside` | src/game/Archaeology.cpp:170-209 | it is 0 when a line separates the point from the polygon |
| `Winding.OutsideBoxIsOutside` | src/game/Archaeology.cpp:170-209 | it is 0 outside the bounding box |
| `Winding.ConvexZone` | src/game/Archaeology.cpp:170-209 | for a convex polygon and any point on no edge it is nonzero exactly when the point is on the right of no edge and on the left of one |
| `Winding.TriangleWinding` | src/game/Archaeology.cpp:170-209 | for a triangle it is the orientation if the point is inside and 0 otherwise |
| `Winding.WindingIsFanCover` | src/game/Archaeology.cpp:170-209 | for any polygon it counts, with sign, the fan triangles that cover the point |
| `Winding.MapCoordinatesFit` | src/game/DBCStructure.h:3238-3245 | for map coordinates none of the 32-bit products and differences overflows |
| `Auctions.PaymentExact` | src/game/Player.h:1732-1743 | a payment the purse covers is taken in full: the clamp at 0 never acts |
| `Auctions.SettleHoldings` | src/game/AuctionHouseMgr.cpp:1023-1034 | who pays and who is refunded in a bid, for every player: the bidder pays all or the difference, the outbid player gets all back |
| `Auctions.BidHoldings` | src/game/AuctionHouseMgr.cpp:1015-1057 | a bid moves money between purse, mail and escrow and loses none, except the refund of a bidder who no longer exists; also on auctions already won |
| `Auctions.SellOneHoldings` | src/game/AuctionHouseHandler.cpp:334-364 | listing an item leaves what the seller owns unchanged: the deposit is on hold |
| `Auctions.CancelHoldings` | src/game/AuctionHouseHandler.cpp:489-526 | cancelling costs the owner the deposit and, with a bid, the cut; the bidder gets all of his bid back |
| `Auctions.DeliverHoldings` | src/game/AuctionHouseMgr.cpp:179-216 | delivery turns escrow and deposit into bid + deposit - cut for the seller |
| `Auctions.ExpireHoldings` | src/game/AuctionHouseMgr.cpp:593-603 | an auction without a bid costs the owner the deposit only |
| `Auctions.WinSound` | src/game/AuctionHouseMgr.cpp:1002-1013 | winning hands the item over once, empties the entry and keeps index and items accounted for |
| `Auctions.BidValid` | src/game/AuctionHouseMgr.cpp:1015-1057 | a bid of a player or the server keeps every purse solvent, active auctions below their buyout, items indexed and money accounted for |
| `Auctions.CancelValid` | src/game/AuctionHouseHandler.cpp:458-527 | so does a cancellation |
| `Auctions.DeliverValid` | src/game/AuctionHouseMgr.cpp:575-588 | so does the delivery of the money |
| `Auctions.ExpireValid` | src/game/AuctionHouseMgr.cpp:220-262 | so does the return of an item |
| `Auctions.TickAllValid` | src/game/AuctionHouseMgr.cpp:569-610 | so does the whole update loop |
| `Auctions.RunValid` | src/game/AuctionHouseMgr.cpp:569-1057 | main result: over every run of sales, bids, server bids, cancellations, ticks and changes of characters no balance is negative, the index is one-to-one with the active auctions of all houses, every listed item is in exactly one place, and all money adds up |
| `Auctions.TradingCostsNothing` | src/game/AuctionHouseHandler.cpp:334-454 | over any run of listing and bidding, whoever acts, what an existing player has in purse, mail and on hold stays exactly the same |
| `Auctions.TickExact` | src/game/AuctionHouseMgr.cpp:569-610 | one tick treats each auction by itself: which entries stay, how they change and which letters go out |
| `Auctions.LateBid` | src/game/AuctionHouseMgr.cpp:1015-1057 | all that a bid on an auction already won does: no item moves, so the first winner keeps it; a bidder other than the newcomer gets his whole bid back, and the newcomer's bid takes its place |
| `Auctions.LateBidderPaysForNothing` | src/game/AuctionHouseMgr.cpp:1015-1057 | whoever can offer more than the buyout of an auction won by buyout is taken, pays the buyout, and no item moves |
| `Auctions.LateBidHappens` | src/game/AuctionHouseMgr.cpp:1015-1057 | two players and one auction: the first buys it out, the second is taken and pays as well |
| `Auctions.LastBidderPays` | src/game/AuctionHouseMgr.cpp:1015-1057 | over every run, while an auction already won is not paid out, its entry differs from the won one only by the last bid taken: the first winner's money reaches the seller exactly when the last bid is his own |
| `Auctions.LastBidIsDelivered` | src/game/AuctionHouseMgr.cpp:575-588 | the tick that pays the seller pays the last bid taken and the deposit less the cut |
| `Auctions.TwoTicksSettle` | src/game/AuctionHouseMgr.cpp:569-610 | an auction past its time hands over or returns the item in one tick and pays the seller in a second one an hour later; then it is gone |
| `AuctionHouse.AuctionHouseMgr.ModifyMoney` | src/game/Player.h:1732-1743 | the purse ends at the sum, cut to 0 and to the gold cap |
| `AuctionHouse.AuctionHouseMgr.AddAItem` | src/game/AuctionHouseMgr.cpp:467-472 | enters an item; the assertion that it is new holds at every call |
| `AuctionHouse.AuctionHouseMgr.RemoveAItem` | src/game/AuctionHouseMgr.cpp:474-483 | removes an item and says whether it was there |
| `AuctionHouse.AuctionHouseMgr.SendAuctionOutbiddedMail` | src/game/AuctionHouseHandler.cpp:153-175 | all of the old bid goes to the old bidder, or is lost with him |
| `AuctionHouse.AuctionHouseMgr.SendAuctionCancelledToBidderMail` | src/game/AuctionHouseHandler.cpp:178-200 | the same on cancellation |
| `AuctionHouse.AuctionHouseMgr.SendAuctionWonMail` | src/game/AuctionHouseMgr.cpp:80-176 | the item goes to the bidder or is deleted; the entry lets go of it |
| `AuctionHouse.AuctionHouseMgr.SendAuctionSuccessfulMail` | src/game/AuctionHouseMgr.cpp:179-216 | the seller's letter, or nothing when he no longer exists |
| `AuctionHouse.AuctionHouseMgr.SendAuctionExpiredMail` | src/game/AuctionHouseMgr.cpp:220-262 | the item goes back to the owner or is deleted |
| `AuctionHouse.AuctionHouseMgr.AuctionBidWinning` | src/game/AuctionHouseMgr.cpp:1002-1013 | sets the delivery time and hands over the item |
| `AuctionHouse.AuctionHouseMgr.UpdateBid` | src/game/AuctionHouseMgr.cpp:1015-1057 | in place it is the bid operation; true exactly for a normal bid |
| `AuctionHouse.AuctionHouseMgr.HandleAuctionPlaceBid` | src/game/AuctionHouseHandler.cpp:376-455 | accepts exactly the bids of others that reach the start price, are covered by the purse, and meet the buyout or raise the bid by five copper for each whole hundred of it and by at least one; then money, mail and entry are as they should be, and otherwise nothing changes |
| `AuctionHouse.AuctionHouseMgr.RaiseIsTwentieth` | src/game/AuctionHouseMgr.cpp:980-986 | a raise that is enough is a twentieth of the bid, short of less than five copper; a twentieth is always enough |
| `AuctionHouse.AuctionHouseMgr.HandleAuctionRemoveItem` | src/game/AuctionHouseHandler.cpp:458-527 | cancels exactly when the owner asks, the item is there, and with a bid the purse covers the cut; then the cut is taken, the bidder gets his bid back and the owner the item, and otherwise nothing changes |
| `AuctionHouse.AuctionHouseMgr.AddAuction` | src/game/AuctionHouseMgr.cpp:899-938 | lists the clone under fresh ids |
| `AuctionHouse.AuctionHouseMgr.HandleAuctionSellItem` | src/game/AuctionHouseHandler.cpp:235-373 | lists the offers that pass the tests, in order, each against the money left, exactly when the start price is not 0, there are at most 180 offers and the time in 32 bits is 12, 24 or 48 hours; every new entry has the terms of the seller and the time of listing plus the stretched seconds |
| `AuctionHouse.AuctionHouseMgr.UpdateAuction` | src/game/AuctionHouseMgr.cpp:575-608 | one turn of the loop, by the fields: what is delivered, won, returned or left alone; the assertion that a pending auction holds no item never fires |
| `AuctionHouse.AuctionHouseMgr.UpdateHouse` | src/game/AuctionHouseMgr.cpp:569-610 | the walk visits the auctions of a house by ascending id, each once |
| `AuctionHouse.AuctionHouseMgr.Update` | src/game/AuctionHouseMgr.cpp:485-489 | all three houses in turn; what becomes of each auction is what its own turn makes of it |
| `AuctionSorter.Less` | src/game/AuctionHouseMgr.cpp:777-796 | the loop over up to twelve keys: less exactly when some key orders the two, reversed where asked, and no key before it ends the list or tells them apart |
| `AuctionSorter.ColumnDecides` | src/game/AuctionHouseMgr.cpp:644-775 | which fields a column compares and in which direction: level and quality of the prototype, buyout or bid first, time, bidder, name, offered bid, count |
| `AuctionSorter.NamesDecide` | src/game/AuctionHouseMgr.cpp:644-775 | names are compared at their first difference, and a proper prefix comes first |
| `AuctionSorter.EntryReversed` | src/game/AuctionHouseMgr.cpp:644-775 | every column, two-level columns included, is antisymmetric |
| `AuctionSorter.EntryChained` | src/game/AuctionHouseMgr.cpp:644-775 | every column is a total preorder on a list whose items are comparable |
| `AuctionSorter.OrderChained` | src/game/AuctionHouseMgr.cpp:777-796 | so is any sequence of columns, reversed or not |
| `AuctionSorter.SorterIsStrictWeakOrder` | src/game/AuctionHouseMgr.cpp:777-796 | the comparator is a strict weak order for every key vector exactly when every item has its prototype or those that have one look alike |
| `CalendarRemap.SequentialIsCompact` | src/game/Calendar.cpp:533-540 | renumbering one by one in ascending order never hits an id in use and equals renumbering all at once to 1..n in the old order |
| `CalendarRemap.RedirectIsRank` | src/game/Calendar.cpp:533-540 | a reference follows its target through all statements, and one without a target stays |
| `CalendarLoading.PlanRemaps` | src/game/Calendar.cpp:560-581 | planning new ids around expired events and dropping the entries that change nothing is the renumbering of the events that stay |
| `CalendarLoading.EventsRemapped` | src/game/Calendar.cpp:553-581 | deleting the expired events and then renumbering is collision-free and gives the remaining events 1..n |
| `CalendarLoading.ReferencesKept` | src/game/Calendar.cpp:524-541 | every invite still refers to the same event exactly when no invite without an event has one of the new ids |
| `CalendarLoading.TickLeavesOrphansExactly` | src/game/Calendar.cpp:737-797 | after a tick every invite row has its event exactly when no unwritten invite was there whose event is gone or about to be erased |
| `CalendarLoading.RestartAfterTickExactly` | src/game/Calendar.cpp:504-603 | a restart right after a tick keeps every reference exactly when none of these invites has one of the new ids |
| `CalendarLoading.RestartKeepsReferences` | src/game/Calendar.cpp:553-735 | from a quiet calendar a restart keeps every event that has not expired and every invite to one, each with its fields and each invite with its event, and nothing comes out marked |
| `CalendarLoading.StrayHappens` | src/game/Calendar.cpp:504-603 | two events and a late invite: after its event is removed, one tick and a restart the invite is to the other event |
| `CalendarLoading.LoadedInSync` | src/game/Calendar.cpp:605-735 | a loaded calendar is in step with its tables and both id generators are past every loaded id |
| `CalendarLoading.OrphansGo` | src/game/Calendar.cpp:697-713 | after the first tick no row of an invite without an event is left |
| `Calendars.MarkIsDoom` | src/game/Calendar.cpp:866-892 | which entries the first half of a tick marks |
| `Calendars.AbandonedAreMarked` | src/game/Calendar.cpp:33-36 | the destructor of an erased event finds all its invites marked already |
| `Calendars.TickMeaning` | src/game/Calendar.cpp:866-896 | one tick writes what is unsaved, erases what is saved and doomed, and changes nothing else |
| `Calendars.TickExactly` | src/game/Calendar.cpp:866-892 | the same by the fields: an entry ends by its mark, an event also without invitees or once its time and the delay are past, never by age with a negative delay; what ends and was written leaves, what ends unwritten is written and marked |
| `Calendars.TickTables` | src/game/Calendar.cpp:737-797 | after one tick both tables equal the stores, entry by entry and field by field, marked entries included |
| `Calendars.RunInSync` | src/game/CalendarHandler.cpp:255-703 | over every run of requests and ticks every SAVED entry, marked or not, has exactly its fields in its table, and no row is without an entry; only a loaded invite without an event differs, by the event id that its row keeps |
| `Calendars.TwoTicksSettle` | src/game/Calendar.cpp:866-896 | main result: two ticks from any state leave no mark, exactly the events that have not ended and their invites with their latest fields, and tables equal to the stores |
| `Calendars.QuietStays` | src/game/Calendar.cpp:866-896 | after that a tick changes nothing |
| `CalendarManager.CalendarMgr.DBRemap` | src/game/Calendar.cpp:504-551 | each of the three actions, statement by statement, on both tables |
| `CalendarManager.CalendarMgr.DBRemoveExpiredEventsAndRemapData` | src/game/Calendar.cpp:553-603 | the tables afterwards: exactly the events whose time and delay are not past, or all with a negative delay, as 1..n in the old order with their fields, their invites and those without an event as 1..m, references renumbered alike; no statement collides |
| `CalendarManager.CalendarMgr.LoadFromDB` | src/game/Calendar.cpp:605-735 | every event has its row and the invites that name it, every invite its row, an invite without an event comes out marked under id 0, and the id generators start past every id; the branch that takes the wrong maximum is never taken |
| `CalendarManager.CalendarMgr.SaveToDB` | src/game/Calendar.cpp:737-797 | the two walks save and erase every entry once, in whatever order |
| `CalendarManager.CalendarMgr.Update` | src/game/Calendar.cpp:866-896 | in place it is the tick: what ends, what is written and what both tables hold afterwards, said by time, delay, marks and invitees |
| `CalendarManager.CalendarMgr.AddEvent` | src/game/Calendar.cpp:299-331 | a new event under a fresh id, unsaved |
| `CalendarManager.CalendarMgr.AddInvite` | src/game/Calendar.cpp:356-394 | a new invite under a fresh id; adding it to its event cannot fail |
| `CalendarManager.CalendarMgr.HandleUpdateEvent` | src/game/CalendarHandler.cpp:309-372 | changes the fields, not creator or guild, and clears SAVED |
| `CalendarManager.CalendarMgr.RemoveEvent` | src/game/Calendar.cpp:333-353 | only the creator marks a live event |
| `CalendarManager.CalendarMgr.HandleInviteChange` | src/game/CalendarHandler.cpp:515-703 | changes status or rank of a reachable invite and clears SAVED |
| `CalendarManager.CalendarMgr.RemoveInvite` | src/game/Calendar.cpp:107-146 | marks a reachable invite unless it is the creator's own |
| `CalendarManager.CalendarMgr.RemovePlayerEvent` | src/game/Calendar.cpp:478-488 | marks one event of a leaving player and his invites to it |
| `CalendarManager.CalendarMgr.RemovePlayerCalendar` | src/game/Calendar.cpp:478-502 | marks exactly the live events of the player, or just those of the guild, and exactly his own invites to these; everything else stays |
| `CellVisits.PackingIsExact` | src/game/CellImpl.h:27-35 | packing a coordinate pair into six-bit fields loses nothing exactly for pairs on the map |
| `CellVisits.IndexIsPiece` | src/game/CellImpl.h:37-50 | the index of a place on the map is the cell piece it lies in, counted from the low edge: 66.67 units each, 0 to 511 |
| `CellVisits.NearColumns` | src/game/CellImpl.h:37-50 | every place within the radius lies in a column from low to high, unless the low side falls a whole cell below the map |
| `CellVisits.ColumnsCover` | src/game/CellImpl.h:37-50 | the columns from low to high hold every column within the radius exactly when the low side does not fall a whole cell below the map; otherwise low comes out past high |
| `CellVisits.LowEdgeIsReached` | src/game/CellImpl.h:37-50 | the failing side is reached on the map: less than a unit from its low edge, with the largest radius |
| `CellVisits.AreaWidth` | src/game/CellImpl.h:73-80 | with the radius capped an area is at most 17 columns wide |
| `CellVisits.ShiftIsCeiling` | src/game/CellImpl.h:129-133 | the corner cut is the least whole number from 0.3 * width - 0.5 on, and at most half the width |
| `CellVisits.SidesFilled` | src/game/CellImpl.h:160-179 | each step adds exactly the two columns of the octagon next to the filled part |
| `CellVisits.Map.VisitCircle` | src/game/CellImpl.h:126-180 | visits each cell of the octagon once and no other; no unsigned counter wraps and the descending loop ends |
| `CellVisits.Map.VisitStrip` | src/game/CellImpl.h:138-149 | visits the strip column by column, each cell once |
| `CellVisits.Map.VisitSides` | src/game/CellImpl.h:165-178 | visits a pair of outer columns, each cell once |
| `CellVisits.Map.VisitOthers` | src/game/CellImpl.h:101-120 | visits the standing cell first and every other cell of the rectangle once |
| `CellVisits.Map.VisitAround` | src/game/CellImpl.h:62-121 | which of the five behaviours applies and what is visited in each; around its own cell, unless a low side falls a whole cell below the map, the visit reaches the cell of every place within the radius in both directions, less the cut corners of the octagon |
| `CellVisits.Map.StandingFirst` | src/game/CellImpl.h:101-120 | for a cell at its own place the small visit is the rectangle and this cell, each once |
| `Channels.GiveOwner` | src/game/Channel.cpp:653-680 | handing the channel to a member leaves him as the only one with the owner flag |
| `Channels.JoinGood` | src/game/Channel.cpp:55-120 | joining keeps the channel in order; the first member of a custom channel owns it |
| `Channels.LeaveGood` | src/game/Channel.cpp:122-164 | leaving keeps it in order and passes the channel on |
| `Channels.KickGoodExactly` | src/game/Channel.cpp:166-234 | kicking and banning keep it in order exactly when the owner does not put himself out while others are there |
| `Channels.SelfKickHappens` | src/game/Channel.cpp:166-234 | two players on a new channel: the owner kicks himself and the channel is out of order |
| `Channels.SetModeGood` | src/game/Channel.cpp:310-375 | setting and clearing flags keeps it in order |
| `Channels.SetOwnerGood` | src/game/Channel.cpp:377-426 | so does naming a new owner |
| `Channels.RunGood` | src/game/Channel.cpp:55-426 | over every run without such a self-kick: the owner is a member and the only one flagged, a custom channel is owned exactly when it has members, keys are the stored guids, no banned guid is a member |
| `Channels.BannedStaysOut` | src/game/Channel.cpp:166-280 | who is banned stays out until he is unbanned |
| `Channels.Channel.HandleJoin` | src/game/Channel.cpp:55-120 | a player who is let in is a member under his guid and nobody else changes, except that the first of a custom channel owns it |
| `Channels.Channel.HandleLeave` | src/game/Channel.cpp:122-164 | the leaver is out and nobody else; if he owned the channel the first remaining member owns and moderates it |
| `Channels.Channel.HandleKickOrBan` | src/game/Channel.cpp:166-234 | exactly a moderator or master, and over the owner only the owner or a master, puts the target out; a ban adds him to the ban list and nobody else |
| `Channels.Channel.HandleUnBan` | src/game/Channel.cpp:236-280 | exactly a moderator or master takes the target off the ban list, and nothing else changes |
| `Channels.Channel.HandleSetMode` | src/game/Channel.cpp:310-375 | changes exactly the flag asked for, of the member asked for, when the tests allow it |
| `Channels.Channel.HandleSetOwner` | src/game/Channel.cpp:377-426 | exactly the owner or a master hands the channel to a member, who then is the only one with the owner flag |
| `Channels.Channel.SetOwnerGuid` | src/game/Channel.cpp:653-680 | clears the old flag, sets the new one, and adds the new owner if he is not there |

## Left out

- The per-type branches of `UpdateAchievementCriteria` and `AdditionalRequirementsSatisfied`: they yield a change and a
  progress type, which are inputs here; only the two meta cases are computed. Achievement flags are booleans.
- Achievement rewards, packets, mails and realm-first timing; which achievements the realm already holds is an input of
  a call. The guild manager runs the same code without rewards and without `IncompletedAchievement`.
- `Reset` of an achievement manager, which keeps the timers, and so breaks that every timer has progress.
- Achievements.GainingRun: for runs without lowered counters only; `LoweringKeepsPointsExactly` and `LoweringKeepsCreditsExactly` have the exact conditions for a lowering.
- SumAchievements.SumFollowsExactly: runs start from an empty manager and keep counters within their maxima, as all calls do; a loaded row of a criterion whose maximum is 0 keeps its counter and is not part of these runs.
- A clock that moves during one call: all its reads see one time.
- Conditions.Converter.Convert: starts from any canonical table; a loaded one is taken as canonical, because the source does not check more than its ids.
- The SQL text of the converter, its log and its dump file.
- Winding: the 32-bit wrap-around itself; `MapCoordinatesFit` shows that map coordinates never reach it.
- Auction deposits are computed with floats from prices and rates; here the deposit of an offer is an input. The cut is the whole part of a real rate between 0 and 1 times the bid.
- Amounts of 64 bits: purses are capped well below; a server bid beyond that range is not modelled.
- Loading auctions from the database, and item contents: an item is its guid.
- A stable sort of the auction list; only the comparator is modelled, with names as sequences of numbers.
- The permission tests of calendar requests: their outcome is an input. `CopyEvent` is a sequence of the modelled `AddEvent` and `AddInvite`. The flag UPDATED, which is never read.
- The end of an auction is its listing time plus the seconds times a real rate; the cast of that to 32 bits is not modelled.
- CellVisits: positions and radii are reals, so float rounding is not modelled; the corner cut is computed in whole numbers.
- CellVisits.Map.VisitAround: for coordinates whose conversion to int is defined.
- Channel passwords, announcements, moderation of speech, team and guild rules: their outcome is an input. Command results and packets.
- Account caches, cameras, bags, arena teams and the extraction tools.
