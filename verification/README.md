# Pewterdesk: its trading rules, books, trades and engines, proved

Pewterdesk trades a person's accounts on several crypto venues, and keeps that
person to rules of their own. This project models the parts of it that decide
what may be sent and what is reported, and proves what they promise.

- **The rules** (`Rules`, `Progress`, `Tightening`, `RuleBook`, `SameDay`,
  `Landing`, `WholeDay`, `Entries`). Facts about an account move a progress on (the day, the peaks, the
  sticky locks); every rule answers for an order; a change of the rules applies
  at once or waits for 00:00 UTC. The main result is relational: when a change
  that counts as no looser can admit an order the rules before it refused. It
  is then carried over whole days of changes, failed writes and looks.
- **The same, from the facts alone** (`Plainly`, `Looks`, `Challenge`, `Settings`).
  What an order is answered, in signed sizes, sets of trades and sessions of minutes;
  what any run of looks leaves, from their equities and days; when a challenge starts
  over, across any changes and midnights; which settings are taken and which at once.
- **The books** (`Ladder`, `BinanceBook`, `BlofinBook`). A copy kept from a
  snapshot, itself cut at some depth, and diffs is the venue's own book at every
  price it was told, whatever the network does, and it is said exactly when what is
  shown of it is the venue's best.
- **The trades** (`ClosedTrades`, `TradeLaws`, `OpeningTimes`, `RoundTrips`). Fills become
  closed trades. Nothing that realised a P&L is lost, counted twice, misdated or put
  on the wrong side; what was closed at break-even is left out, and it is said exactly
  when.
- **The calendar** (`Calendar`, `Candles`, `IsoTime`, `IsoText`, `Text`, `Ordering`). Closed
  forms are the counting of days, grouped candles are the same built up or all
  at once, and reading a time undoes writing it.
- **The engines** (`Accounts`, `Names`, `Trading`, `Gate`, `Router`, `Placing`, `Sending`,
  `Gated`). Several engines share one file of switched-on accounts, one set of locks and
  logs that only grow; the results are about every interleaving of their steps, and
  about when one call's order goes out and what is then on record.
- **Smaller ones** (`Tape`, `Slippage`, `Nonce`).

Prices, sizes and money are `real`; times and ids are `nat`. What the code
updates in place is a class here (`TradingRules`, `Book`, `Held`, `MonthGroups`,
`Tape`, `Disk`, `Kept`, `LiveTrading`, `Desk`), each method proved to do what a
function on values does, and the lemmas are about that function. Clocks, reads
and writes that may fail, and what a venue answers are parameters. A step of the
state machines whose condition isn't met changes nothing.

Where the code and its words disagree, or it does less than its words may lead one
to expect, the code is modelled, and what it does meet is proved exactly:

- Windows are compared as sets of minutes (`crates/engine/src/rules.rs:382`), but the part after
  midnight belongs to the day before (`crates/engine/src/rules.rs:415-418`). So a Weekdays window
  over midnight replaced by one in those small hours is taken for no looser and
  opens a Monday that was closed. `TighteningExactly` gives the exact condition
  and `OverMidnightWitness` an example.
- Hours are said to be "HH:MM" (`crates/engine/src/rules.rs:299`); a plus is taken for the first
  digit of either number. See `ClockExactly`.
- Rules that only warn are said never to refuse (`crates/engine/src/rules.rs:84`); an account that
  can't be read is refused all the same (`crates/engine/src/rules.rs:1531-1533`). See `BlockedExactly`.
- A gate file that can't be read is said to be nobody (`crates/engine/src/live.rs:130-131`); that is
  so of one that is gone or isn't a list, while a read that fails leaves the
  answer as it was (`crates/engine/src/kept.rs:79-86`). See `AnUnreadableFileLetsThrough`.
- Each order's gate decision is said to be logged before it is sent
  (`crates/engine/src/router.rs:19-22`); nothing looks at whether that note was written
  (`crates/engine/src/router.rs:247-258`). See `ThePassIsOnRecordIfWritten` and
  `AnUnloggedPassIsStillSent`.
- One engine is said to trade an account (`crates/engine/src/owner.rs:1-5`); a
  lock is for the way a call spelled it. It holds of numbered accounts and of no
  wallet: see `OneEngineExactly` and `TwoEnginesExactly`.
- A copy is marked read with a stamp taken after the read
  (`crates/engine/src/kept.rs:91-95`), so a write in between is not seen until the
  next one. See `TakenAfterReading`.
- `iso_time` is said to read ISO 8601 times (`crates/calendar/src/econ.rs:72-74`).
  It looks at neither character between hours, minutes and seconds, and takes a
  31st of any month and a zone with signs for digits, with 24 hours or more or with
  60 minutes or more: see `AnOddTextIsTaken` and `AFarZoneIsTaken`, and
  `RfcExactly` for which of the texts it takes are times as section 5.6 of RFC 3339
  writes them.
- A closed trade is said to be an order's trades that realised P&L
  (`crates/exchange-binance/src/history.rs:200-204`), so a position closed at
  exactly its cost is no closed trade, nor a part of one, and its fee is in none:
  see `ReportedExactly` and `BreakEvenWitness`.
- A diff that doesn't follow on is said to be a gap
  (`crates/exchange-binance/src/book.rs:1-6`); a whole stream with nothing missing
  meets one too, where a diff starts past the snapshot and the one before it, if
  any, ended before it. See `NoGapExactly`.
- A copy of a book is said to be kept correctly; snapshots are cut at 1000 levels
  and at 200 (`crates/exchange-binance/src/lib.rs:69`,
  `crates/exchange-blofin/src/book.rs:1-2`), and below that the copy has no more
  than diffs told it. See `ShownExactly` and `ShownIsTheVenuesBest`.
- Rules are said to be an account's (`crates/engine/src/rules.rs:471-472`); they are
  found by the text a call spelled it with, where the trader is found by what that
  text means. Every spelling meets the same rules for numbered accounts and for no
  wallet: see `OneSetOfRulesExactly`.

## Model

| member | source | states |
|---|---|---|
| Tightening.TighteningExactly | crates/engine/src/rules.rs:362-390 | of two valid sets of rules where the new counts as no looser: the new refuses every order the old refuses, at every time, in every state, exactly if the old only warn or the small hours after midnight were not taken up |
| Tightening.TighteningIsSound | crates/engine/src/rules.rs:1517-1541 | one decision: after the same look, an order refused before a no-looser change is refused after it, wherever the hours are no wider at that instant, whatever locks the progress has of other days, read or unread account alike |
| Tightening.TighteningOverRuns | crates/engine/src/rules.rs:850-1056 | the same after any run of looks in time order from one progress |
| Tightening.LockSimulation | crates/engine/src/rules.rs:838-917 | over any run the tighter rules are locked wherever the looser are, all other progress being equal |
| Tightening.LocksFollow | crates/engine/src/rules.rs:883-917 | one look keeps that relation between two progresses, and its part for the day of the look alone |
| Tightening.FloorRises | crates/engine/src/rules.rs:838-846 | a smaller maximum never puts the drawdown floor lower, trailing or not |
| Tightening.HoursNarrowExactly | crates/engine/src/rules.rs:405-419 | of a no-looser change: its hours are narrower at every instant exactly if it doesn't take the small hours |
| Tightening.OverMidnightWitness | crates/engine/src/rules.rs:381-382 | Weekdays 22:00-06:00 made 00:00-06:00 counts as no looser and opens Monday 03:00 |
| Tightening.SmallHoursAdmit | crates/engine/src/rules.rs:362-390 | wherever the small hours are taken, an order on a quiet account shows it: refused before, let through after |
| Tightening.NotLooserChains | crates/engine/src/rules.rs:362-390 | changes that are no looser chain |
| Tightening.NotLooserThanItself | crates/engine/src/rules.rs:362-390 | rules given again as they are apply at once |
| Plainly.DecidesPlainly | crates/engine/src/rules.rs:1517-1541 | the whole answer from the facts: what passes, what is refused unread, and otherwise the first rule in turn that has something against the order, each said in signed sizes, counts and times |
| Plainly.AnswersPlainly | crates/engine/src/rules.rs:1098-1211 | the first failure of the list of answers is that rule, and an order that takes a position down has none |
| Plainly.UncheckedExactly | crates/engine/src/rules.rs:1080-1093 | there is nothing to check exactly if the order is marked so or leaves a position of its market smaller by all of its own size, with shorts and sells below zero |
| Plainly.AfterIsSigned | crates/engine/src/rules.rs:1154-1175 | what a market holds after the order is worth its signed value and the order's together |
| Plainly.LeverageIsSigned | crates/engine/src/rules.rs:1176-1187 | the leverage after is every other market's value and that, over the equity; without equity it has no end |
| Plainly.TradesAreCounted | crates/engine/src/rules.rs:672-675 | the day's trades are the number of entries dated today or later |
| Plainly.NewsRefusesNear | crates/engine/src/rules.rs:1122-1136 | the blackout refuses exactly where some release is no more than its minutes away, either way, or the calendar wasn't read |
| Plainly.CoolsOffExactly | crates/engine/src/rules.rs:918-925 | there is a cool-off exactly if the last closed trades, as many as the rule counts, all lost, and it ends its minutes after the last of them |
| Plainly.RevengeExactly | crates/engine/src/rules.rs:1143-1151 | a re-entry is refused exactly if the market's last close lost and its minutes aren't over |
| Plainly.OpenExactly | crates/engine/src/rules.rs:405-419 | the hours are open exactly inside a session, begun on a day with trading, that runs until the clock next shows its end |
| Plainly.ChecksShow | crates/engine/src/rules.rs:1098-1211 | the figure and limit that each answer shows |
| Plainly.StandsPlainly | crates/engine/src/rules.rs:850-1056 | the standing from the facts: the day's result and share of its limit, its trades, the run of losses and the pause, the warning at four fifths, the hours |
| Plainly.PeakIsTheMark | crates/engine/src/rules.rs:838-846 | an equity is down by the maximum exactly if it is that far under the peak shown |
| Tightening.BlockedExactly | crates/engine/src/rules.rs:1517-1541 | an opening order is refused exactly if the account can't be read (only warning or not), or a rule refuses and the rules do more than warn; `Plainly` says when each does |
| Tightening.ChecksFailExactly | crates/engine/src/rules.rs:1098-1211 | the list of answers holds a failure exactly if one of the rules, each said by itself, refuses |
| Tightening.GroupsFailExactly | crates/engine/src/rules.rs:1111-1147 | which check of locks, hours, news, cool-off and revenge fails, and when |
| Tightening.LimitsFailExactly | crates/engine/src/rules.rs:1148-1209 | which check of size, leverage, day's trades, stop and risk fails, and when |
| Rules.FirstFailed | crates/engine/src/rules.rs:1537-1540 | the refusal names a rule that failed, and there is one exactly if some rule did |
| Rules.Clock | crates/engine/src/rules.rs:300-308 | a clock that reads is a minute of one day |
| Progress.Observe | crates/engine/src/rules.rs:850-1056 | the look in place comes to the progress and the standing the functions give |
| Progress.BringUp | crates/engine/src/rules.rs:850-881 | its first half, field by field: the new day and the peaks |
| Progress.SetLocks | crates/engine/src/rules.rs:883-904 | its second half: unless the rules only warn, the day locks with its limit used up and the challenge fails at or under the floor, at the first such time; and the share of the day used |
| Looks.LookLocks | crates/engine/src/rules.rs:889-904 | one look: the day is locked exactly if it was or its loss from the day's start has reached the limit, the challenge failed exactly if it was or the equity is at or under the floor, at the first such time; rules that only warn lock nothing |
| Looks.FailsExactly | crates/engine/src/rules.rs:838-904 | over any run: a challenge is failed exactly if it was at the start or some look was down by the maximum from the size, or from a high (or a day's end) seen by then and no more than the maximum over the size, and it failed at the first such look |
| Looks.LocksExactly | crates/engine/src/rules.rs:883-904 | over any run: the last look's day is locked exactly if it was at the start or some look of that day had lost the limit from where the day began |
| Looks.DayIsAsBegun | crates/engine/src/rules.rs:855-876 | over any run: the day is as its first look found it, its balance the equity less what was won since and is open, its equity yesterday's last if that was seen |
| Looks.PeaksAreHighest | crates/engine/src/rules.rs:866-878 | over any run: the peak is the highest equity of all looks, the end-of-day peak the highest that a day ended on, neither under the size |
| Looks.CurveIsNewest | crates/engine/src/rules.rs:866-870 | over any run: the curve is the last 400 points that days ended on |
| Looks.LockSays | crates/engine/src/rules.rs:905-917 | which lock stands, and until which midnight |
| Progress.ObserveKeeps | crates/engine/src/rules.rs:838-904 | a look keeps the curve ordered and within its cap, lowers no peak and no floor, keeps the floor between size less maximum and size, lifts no lock |
| Progress.RunsNeverUnlock | crates/engine/src/rules.rs:838-904 | the same from start to end of any run: a failed challenge stays failed, a day's lock holds for that day |
| Progress.EmptyIsSound | crates/engine/src/rules.rs:454-469 | new rules start in such a state |
| RuleBook.TradingRules.Set | crates/engine/src/rules.rs:1328-1398 | what a change does to list and file, and that one that is out of range, over the number kept or not written leaves what there was |
| RuleBook.TradingRules.Settle | crates/engine/src/rules.rs:1293-1304 | every change that is due applies, and no other, and what an account has got to is new exactly where it lands turned off or with another preset or size |
| Challenge.ProgressExactly | crates/engine/src/rules.rs:1293-1513 | over any operations and midnights that don't forget the account: what it has got to is what the looks since the last other challenge make of none, or of what it had before if there was no other |
| Challenge.NewExactly | crates/engine/src/rules.rs:1293-1398 | without looks, it is new exactly if a change landed that turned the set on or off or gave it another preset or size |
| Challenge.FailedStaysFailed | crates/engine/src/rules.rs:1293-1513 | however its limits are changed, an account kept on one challenge stays failed if it was, with the same time, and no peak falls |
| Challenge.StepStartsOver | crates/engine/src/rules.rs:1293-1513 | one operation: new with another challenge, moved on by a look, kept otherwise |
| Challenge.LandingStartsOver | crates/engine/src/rules.rs:1293-1304 | what a landing change does to it |
| Challenge.ChangeStartsOver | crates/engine/src/rules.rs:1371-1391 | and what a change at once does |
| Challenge.ChangeDiffersExactly | crates/engine/src/rules.rs:1371-1391 | given rules start another challenge at once exactly if the set was off and is turned on, or off and given another |
| Challenge.NewSetIsNew | crates/engine/src/rules.rs:1354-1368 | an account without a set is given a new one, up to twenty |
| Settings.AtOnceExactly | crates/engine/src/rules.rs:1371-1391 | rules given to a set that is on are in force at once exactly if it stays on and they are as tight in every respect, and wait otherwise |
| Settings.LooserExactly | crates/engine/src/rules.rs:364-390 | what counts as looser, setting by setting, hours minute by minute |
| Settings.ValidExactly | crates/engine/src/rules.rs:328-355 | which sets of rules are taken |
| Settings.ClockExactly | crates/engine/src/rules.rs:299-307 | which texts read as which time of day |
| RuleBook.TradingRules.Remove | crates/engine/src/rules.rs:1402-1408 | an account's rules are forgotten at once, in list and file or in neither |
| RuleBook.TradingRules.InForce | crates/engine/src/rules.rs:1411-1419 | the rules of the account's set if it is on, after settling |
| RuleBook.TradingRules.Stand | crates/engine/src/rules.rs:1496-1513 | a look keeps the account's progress, and writes only if it changed |
| RuleBook.IndexOf | crates/engine/src/rules.rs:536-538 | the first set of the account |
| SameDay.NoSameDayLoosening | crates/engine/src/rules.rs:1293-1398 | over any operations of one day without removing the account, a set that is on stays on, never looser than earlier, its challenge the same, its locks kept |
| SameDay.InForceNeverAdmitsMore | crates/engine/src/rules.rs:1350-1419 | from any reachable state: what was refused under the day's earlier rules is refused under the later, but for the small hours |
| SameDay.StepIsNoLooser | crates/engine/src/rules.rs:1293-1513 | one operation of that day, on this account or any other |
| WholeDay.TheDayAdmitsNoMore | crates/engine/src/rules.rs:1293-1541 | from any reachable state: what the morning's rules would refuse after the day's looks, the rules in force after the day's changes refuse with the progress they keep, but for the small hours |
| WholeDay.DayFollows | crates/engine/src/rules.rs:1293-1513 | through the day the kept progress is locked wherever those looks would have locked the morning's rules |
| Landing.LandsOnMidnight | crates/engine/src/rules.rs:1293-1398 | with any operations on other accounts, looks and failed changes between: a loosening is in force from the first operation that settles on a later day and not before, anything else at once, and then nothing moves it but another change |
| Landing.StepTerms | crates/engine/src/rules.rs:1293-1304 | one operation lands what waits exactly if it settles on a later day |
| SameDay.StepsKeep | crates/engine/src/rules.rs:1293-1513 | over any run: one set an account, every rule valid, every wait ending on a midnight, no more sets than are kept |
| SameDay.SettlingStartsTheDay | crates/engine/src/rules.rs:1293-1304 | a settled list has nothing left that could land before the next midnight |
| Entries.FromVenue | crates/engine/src/rules.rs:588-661 | the loop over fills comes to the facts the functions give |
| Entries.EnteredIsOneAnOrder | crates/engine/src/rules.rs:611-641 | one entry for every order that opened and no other, worth all its opening fills, at the earliest of them, on its first fill's market |
| Entries.EntriesAddUp | crates/engine/src/rules.rs:611-641 | the entries are worth what the opening fills are, and come oldest first |
| Entries.FactsAreTheVenues | crates/engine/src/rules.rs:588-661 | the other facts are the venue's: positions by size and mark, closed trades oldest first and otherwise as given |
| Ladder.LastNamed | crates/exchange-binance/src/book.rs:37-45 | of several levels at one price the last counts, and one of no size takes it off |
| Ladder.NotNamed | crates/exchange-binance/src/book.rs:37-45 | a price no level names is as it was |
| Ladder.SetLevels | crates/exchange-binance/src/book.rs:37-45 | the loop sets or takes away each level in turn |
| Ladder.DiffAdvancesAt | crates/exchange-binance/src/book.rs:59-81 | a diff sets a price it names right, and keeps right one that was so anywhere inside its span |
| Ladder.DiffAdvances | crates/exchange-binance/src/book.rs:59-81 | so it brings a whole side from anywhere inside its span to the venue's side at its end, updates the snapshot had already included |
| Ladder.BestOfBothExactly | crates/exchange-binance/src/book.rs:84-95 | a list of one side's best levels is another's exactly if the two agree at every price it reaches |
| Ladder.CutAgrees | crates/exchange-binance/src/book.rs:49-57 | a venue's list of its best levels is right of every price no worse than its last |
| Ladder.Top | crates/exchange-binance/src/book.rs:84-95 | the best levels strictly in order, as many as asked or there are, and every one left out is worse |
| BinanceBook.Book.Reset | crates/exchange-binance/src/book.rs:49-57 | the book of the snapshot alone, waiting for its first diff |
| BinanceBook.Book.Apply | crates/exchange-binance/src/book.rs:59-81 | changed, stale or gap, and when each: a diff that doesn't name the last applied is a gap; and the book that leaves |
| BinanceBook.Book.Snapshot | crates/exchange-binance/src/book.rs:84-95 | the best levels of each side |
| BinanceBook.AlwaysRightAt | crates/exchange-binance/src/book.rs:49-81 | at a price at which every message is right, the book is the venue's at the last update applied, whatever arrives |
| BinanceBook.ToldIsRight | crates/exchange-binance/src/book.rs:49-81 | a price in a snapshot's depth, or named by an applied diff, is right from then on |
| BinanceBook.ShownExactly | crates/exchange-binance/src/book.rs:84-95 | the levels shown are the venue's best exactly if the book is right at every price they reach |
| BinanceBook.ShownIsTheVenuesBest | crates/exchange-binance/src/book.rs:49-95 | and they are after a snapshot cut at any depth while each of those prices was inside it or named since |
| BinanceBook.AlwaysTheVenuesBook | crates/exchange-binance/src/book.rs:49-81 | so with snapshots of the whole book, for any history and any arrival of its messages, the book is the venue's at the last update applied, with no level of no size |
| BinanceBook.DiffRefines | crates/exchange-binance/src/book.rs:59-81 | one diff keeps that, the one across the snapshot too |
| BinanceBook.WholeStreamKeepsUp | crates/exchange-binance/src/book.rs:59-81 | a stream chained by its previous ids, with no diff that jumps over the snapshot, brings the book to its own last update |
| BinanceBook.WholeStreamNeverGaps | crates/exchange-binance/src/book.rs:59-75 | and none of its diffs is called a gap |
| BinanceBook.NoGapExactly | crates/exchange-binance/src/book.rs:59-75 | of a whole stream no diff is a gap exactly if none starts past the snapshot while the one before it, if any, ended before it |
| BinanceBook.JumpsWithoutHoles | crates/exchange-binance/src/book.rs:59-75 | where ids leave none out, exactly if the stream starts before the snapshot |
| BinanceBook.AHoleIsAGap | crates/exchange-binance/src/book.rs:59-75 | a book following a stream, to where a diff goes missing: the first after the hole is a gap, and so is every later one until a reset, whichever of the stream arrive, the book staying as it was |
| BinanceBook.OnlyTheNext | crates/exchange-binance/src/book.rs:60-65 | once a diff of a stream was applied, the next is and any other is a gap |
| BinanceBook.StaleExactly | crates/exchange-binance/src/book.rs:66-75 | stale is exactly a diff that ends before the snapshot, to a book waiting for its first; without a snapshot every diff is a gap |
| BlofinBook.Book.Apply | crates/exchange-blofin/src/book.rs:52-73 | a snapshot or an update that names the last id is applied and anything else is a gap, and the book each leaves |
| BlofinBook.Book.Snapshot | crates/exchange-blofin/src/book.rs:76-87 | the best levels of each side, the venue's contracts made base units |
| BlofinBook.AlwaysRightAt | crates/exchange-blofin/src/book.rs:40-73 | at a price at which every push is right, the book is the venue's whenever it has an id |
| BlofinBook.ToldIsRight | crates/exchange-blofin/src/book.rs:40-73 | a price in a snapshot's depth, or named by an applied update, is right from then on |
| BlofinBook.ShownExactly | crates/exchange-blofin/src/book.rs:76-87 | the levels shown in base units are the venue's best exactly if the book is right at every price they reach |
| BlofinBook.ShownIsTheVenuesBest | crates/exchange-blofin/src/book.rs:40-87 | and they are after a snapshot cut at any depth while each of those prices was inside it or named since |
| BlofinBook.AlwaysTheVenuesBook | crates/exchange-blofin/src/book.rs:40-73 | so with snapshots of the whole book, whatever pushes arrive in any order, a book with an id is the venue's at that id, with no level of no size |
| BlofinBook.OnlyASnapshotRestarts | crates/exchange-blofin/src/book.rs:52-73 | a book that lost its place takes nothing else |
| BlofinBook.OnlyTheNext | crates/exchange-blofin/src/book.rs:52-73 | of updates as sent, the one after the last applied is applied, and any other is a gap that changes nothing |
| BlofinBook.AppliesInTurn | crates/exchange-blofin/src/book.rs:52-73 | with none lost each is applied in its turn |
| BlofinBook.AHoleIsAGap | crates/exchange-blofin/src/book.rs:52-73 | with one lost, all that arrive of the others are gaps until a snapshot |
| BlofinBook.SnapshotRestarts | crates/exchange-blofin/src/book.rs:52-73 | a snapshot is taken whatever came before, whole, and gives the id to go on from |
| ClosedTrades.FromTrades | crates/exchange-binance/src/history.rs:205-309 | the loop over trades, with positions updated in place, comes to the rows the functions give |
| ClosedTrades.Take | crates/exchange-binance/src/history.rs:219-250 | one trade into its market's position: what it closed, and when that was opened |
| ClosedTrades.Enter | crates/exchange-binance/src/history.rs:251-281 | a closing trade joins its order's row or starts it, a sell for a long and a buy for a short |
| ClosedTrades.Held.OpenedAt | crates/exchange-binance/src/history.rs:171-175 | a time no further than half from what is held's average, and none only with nothing held or times before zero |
| OpeningTimes.AverageBetween | crates/exchange-binance/src/history.rs:171-175 | that average lies between the earliest and latest time it is made of |
| ClosedTrades.Held.Reduce | crates/exchange-binance/src/history.rs:178-191 | some taken off, never past nothing |
| ClosedTrades.Held.Add | crates/exchange-binance/src/history.rs:194-197 | more held, on the side it was bought or sold |
| ClosedTrades.RowsHaveSize | crates/exchange-binance/src/history.rs:283-291 | no average is ever divided by nothing |
| ClosedTrades.RoundStaysBetween | crates/exchange-binance/src/history.rs:171-175 | rounding leaves a time between whole times around it |
| TradeLaws.TradeSplits | crates/exchange-binance/src/history.rs:219-250 | each trade is a closing and an opening part, exactly, and moves the position by all of it |
| TradeLaws.PositionIsNet | crates/exchange-binance/src/history.rs:219-250 | a market's size is the signed sum of its quantities since its last close out of nowhere |
| TradeLaws.RowsSumTheirTrades | crates/exchange-binance/src/history.rs:251-281 | every order with a trade that realised P&L has one row, the sum of those trades' closing parts, exit values, P&L and fees; no other order has any |
| TradeLaws.RowsConserve | crates/exchange-binance/src/history.rs:205-282 | the rows together are the closing parts of the trades that realised P&L, and all of it less their closing share of fees |
| TradeLaws.ClosedTradesConserve | crates/exchange-aster/src/history.rs:205-309 | the same of what is reported, for every list of trades |
| TradeLaws.RowsLeaveOutBreakEven | crates/exchange-binance/src/history.rs:222-234 | against what all trades closed: all the P&L, no more size and no more fees; all the size exactly if no trade against its position realised nothing, all the fees exactly if none of those was charged one |
| TradeLaws.ReportedExactly | crates/exchange-aster/src/history.rs:205-309 | the same of what is reported, in size and in money |
| TradeLaws.BreakEvenWitness | crates/exchange-binance/src/history.rs:222-234 | a whole position bought and sold at one price leaves no row |
| TradeLaws.ReportBalances | crates/exchange-binance/src/history.rs:283-305 | exit less entry, times size, is the P&L before fees on the row's side |
| RoundTrips.RoundTripIsReported | crates/exchange-binance/src/history.rs:205-309 | bought and sold again, or sold and bought back, and listed either way round: one closed trade of that side and size, in at the one price and out at the other, with the profit less the closing fee, opened and closed when it was |
| RoundTrips.RowSides | crates/exchange-binance/src/history.rs:251-256 | every row is for the side of the position its starting close was of, above zero for a long, or where none shows, for the side such a trade takes down |
| RoundTrips.RowsEnd | crates/exchange-binance/src/history.rs:259-281 | a row's time is its order's last close |
| RoundTrips.FollowedInOrder | crates/exchange-binance/src/history.rs:206 | every trade is followed, by time and then by id |
| RoundTrips.ReportedNewestFirst | crates/exchange-binance/src/history.rs:283-309 | every row is reported, newest first |
| RoundTrips.AddingAverages | crates/exchange-binance/src/history.rs:194-197 | adding weighs the times by size |
| RoundTrips.FeeIsShared | crates/exchange-binance/src/history.rs:257-258 | a fee is shared by quantity between closing and opening, whole |
| OpeningTimes.ReduceKeepsAverage | crates/exchange-binance/src/history.rs:178-191 | taking some off keeps the average time |
| OpeningTimes.TimedIsHeld | crates/exchange-binance/src/history.rs:164-198 | nothing is timed exactly if nothing is held, for times after the epoch |
| OpeningTimes.FollowStaysBetween | crates/exchange-binance/src/history.rs:219-250 | one trade keeps the average between the trade that opened the position and itself |
| OpeningTimes.OpeningTimeIsBetween | crates/exchange-binance/src/history.rs:171-250 | what is reported for a close lies between the opening trade and the close, rounded, flipped or not |
| OpeningTimes.RowOpenedBetween | crates/exchange-aster/src/history.rs:205-309 | so does every row's, and it has one exactly where the close that started it was against a position in the trades |
| Calendar.ClosedFormsCount | crates/calendar/src/text.rs:86-93 | on every day from the epoch, date to day and day to date are the counting of days |
| Calendar.DateComesBack | apps/cli/src/show.rs:53-66 | every date comes back from its number of days |
| Calendar.NextIsOneMore | crates/calendar/src/text.rs:86-93 | the next date is one day more, over months, years, leap days and centuries |
| Calendar.MonthStartIsGreatest | crates/core/src/candles.rs:13-37 | the month of a time starts at the greatest month boundary not after it |
| Calendar.MonthStartReadsBack | crates/core/src/candles.rs:13-37 | a month's start is in that month |
| Calendar.MonthsInOrder | crates/core/src/candles.rs:13-22 | later times are in no earlier months |
| Candles.GroupIsAligned | crates/core/src/candles.rs:41-45 | a group opens on a month boundary not after any time in it, and its opening is its own |
| Candles.GroupSpans | crates/core/src/candles.rs:41-45 | a group is that many months of one year from the first after whole groups, and opens with its first |
| Candles.LeftOutExactly | crates/core/src/candles.rs:72-78 | of whole months, the oldest group is left out exactly if more may be older and its opening month isn't there |
| Candles.LastOfAMonth | crates/core/src/candles.rs:93-107 | of several candles of a month the last is kept |
| Candles.OtherMonthsStay | crates/core/src/candles.rs:100-107 | and a month without any is as it was |
| Candles.GroupsInOrder | crates/core/src/candles.rs:41-45 | later times are in no earlier groups |
| Candles.GroupMonths | crates/core/src/candles.rs:59-79 | the loop comes to the groups defined run by run, the oldest left out if its first month is missing |
| Candles.GroupedIsWhole | crates/core/src/candles.rs:59-79 | merged months are the runs of one group, each made one candle |
| Candles.WholeIsOne | crates/core/src/candles.rs:47-52 | a group opens and closes as its first and last month, with the highest high, lowest low and all the volume |
| Candles.MonthGroups.Update | crates/core/src/candles.rs:100-123 | exactly the groups of everything kept that the candles fell in, whole, once each and oldest first |
| Candles.MonthGroups.Insert | crates/core/src/candles.rs:101-107 | what is kept after, and which groups were touched |
| Candles.TouchedGroup | crates/core/src/candles.rs:100-123 | a touched group is what grouping all kept months makes of it, and the only one opening there |
| IsoTime.ReadUndoesWrite | crates/calendar/src/econ.rs:75-123 | of every instant with a local year from 1970 to 2200, any zone of up to 99 hours and any fraction, the text laid out as in RFC 3339 section 5.6 reads back as that instant to the millisecond, and as nothing exactly for one before the epoch |
| IsoTime.MillisTruncate | crates/calendar/src/econ.rs:89-101 | a fraction of any length is cut to milliseconds |
| IsoTime.ZoneReadsBack | crates/calendar/src/econ.rs:102-110 | every zone reads back as its offset |
| IsoText.RfcIsTaken | crates/calendar/src/econ.rs:75-123 | every time of the form of section 5.6 of RFC 3339 with capitals, from 1970 to 2200, is taken as its instant to the millisecond, a leap second too, but for one before the epoch |
| IsoText.TakenExactly | crates/calendar/src/econ.rs:75-123 | which texts are taken, by their shape and the ranges of their parts |
| IsoText.RfcExactly | crates/calendar/src/econ.rs:75-123 | of the texts taken, exactly those are of the form of section 5.6 of RFC 3339 that have colons in the time of day, a day of their month, and a zone of digits with hours below 24 and minutes below 60 |
| IsoText.AnOddTextIsTaken | crates/calendar/src/econ.rs:75-123 | 2024-06-31T05x30y00Z is taken and is not of that form |
| IsoText.AFarZoneIsTaken | crates/calendar/src/econ.rs:102-110 | nor is any time that is taken in a zone of 24 hours or more |
| IsoTime.PrintedReadsBack | apps/cli/src/show.rs:53-72 | a date and minute printed read back to that minute |
| Text.SplitOnce | crates/engine/src/live.rs:90-96 | the text either side of the first separator |
| Tape.Tape.Record | crates/exchange-binance/src/tape.rs:22-41 | the loop over new trades comes to the tape the function gives, and false is a tape as it was |
| Tape.TapeAsItWasExactly | crates/exchange-binance/src/tape.rs:22-41 | where something was new, the tape is yet as it was exactly if it is full and all that is new is older than all of it |
| Tape.TapeIsNewest | crates/exchange-blofin/src/tape.rs:22-41 | after any batches: no id twice, newest first, at most a hundred, none left out newer than one kept, none left out unless full |
| Tape.WithAllKeeps | crates/exchange-aster/src/tape.rs:22-41 | one batch keeps the order and the ids |
| Slippage.Bound | crates/exchange-binance/src/orders.rs:101-131 | the one price on the grid that is as loose as may be without passing the slipped price or the band's edge |
| Slippage.TightestInNumbers | crates/exchange-binance/src/orders.rs:101-131 | in numbers: a whole number of ticks, at most so many basis points over the price for a buy and under it for a sell, inside the band on that side, and one tick on is not |
| Slippage.MarketPrice | crates/exchange-binance/src/orders.rs:199-210 | that bound for a market order, or which of three refusals |
| Slippage.AsterBoundIsTightest | crates/exchange-aster/src/orders.rs:87-99 | Aster's, without a band, is the same |
| Slippage.SnapIsInside | crates/exchange-binance/src/orders.rs:101-110 | rounding down, or up, is the closest on the inside |
| Slippage.TightestIsUnique | crates/exchange-binance/src/orders.rs:113-131 | there is one such price |
| Nonce.NoncesOnlyRise | crates/exchange-aster/src/lib.rs:101-115 | over all threads and clocks: nonces strictly rise in the order of the exchanges, and none is below the time its thread read |
| Nonce.NextIsLeast | crates/exchange-aster/src/lib.rs:101-115 | a nonce is the time read or one past the last, whichever is later |
| Nonce.AloneItWins | crates/exchange-aster/src/lib.rs:106-114 | a thread nobody comes between gets its nonce at the next exchange |
| Accounts.WrittenIdsAreKnown | crates/engine/src/live.rs:36-97 | every id written is one that is read back |
| Names.KnownExactly | crates/engine/src/live.rs:76-97 | the list knows exactly digits, digits after `binance:`, and a stored address after `hyperliquid:` or `aster:` |
| Names.WalletExactly | crates/core/src/accounts.rs:79-89 | a text is a wallet exactly if, without the spaces around it, it is its stored address but for capitals |
| Names.NumberedExactly | crates/core/src/accounts.rs:21-34 | a text is a numbered account exactly if it is one to twenty digits, after `demo:` for a demo one |
| Names.ClientIdReadsBack | crates/engine/src/router.rs:115-117 | a client order id's digits read back as its log and command |
| Accounts.NormalizeAddress | crates/core/src/accounts.rs:79-89 | what it makes of a spelling is an address as accounts are kept |
| Accounts.LocksAreShared | crates/engine/src/owner.rs:41-54 | two accounts share a lock file exactly on one venue and spelled alike but for characters a file name can't hold |
| Names.LockFileIs | crates/engine/src/owner.rs:41-54 | a lock file has its account's spelling, with an underscore for all but letters, digits and hyphens |
| Accounts.UidLocksAreOwn | crates/engine/src/owner.rs:41-54 | no two numbered accounts of a venue do |
| Accounts.ClientIdIsInjective | crates/engine/src/router.rs:115-117 | two client order ids are equal exactly for one log and one command |
| Accounts.HexIsInjective | crates/engine/src/router.rs:115-117 | a padded hex number tells its number |
| Trading.TradesExactlyWhenSwitchedOn | crates/engine/src/router.rs:51-110 | an account trades exactly if it is demo, or live under its own name on the list, and live on BloFin never |
| Trading.ToldWhy | crates/engine/src/router.rs:51-110 | what one that isn't let through is told |
| Trading.SwitchesAreOwn | crates/engine/src/live.rs:36-74 | a name on the list lets one account through, of all venues |
| Trading.SpelledOnce | crates/core/src/accounts.rs:21-34 | a numbered account has one spelling |
| Trading.WalletSpellings | crates/core/src/accounts.rs:79-89 | every wallet has two spellings that a lock file tells apart |
| Trading.TraderIs | crates/engine/src/router.rs:51-110 | whoever trades has the account's own kept address and its key, however it was spelled, and the address tells the account |
| Trading.KeysAreOwn | crates/core/src/accounts.rs:91-101 | two accounts are given one key exactly if they are one account, spelled as may be |
| Gate.LiveTrading.Set | crates/engine/src/live.rs:167-190 | what turning an account on or off does to file, copy and stamp, and that a failure undoes it |
| Gate.LiveTrading.IsOn | crates/engine/src/live.rs:150-152 | the answer of the copy brought up to date |
| Gate.LiveTrading.Current | crates/engine/src/live.rs:132-146 | when the copy is read again and what it becomes |
| Gate.LiveTrading.constructor | crates/engine/src/live.rs:121-128 | the copy first read |
| Gate.Kept.Changed | crates/engine/src/kept.rs:71-88 | the same, written or gone, and a read that fails is the same |
| Gate.Kept.Taken | crates/engine/src/kept.rs:91-95 | the stamp taken as read |
| Gate.Kept.Write | crates/engine/src/kept.rs:99-108 | all of the file and its stamp, or nothing |
| Gate.EveryEngineAnswersByTheFile | crates/engine/src/live.rs:132-152 | in every interleaving of engines and outside writes, while reads work, every engine answers by the file now, nobody being on if it is missing or no list |
| Gate.NobodyIsOnUnlessTheFileSays | crates/engine/src/live.rs:132-152 | and whatever reads failed before, one that works lets nobody through that the file doesn't |
| Gate.ASetReachesEveryEngine | crates/engine/src/live.rs:167-190 | a switch set in one engine is every engine's next answer, for that account alone |
| Gate.SetWorksExactly | crates/engine/src/live.rs:167-190 | a switch is set exactly if it already was, or there is a file and it could be written |
| Names.OnExactly | crates/engine/src/live.rs:109-116 | who a file has on: the names of a list in it, and nobody where it is gone or no list |
| Gate.AFailedSetChangesNothing | crates/engine/src/live.rs:167-190 | one not saved changes no file and no answer |
| Gate.OnlyKnownIdsAreKept | crates/engine/src/live.rs:109-116 | after turning an id on, copy and file agree exactly if it is a known id |
| Gate.AnUnreadableFileKeepsTheAnswer | crates/engine/src/kept.rs:79-87 | a read that fails leaves the answer what it was |
| Gate.AnUnreadableFileLetsThrough | crates/engine/src/kept.rs:79-87 | so an account turned off elsewhere is still let through |
| Gate.TakenAfterReading | crates/engine/src/kept.rs:71-95 | a copy read before other writes and stamped after them is right later exactly if the file changed once more or they name the same accounts |
| Gate.TakenBeforeReading | crates/engine/src/live.rs:121-128 | one stamped before the read is always right later, but for a file put there and taken away between |
| Router.OneEngineALock | crates/engine/src/owner.rs:64-91 | in every interleaving, two live locking engines past the claim of one lock are one engine |
| Router.TwoEnginesExactly | crates/engine/src/owner.rs:41-91 | some interleaving has two of them past the claims of two accounts exactly if the venues differ or the spellings do in what a file name can hold |
| Router.OneEngineExactly | crates/engine/src/owner.rs:1-91 | no interleaving has two of them on one account, however spelled, exactly if it is a numbered account and no wallet |
| Router.AnOrderIsOnRecordFirst | crates/engine/src/router.rs:293-337 | when an order reaches an adapter, the gate let its account through and its command and its client order id are in the log, in that order; only a reduce-only order can lack them, and then it has no id |
| Router.NoIdIsSentTwice | crates/engine/src/router.rs:115-117 | no two orders of any engines go out under one id |
| Router.ThePassIsOnRecordIfWritten | crates/engine/src/router.rs:247-258 | the gate's pass stands in the log between command and sent record exactly if the run has the step that noted it, and the log took it |
| Router.GateHistory | crates/engine/src/router.rs:225-258 | a call has noted its gate's decision exactly if some step of the run wrote it |
| Router.AnUnloggedPassIsStillSent | crates/engine/src/router.rs:247-258 | an opening order sent with no pass in its log |
| Router.ARefusedCommandIsNotSent | crates/engine/src/router.rs:313-316 | no order given to an adapter has a refusal in its log |
| Router.NextIsSound | crates/engine/src/router.rs:199-337 | every step of every engine keeps logs rising, locks with live engines, each call's own records its only ones, commands unshared and one order a call |
| Gated.SwitchedOffIsNotSent | crates/engine/src/router.rs:293-337 | with every engine's gate asking its own copy: an account switched off in any engine, and not on again, is refused by every engine's gate that is then asked, and that order never reaches an adapter |
| Gated.JudgedOff | crates/engine/src/router.rs:51-110 | a gate asked while the file hasn't a live account on refuses it |
| Gated.RefusedByRulesIsNotSent | crates/engine/src/rules.rs:1517-1541 | from any reachable state: an order refused by the rules in force for its account as spelled never reaches an adapter |
| Gated.PermitsExactly | crates/engine/src/rules.rs:1517-1541 | an order is permitted exactly if its account's set, once what is due has landed, is missing or off, or passes it from where the account has got to |
| Gated.JudgeIsOfTheDay | crates/engine/src/rules.rs:1496-1541 | asking does to the rules what two of the day's operations do: what is due lands, and an opening order's account is looked at |
| Gated.OneSetOfRulesExactly | crates/engine/src/rules.rs:1411-1419 | every spelling of an account meets the same rules, whatever rules are kept, exactly if it is a numbered account and no wallet |
| Sending.SentExactly | crates/engine/src/router.rs:293-337 | a call nothing comes between sends its order exactly if the lock is its engine's, the account let through, the rules agree, the venue has its adapter, and it is on record or only reduces |
| Sending.OnRecord | crates/engine/src/router.rs:199-337 | with every record written its log has the command, the gate's answer, and of one let through what was sent and its result, in that order and nothing else |
| Placing.Desk.PlaceOrder | crates/engine/src/router.rs:293-337 | one call in place comes to its seven steps, and the id returned is the one the order went out under |
| Placing.Desk.DecideOrder | crates/engine/src/router.rs:302-316 | its first half: command, lock, decision and the note of it |
| Placing.ACallIsARun | crates/engine/src/router.rs:293-337 | so a call nothing comes between is one of the interleavings |
| Placing.Desk.Claim | crates/engine/src/owner.rs:64-91 | when the account's lock is this engine's, and what it takes |
| Placing.Desk.AppendTo | crates/store/src/lib.rs:202-222 | a record appended under a number above all before, or nothing |

## Left out

- Rounding and range of `f64` and `Decimal`, `round_dp(8)` of reported P&L, and NaN: prices and money are exact here.
- Wrap-around of `u64`: `last + 1` of a nonce, and `day - 1` of a window before 1970.
- Progress.Observe: does not model the display fields of `Status` (usual size and pace, day's trades, revenge seen, sizes, exposure, trading days, next blackout), which refuse nothing.
- Progress.BringUp: works on a progress as a value, taken in and given back, where the code changes one through a reference.
- WholeDay.TheDayAdmitsNoMore: assumes that each look is under rules no looser than the morning's, as those in force that day are (`InForceNeverAdmitsMore`), and takes one order's reading of that day.
- Gated.RefusedByRulesIsNotSent: takes the check of the rules as one step, and the rules' file as this engine's alone.
- Plainly.DecidesPlainly: takes an order's size to be above zero, and positions' sizes and values not to be below it; `Tightening` takes any.
- Sending.SentExactly: is of a call nothing comes between; what other engines' steps between may do is `Router`'s.
- Tightening.TighteningIsSound: does not model how `order_checks` finds a market order's price and reads the calendar; the order's price and the events are inputs.
- SameDay.NoSameDayLoosening: does not model another engine writing or deleting `trading-rules.json` in between, nor a restart; `Gate` shows what reading such a file again comes to.
- RuleBook.TradingRules.Set: does not model `tidy_name`, which only trims a label, nor `views`.
- `guard_amend` and `guard_protection`, which read the same locks and limits for changes of open orders.
- `Saved::kept` and the file's earlier version: reading JSON is left out throughout, and records are taken decoded.
- BinanceBook.ShownIsTheVenuesBest: takes a snapshot to be the venue's best levels at the update it names, and each diff since to be right of the prices shown.
- The timers and reconnection that ask for a fresh snapshot after a gap.
- Aster's tape, trades and closed trades and BloFin's tape are the same code as Binance's and are modelled once.
- IsoTime.ReadUndoesWrite: text is bytes, one character each, and spaces to trim are ASCII ones.
- Slippage.MarketPrice: does not model the other parameters of an order, or a reported price's decimals.
- Nonce.NoncesOnlyRise: the loop is modelled as its separate steps, any number of threads at once, and not as a method.
- Gate.EveryEngineAnswersByTheFile: takes each operation as one step, and each write to leave a new stamp (time and length together); `TakenAfterReading` and `TakenBeforeReading` say what happens between.
- Gate.Kept.Changed: does not model a stamp that can't be read of a file that is there, which the code takes for a file that is gone until a stamp can be read.
- Gated.SwitchedOffIsNotSent: assumes that reads work and that what is turned on is a known id; `AnUnreadableFileLetsThrough` shows the first is needed.
- Gate.LiveTrading.Set: does not model the checks of a key before it is turned on, which are the host's.
- Router.OneEngineALock: takes one lock folder for all engines and `flock` to be exclusive and let go on exit; elsewhere than on Unix the code locks nothing.
- Router.NoIdIsSentTwice: takes the random ids of two logs to differ and `append` to return rising numbers.
- Placing.Desk.PlaceOrder: does not model the caches the rules read accounts through, nor time passing between the steps; `Router` lets other engines' steps come in between.
- `cancel`, `amend`, leverage and margin mode of the router, which make no client order id.
- Keys, signing, pairing, the HTTP and socket clients, alerts, algos and the screens.
