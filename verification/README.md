# Ingestion and funding arbitrage: a verified model

A Dafny 4.11 model of two subsystems of the arbitrage backend, with proofs of what they promise.

**Hyperliquid ingestion** (`internal/hyperliquid`). A backfill bisects a time window recursively against a venue that
serves at most 2000 rows a call, under a call budget, a deadline, cancellation and failing requests, and then removes
duplicate trades and sorts in place. A user stream shares wallet subscriptions among connections of at most 30
addresses, while connections drop and redial at any moment. A trade stream keeps a coin universe in step with what was
written on the wire. A pacer and a throttle space the traffic.

**Funding pipeline** (`internal/collector`, `internal/fundingarbitrage`). Funding readings are stored only on change.
For each unordered pair of venues a table of arbitrage tokens is built or taken from a cache, and the tables are
flattened, sorted, cut into pages and redistributed.

Two smaller pieces complete it: the Extended order-book feed (a sequence filter before a bounded channel that drops when
full) and the stored text form of the perp-dex list.

## How the model is built

Each imperative part of the program is a class or a method with loops, proved equal to a specification function on
values; the theorems are about those functions. Concurrency is a state machine whose steps are the program's sections
under a lock, and a theorem about "every run" quantifies over every sequence of enabled steps. For the user stream,
where a reader takes its snapshot without the lock that a Subscribe or an Unsubscribe holds, a second machine takes the
sections apart, and the two are proved to reach the same states between calls (`SameStates`). What the program cannot
decide is a parameter: the venue's reply to each call, each look at the clock and at the context, the success of a dial,
a write, a query or a JSON decode. Times are integers of nanoseconds or milliseconds; rates and prices are reals.

| file | models |
|---|---|
| `Basics.dfy` | options, powers of two, facts about products and quotients |
| `Text.dfy` | trimming, ASCII lower-casing, decimal integers |
| `Fills.dfy` | trade keys, deduplication, the in-place insertion sort |
| `Backfill.dfy` | `FetchAll` and its closure `walk` |
| `UserStream.dfy` | the shared subscription state and the step machine over it |
| `UserStreamLocks.dfy` | that stream with its sections taken apart, and why the machine above suffices |
| `UserStreamRedials.dfy` | what redials do to the listed connections |
| `UserStreamClient.dfy` | the stream object and its methods, refining that state |
| `TradeStream.dfy` | the trade stream and its runs |
| `Pacing.dfy` | `AdaptivePacer` and `throttle` |
| `FundingLog.dfy` | store-on-change |
| `FundingFreshness.dfy` | store-on-change against the service's 15-minute freshness test |
| `DecimalText.dfy` | the hand-written number parser, and fixed-point printing |
| `Arbitrage.dfy` | one arbitrage token and its economics |
| `PairCache.dfy` | the pair cache |
| `Pages.dfy` | flatten, sort, paginate, redistribute |
| `PageRequests.dfy` | pages fetched one request at a time |
| `FundingTables.dfy` | what a funding request should answer and remember |
| `FundingService.dfy` | the service call that builds the tables, and the endpoint around it |
| `ExtendedFeed.dfy` | the order-book feed |
| `PerpDexes.dfy` | validation, parsing, printing and caching of the perp-dex list |

## What the proofs show about the code

- A backfill that fails never returns rows. `client.go:218` speaks of deduplicating "whatever was collected before the
  error", but an error is returned only while nothing has been collected (`FailedFetchIsEmpty`).
- `truncated` means more than `client.go:159-161` says: the call budget, the deadline, a cancelled context and a failed
  request after the first rows set it too, and nothing else does (`TruncatedIff`). What is missing then is everything
  before some cut, and from the cut on only rows in the windows of requests that failed or came back full at the floor
  (`MissingRowsAreAccountedFor`); without such requests the result is everything from the cut on
  (`TruncationLosesAPrefix`).
- An address subscribed between the two critical sections of `handleDrop` (userstream.go:331-336 and 338-340) can land
  on the connection being lost. It stays active, so subscribing it again does nothing, and nothing carries it
  (`LateJoinIsLost`; `LateJoinHappens` reaches the situation).
- The goroutine that reads a connection ends with the context of the subscriber that dialed it (userstream.go:311-316),
  and the connection stays listed: its addresses, and those that join it later, are then read by nobody
  (`UnreadJoinHappens`). The repository's own callers pass `context.Background()` (internal/trader/watcher.go:341 and
  614), so this takes another caller of the exported method.
- A Subscribe that dials starts the reader (userstream.go:218) before its address is on the connection (220-222), and
  the snapshot of `handleDrop` does not wait for the lock that Subscribe holds. If the first read fails in between,
  nothing is remembered: one Subscribe on an empty stream can lose its address for good (`DialedIsLost`,
  `DialedAndLostHappens`).
- These three are all that can go wrong: in every interleaving, every active address is carried throughout exactly when
  no step cancels the goroutine that alone carries an active address, and none adds an uncovered address to a connection
  nobody reads, be it an old one or its own (`CoverageIff`). An active address is lost for good, in every continuation
  without its Unsubscribe, exactly when no goroutine remembers it and none reads a connection with it
  (`LostForGoodIff`).
- A redial does not recheck activity between its check (userstream.go:354-361) and its attachment (381-386). An address
  unsubscribed in between ends on a new connection though inactive (`RedialLeavesStale`), and one subscribed again in
  between ends on two (`RedialDoubles`). In every interleaving the listed connections carry only active addresses, none
  twice, exactly as long as no redial attaches such an address (`ServedOnceIff`).
- A connection closed because it emptied can still redial, exactly when its read had already failed with addresses on it
  (`ClosedRedialsIff`; `ClosedRedialHappens` reaches it in three steps).
- The trade stream's cap bounds the coin universe, not the subscriptions: nothing is ever unsubscribed, so a connection
  stays within the cap exactly when all universes asked for since it opened fit together (`RefreshWithinCapIff`,
  `ConnectionWithinCapIff`, `CapCanBeExceeded`).
- A venue that is read all the time can count as stale. The repository's README.md:77-82 promises pairs with funding
  younger than 15 minutes and a row per change or hour; but a row's time is what is tested, so with a steady rate the
  venue is stale from minute 15 to the heartbeat (`SteadyGoesStale`; `SteadyVenueIsStale` is an instance). A record is
  fresh exactly when some observation of the last 15 minutes was stored (`FreshIffRecentlyKept`).
- The hand-written number parser is exact on plain decimals but knows no exponent. Behind a point it passes over the
  mark and takes the exponent's digits for fractional ones, so `1.5e-7` is read as 1.57; without a point it stops, so
  `2e-7` is read as 2. Scientific notation is read right exactly when the exponent is zero, or there is no point and the
  mantissa is zero (`ExponentReadIff`).
- Pages 1 to total_pages of one flattening show every token as often as it is there (`PagesConserveTokens`), but each
  request flattens anew, in map order and with an unstable sort. Across requests that is sure exactly when no two
  neighbouring values tie across a page boundary (`PagesConserveIff`; `TiedPairLosesOne` is a failing input).
- `has_more` agrees with `page < total_pages` on page boundaries only. At another `offset` it can be false before the
  last page: five tokens, limit 2, offset 3 (`HasMoreAgreesIff`, `HasMoreDisagrees`).
- The Extended feed's sequence numbers rise exactly as long as every message is numbered; one message without a number
  is let through and reopens the filter for a duplicate (`RisingIffNumbered`, `ZeroReopensTheFilter`).
- The perp-dex list survives storage exactly when no name holds a comma and the stored text is not itself a JSON array.
  A list that passes validation can otherwise read back with a duplicate (`RoundTripIff`, `CommaCanDuplicate`).

## Model

| member | source | states |
|---|---|---|
| Fills.KeyIdentifiesTrade | internal/hyperliquid/client.go:222-251 | the text key coin ":" tid is equal for two rows exactly when coin and tid are, even for coins that hold ':' |
| Fills.DedupedRows | internal/hyperliquid/client.go:235-244 | deduplication keeps only rows that were there, and one per trade |
| Fills.DedupedCovers | internal/hyperliquid/client.go:235-244 | every trade of the input keeps a row |
| Fills.DedupedFirst | internal/hyperliquid/client.go:235-244 | of the rows of one trade the first to come in is kept, after the kept ones before it |
| Fills.Dedup | internal/hyperliquid/client.go:235-244 | the loop over the `seen` map computes the deduplicated list |
| Fills.SortedIsSorted | internal/hyperliquid/client.go:253-266 | the sort specification is a permutation of its input in which, of any two rows, the earlier one in the list has the smaller time, or the same time and no larger trade id |
| Fills.SortIsStable | internal/hyperliquid/client.go:253-266 | rows of the same time and trade id stay in the order they came in |
| Fills.SortFillsAsc | internal/hyperliquid/client.go:253-259 | the in-place swapping sort leaves the array equal to the sorted list |
| Fills.SortedListUnique | internal/hyperliquid/client.go:253-266 | two ordered lists of the same rows, none tied on (time, tid), are the same list |
| Backfill.FetchRun.Walk | internal/hyperliquid/client.go:170-215 | the closure, with all variables it captures, changes them exactly as the walk specification says, for every venue, clock and context |
| Backfill.FetchAll | internal/hyperliquid/client.go:163-247 | the returned rows, flag and error are the specified ones |
| Backfill.WalkGrows | internal/hyperliquid/client.go:170-215 | every walk only appends, counts each request once, never exceeds 60 calls, and a spent budget stops it for good |
| Backfill.FetchShape | internal/hyperliquid/client.go:159-247 | every fetch returns distinct trades, by increasing time and then trade id, from at most 60 requests |
| Backfill.FetchIsSoundAndComplete | internal/hyperliquid/client.go:159-247 | against a venue serving a fixed ledger, only rows of the window come back, and without error and flag they are a row for every trade of the window (the whole window when trades have one row each) |
| Backfill.TruncationLosesAPrefix | internal/hyperliquid/client.go:171-215 | when no floor slice is full and requests fail only because the context was cancelled meanwhile, the result is everything from some cut on: budget, deadline and cancellation, between requests or during one, lose only the oldest part, and an error is reported only with nothing |
| Backfill.MissingRowsAreAccountedFor | internal/hyperliquid/client.go:159-215 | for every fetch, whatever fails, there is a cut with no row before it in the result and, for each trade from it on, a row there unless the trade lies in the window of a request that failed or came back full at the floor; the cut is the start of the window unless a budget was spent, the context was cancelled or an error is reported |
| Backfill.TruncatedIff | internal/hyperliquid/client.go:171-209 | for every venue, clock and context, the flag is set exactly when the last look, not cancelled, found the deadline passed or 60 requests made, a look found the context cancelled, a floor slice came back full, or a request failed and the fetch went on |
| Backfill.FailedFetchIsEmpty | internal/hyperliquid/client.go:193-231 | a fetch that reports an error returns no rows and no flag |
| Backfill.ErrorIff | internal/hyperliquid/client.go:192-200 | a fetch reports an error exactly when a request failed before any had brought a row; it is that request's error, and no request follows |
| Backfill.SplitIff | internal/hyperliquid/client.go:201-214 | left alone, a fetch asks for the whole window first, and goes on to its newer half exactly when 2000 rows or more came back for more than an hour |
| Backfill.WalkCalls | internal/hyperliquid/client.go:185-214 | a window of at most 2^d floor slices costs at most 2^(d+1)-1 requests whatever the venue answers, and does not spend a budget that large |
| Backfill.CallBoundIsTight | internal/hyperliquid/client.go:24-33 | that bound for every d, and an undisturbed venue of full pages reaches it, or 60 when 60 is smaller |
| Backfill.SixteenHoursFit | internal/hyperliquid/client.go:24-33 | a window of at most 16 hours takes at most 31 requests and never trips the call budget |
| Backfill.ShortFetchIsWhole | internal/hyperliquid/client.go:159-247 | left alone, a window of at most 16 hours comes back whole and unflagged |
| Backfill.PagingDoesNotShow | internal/hyperliquid/client.go:233-246 | two unflagged fetches of a window return the same list, however the venue paged its replies |
| UserStreamClient.Stream.Subscribe | internal/hyperliquid/userstream.go:186-224 | the address, trimmed and lower-cased, joins the first connection with room, else a new one, listed before the address is on it; nothing changes when it is active already or the dial fails; a snapshot taken of a new connection in between is empty |
| UserStreamClient.SameAddressIff | internal/hyperliquid/userstream.go:190 | two texts name the same address exactly when, trimmed, they are equal but for ASCII case |
| UserStreamClient.OneSlot | internal/hyperliquid/userstream.go:190-231 | such texts share one slot: subscribing the second changes nothing, unsubscribing it frees the first |
| UserStreamClient.Stream.Unsubscribe | internal/hyperliquid/userstream.go:230-271 | the address leaves the active set and the first connection holding it, and a connection left empty is unlisted and reported for closing |
| UserStreamClient.Stream.DropConn | internal/hyperliquid/userstream.go:338-340 | the second critical section of a drop unlists exactly that connection |
| UserStreamClient.RemoveUserConn | internal/hyperliquid/userstream.go:527-537 | the filtered copy lists the other connections in order |
| UserStreamClient.Stream.StillActive | internal/hyperliquid/userstream.go:354-361 | the addresses to resubscribe are the active ones among those remembered |
| UserStreamClient.Stream.Recheck | internal/hyperliquid/userstream.go:354-364 | what the loop finds is what the machine's activity check finds, and nothing found ends the goroutine there too |
| UserStreamClient.Stream.Reattach | internal/hyperliquid/userstream.go:380-386 | the new connection is listed and carries what the machine's redial attaches |
| UserStreamClient.Stream.DropSnapshot | internal/hyperliquid/userstream.go:331-336 | the first critical section of a drop remembers exactly the lost connection's addresses |
| UserStream.StepWellFormed | internal/hyperliquid/userstream.go:186-394 | every step keeps the state well formed: distinct listed connections, redials for remembered addresses only, closed connections unlisted and empty |
| UserStream.CapHolds | internal/hyperliquid/userstream.go:186-394 | no connection ever carries more than 30 addresses, in any interleaving of subscribes, unsubscribes, drops and redials |
| UserStream.StepKeepsCoverageIff | internal/hyperliquid/userstream.go:186-394 | from a state where every active address is covered, a step of any kind, cancellations, joins to unread connections and dials whose read fails at once included, keeps that exactly when it is safe: it cancels no goroutine that alone carries an active address, and adds no uncovered address to a connection nobody reads |
| UserStream.NewAddressCovered | internal/hyperliquid/userstream.go:200-223 | a newly subscribed address is covered exactly unless it joined a listed connection nobody reads, or its own new connection failed before it was there (or a leftover carries it) |
| UserStream.CoverageIff | internal/hyperliquid/userstream.go:186-394 | in every interleaving, drops, cancellations and snapshots inside a dialing Subscribe included, every active address is throughout on a listed connection that is being read or with a goroutine that will resubscribe it, exactly when every step is safe |
| UserStream.CoverageHolds | internal/hyperliquid/userstream.go:186-394 | every run of safe steps goes through and ends with all active addresses covered |
| UserStream.LostForGoodIff | internal/hyperliquid/userstream.go:186-394 | an active address stays uncovered in every continuation without its Unsubscribe exactly when no goroutine remembers it and none reads a connection with it |
| UserStream.EndsForGood | internal/hyperliquid/userstream.go:311-319 | a goroutine that sees its connection closed or its context cancelled changes nothing else and never comes back |
| UserStream.CancelLoses | internal/hyperliquid/userstream.go:311-372 | a context can be cancelled wherever its goroutine stands but inside handleDrop, and an active address that goroutine alone remembered is then lost for good |
| UserStream.LateJoinIsLost | internal/hyperliquid/userstream.go:330-340 | an address that did join a connection being lost ends active and uncovered, another Subscribe changes nothing, and it is lost for good exactly when no goroutine remembered it before |
| UserStream.LateJoinHappens | internal/hyperliquid/userstream.go:330-344 | a run of four steps from the empty stream that leaves an active address lost for good |
| UserStream.DialedIsLost | internal/hyperliquid/userstream.go:210-223 | an address whose own new connection fails before it is there ends active, another Subscribe changes nothing, and it is lost for good exactly when no goroutine remembered it before |
| UserStream.DialedAndLostHappens | internal/hyperliquid/userstream.go:216-222 | one Subscribe on the empty stream that loses its address for good |
| UserStream.UnreadJoinHappens | internal/hyperliquid/userstream.go:311-316 | a run from the empty stream, with the first subscriber's context cancelled, that leaves two active addresses on a listed connection nobody reads, lost for good |
| UserStream.ClosedRedialsIff | internal/hyperliquid/userstream.go:257-270 | a connection closed because it emptied can redial in some continuation exactly when its read had failed with addresses still on it |
| UserStream.ClosedRedialHappens | internal/hyperliquid/userstream.go:257-270 | subscribe, failed read, unsubscribe: a run from the empty stream to a closed connection that may redial |
| UserStream.PartitionHolds | internal/hyperliquid/userstream.go:186-344 | in every run where only connections the stream closed itself fail to read (none at its dialing either), whatever their goroutines then do, the listed connections' address sets are non-empty, disjoint, and together the active set |
| UserStreamRedials.ServedOnceIff | internal/hyperliquid/userstream.go:186-394 | in every interleaving, drops included, the listed connections carry only active addresses and none twice, throughout the run, exactly when each redial that came through attached only addresses still active and carried by no listed connection |
| UserStreamRedials.RecheckFinds | internal/hyperliquid/userstream.go:354-364 | an activity check goes on to dial for exactly the remembered addresses that are active, and ends the goroutine exactly when there are none |
| UserStreamRedials.RedialAttaches | internal/hyperliquid/userstream.go:380-387 | a redial that came through adds one listed, read connection with exactly the addresses found; all others stay |
| UserStreamRedials.RedialCarriesWhatWasActive | internal/hyperliquid/userstream.go:346-387 | in every run, whatever comes between a check and its redial, the new connection carries exactly the addresses that were remembered and active at the check |
| UserStreamRedials.RedialLeavesStale | internal/hyperliquid/userstream.go:354-388 | a run from the empty stream that ends with an inactive address on a listed connection |
| UserStreamRedials.RedialDoubles | internal/hyperliquid/userstream.go:354-388 | a run from the empty stream that ends with one address on two listed connections |
| UserStream.ConnectionCount | internal/hyperliquid/userstream.go:199-219 | subscribing only, with every dial succeeding, takes ceil(active / 30) connections |
| UserStream.FreshStream | internal/hyperliquid/userstream.go:186-394 | the four results for every run of a new stream |
| UserStreamLocks.StepSimulated | internal/hyperliquid/userstream.go:186-394 | with a snapshot, a cancellation, a failed dial or the closing of a connection allowed between the two halves of a Subscribe or an Unsubscribe, each such step is none, one or two steps of the machine |
| UserStreamLocks.FineRunSimulated | internal/hyperliquid/userstream.go:186-394 | each run of those finer steps is a run of the machine, up to the call in progress |
| UserStreamLocks.RunRealized | internal/hyperliquid/userstream.go:186-394 | each run of the machine is one of finer steps |
| UserStreamLocks.SameStates | internal/hyperliquid/userstream.go:186-394 | the machine reaches exactly the states that the finer steps reach between calls |
| UserStreamLocks.FineCapHolds | internal/hyperliquid/userstream.go:186-394 | no connection carries more than 30 addresses, halfway through a call included |
| TradeStream.Stream.constructor | internal/hyperliquid/wstrades.go:175-186 | a new stream is empty and disconnected; a cap of zero or less becomes the default |
| TradeStream.Stream.SetCoins | internal/hyperliquid/wstrades.go:219-228 | an over-cap universe is counted and refused whole |
| TradeStream.Stream.RefreshCoins | internal/hyperliquid/wstrades.go:232-256 | the coins not yet marked are sent in order and marked up to the first failed write; over-cap calls change neither set |
| TradeStream.Stream.Send | internal/hyperliquid/wstrades.go:258-267 | exactly the successful writes of a connected stream reach the wire and are counted |
| TradeStream.Stream.SubscribeAll | internal/hyperliquid/wstrades.go:271-284 | every coin of the universe is sent and marked up to the first failed write |
| TradeStream.Stream.Connected | internal/hyperliquid/wstrades.go:330-333 | a new connection starts with nothing marked subscribed |
| TradeStream.Stream.Disconnected | internal/hyperliquid/wstrades.go:334-338 | the end of a connection clears only the sender |
| TradeStream.AlwaysInStep | internal/hyperliquid/wstrades.go:219-342 | in every run, while connected, each coin marked subscribed was written on this very connection, and the universe keeps its cap |
| TradeStream.UniverseIsCovered | internal/hyperliquid/wstrades.go:230-284 | after any history, connect and an error-free subscribeAll put the whole universe on the wire, and so does an error-free refresh while connected |
| TradeStream.SetIsSubscribed | internal/hyperliquid/wstrades.go:219-284 | after any history, an accepted universe is what the next connection subscribes, coin by coin in its order and nothing else; a refused one changes nothing |
| TradeStream.RefreshSends | internal/hyperliquid/wstrades.go:237-256 | a refresh while connected sends the coins not yet marked, in the order given, up to the write that fails, and marks exactly those |
| TradeStream.RefreshWithinCapIff | internal/hyperliquid/wstrades.go:230-256 | whichever write fails, an accepted refresh keeps the subscriptions within the cap exactly when the new coins it gets through fit the room left; without a failed write those are all the coins not subscribed before |
| TradeStream.SubscribedIsWritten | internal/hyperliquid/wstrades.go:230-284 | after any history and whichever writes fail, the coins marked subscribed are exactly those written since the last connect |
| TradeStream.ConnectionWithinCapIff | internal/hyperliquid/wstrades.go:230-284 | over a connection's life it carries no coin not asked for since it opened, and without failed writes exactly those, so it is within the cap exactly when they fit together |
| TradeStream.CapCanBeExceeded | internal/hyperliquid/wstrades.go:230-256 | two accepted refreshes under a cap of one leave two subscriptions |
| Pacing.AdaptivePacer.constructor | internal/hyperliquid/pacer.go:23-31 | the pacer starts at its floor with the defaults in place |
| Pacing.AdaptivePacer.Wait | internal/hyperliquid/pacer.go:35-58 | a wait that lets its caller through comes at least the interval read after the last mark; a cancelled one leaves the mark |
| Pacing.AdaptivePacer.Backoff | internal/hyperliquid/pacer.go:63-77 | one backoff is the specified step |
| Pacing.AdaptivePacer.Success | internal/hyperliquid/pacer.go:81-92 | one success is the specified step |
| Pacing.Replay | internal/hyperliquid/pacer.go:33-97 | a pacer driven through any possible run passes its waits at the run's times, with `Interval` reporting before each the spacing it then keeps |
| Pacing.IntervalIsBounded | internal/hyperliquid/pacer.go:21-92 | in every run the interval starts at the configured base (zero for a negative one), never falls below it and never exceeds the configured cap (30 s by default) unless the base does |
| Pacing.PassesArePaced | internal/hyperliquid/pacer.go:33-58 | in every run of one caller, each pass comes at least the interval it read after the pass before, and no interval is below the configured base |
| Pacing.BackoffsDouble | internal/hyperliquid/pacer.go:60-77 | k backoffs give min(cap, base * 2^k); a zero base gives min(cap, 2^(k-1) seconds); a base above the cap never moves |
| Pacing.SuccessesHalve | internal/hyperliquid/pacer.go:79-92 | after a backoff, n successes give max(base, floor(current / 2^(n/5))) |
| Pacing.BackoffRestartsStreak | internal/hyperliquid/pacer.go:60-90 | whatever the streak was, after a backoff five successes are needed again for each halving |
| Pacing.RecoveryUndoesBackoff | internal/hyperliquid/pacer.go:60-92 | five successes for each of k backoffs restore a fresh pacer with a positive floor |
| Pacing.Throttle.Permit | internal/hyperliquid/userstream.go:298-309 | a permit is stamped at least a tenth of a second after the last one |
| Pacing.PermitsAreSpaced | internal/hyperliquid/userstream.go:298-309 | any two permits, n turns apart, are at least n tenths of a second apart, whoever took them |
| Pacing.AtMostTenASecond | internal/hyperliquid/userstream.go:298-309 | no half-open second, wherever it starts, holds more than ten permits |
| Pacing.TenASecondIsReached | internal/hyperliquid/userstream.go:298-309 | ten are reached |
| FundingLog.Collector.LastFundingRate | internal/collector/collector.go:407-422 | the lookup returns rate and time of the newest row of the instrument, or an empty rate |
| FundingLog.Collector.StoreFunding | internal/collector/collector.go:371-399 | one observation extends the instrument's log as specified, and touches no other instrument; failed queries store nothing |
| FundingLog.Collector.Collect | internal/collector/collector.go:142-155 | a cycle of observations extends each instrument's log by its own observations |
| FundingLog.CyclesCompose | internal/collector/collector.go:371-399 | the log does not depend on how observations were split into cycles |
| FundingLog.LogFollows | internal/collector/collector.go:402-435 | after every observation the newest row is that observation or less than an hour old, and its text is the one just seen or parses to the same number |
| FundingLog.LookupsAgree | internal/collector/collector.go:424-435 | at every time the compressed log and the full one show the same text, or two texts that parse to the same number |
| FundingLog.LogSize | internal/collector/collector.go:424-435 | rows stored are at most 1 + rate changes + floor(span / 1 h) |
| DecimalText.ParseFloat | internal/fundingarbitrage/service.go:227-264 | the two nested loops return the specified value and count of characters |
| DecimalText.DecimalsAreExact | internal/fundingarbitrage/service.go:227-264 | an optional sign, digits, and an optional point with digits are read in full and exactly |
| DecimalText.ParseUndoesPrint | internal/exchange/adapter_variational.go:116-121 | parsing the fixed-point text of m / 10^k gives m / 10^k |
| DecimalText.DigitsBehindMarksAreFractional | internal/fundingarbitrage/service.go:233-256 | behind a point, whatever the sign, anything that is no digit is passed over, later digits count as fractional ones, and that is the value denoted |
| DecimalText.MarksEndIntegers | internal/fundingarbitrage/service.go:244-262 | without a point the reading stops at the first other character, with the integer read so far |
| DecimalText.ExponentReadIff | internal/fundingarbitrage/service.go:227-264 | a number in scientific notation is read as its value exactly when the exponent is zero, or there is no point and the mantissa is zero |
| DecimalText.PointExample | internal/fundingarbitrage/service.go:247-256 | `1.5e-7` is read as 1.57 |
| DecimalText.IntegerExample | internal/fundingarbitrage/service.go:257-263 | `2e-7` is read as 2 from one character |
| DecimalText.ZeroExponentExample | internal/fundingarbitrage/service.go:247-256 | `1.5e0`, no plain decimal, is read as 1.5 |
| Arbitrage.OrientationFree | internal/fundingarbitrage/service.go:127-216 | swapping the venues changes no rate, spread or flag, swaps the per-venue sides, and names the same long and short venue exactly when the hourly rates differ |
| Arbitrage.BuiltTokens | internal/fundingarbitrage/service.go:163-213 | every rate and spread built is non-negative, and the 8-hour and yearly figures are 8 and 8760 times the hourly one |
| Arbitrage.NetIsShortMinusLong | internal/fundingarbitrage/service.go:147-190 | a token is built exactly when both venues have funding no older than 15 minutes, or stale data was asked for; its net rate is the short venue's hourly rate less the long venue's, and never negative |
| Arbitrage.TokenInNumbers | internal/fundingarbitrage/service.go:163-209 | with rates x per p seconds on A and y per q on B, the token is long A exactly when x*q < y*p, and its hourly percentage times p*q is 360000 times the distance of x*q and y*p |
| Arbitrage.TokenRepeats | internal/fundingarbitrage/service.go:138-205 | side A repeats venue A's record and symbol, side B venue B's; the token is stale exactly when one record is older than 15 minutes, and its spread is that of the two mark prices |
| FundingFreshness.NewestIsLastKept | internal/collector/collector.go:371-435 | the newest row of the log is the last observation that was a first sighting, a changed or unparseable rate, or a heartbeat |
| FundingFreshness.FreshIffRecentlyKept | internal/fundingarbitrage/service.go:153-154 | a venue's record is not stale exactly when some observation of the last 15 minutes was such a one |
| FundingFreshness.TokenIffBothRecentlyKept | internal/fundingarbitrage/service.go:133-161 | collector and service together: without stale data asked for, a token is built exactly when that holds on both venues |
| FundingFreshness.SteadyGoesStale | internal/collector/collector.go:402-435 | however often a steady rate is read within the hour, the record is stale exactly from 15 minutes after its row |
| FundingFreshness.SteadyVenueIsStale | internal/fundingarbitrage/service.go:153-161 | read at minutes 0 and 16 with one rate, a venue is stale at minute 16 |
| Arbitrage.SpreadIsPercentAboveLower | internal/fundingarbitrage/service.go:199-205 | the spread says by how many percent the higher mark price exceeds the lower, and is missing exactly when one is not positive |
| PairCache.KeyIdentifiesPair | internal/fundingarbitrage/cache.go:40-46 | two keys are equal exactly for the same unordered pair of venues |
| PairCache.Cache.constructor | internal/fundingarbitrage/cache.go:29-37 | a new cache is empty; a zero time-to-live becomes the default |
| PairCache.Cache.Get | internal/fundingarbitrage/cache.go:49-71 | the tokens of the unordered pair are handed out exactly while the entry is fresh or still usable |
| PairCache.ServedIsRecent | internal/fundingarbitrage/cache.go:60-70 | nothing older than the larger of time-to-live and two minutes is handed out |
| PairCache.Cache.Set | internal/fundingarbitrage/cache.go:74-84 | as a map from unordered pairs, exactly the one entry changes |
| PairCache.Cache.Invalidate | internal/fundingarbitrage/cache.go:87-102 | exactly the pairs that contain the venue disappear |
| Pages.SentinelAgrees | internal/fundingarbitrage/handler.go:237-261 | on non-negative values the -1 for a missing value orders tokens as the sort does, missing last |
| Pages.RateSortsAgree | internal/fundingarbitrage/cache.go:155-208 | on built tokens the three rate sorts order alike |
| Pages.BestIsBest | internal/fundingarbitrage/handler.go:263-274 | the map holds, for every symbol of any pair, a token of it that no other beats |
| Pages.BestIsFirst | internal/fundingarbitrage/handler.go:263-274 | among the best tokens of a symbol the first one is kept |
| Pages.FlattenTokens | internal/fundingarbitrage/handler.go:264-280 | the list holds the map's tokens, one per symbol, in whatever order the map gave |
| Pages.SortTokens | internal/fundingarbitrage/cache.go:155-208 | the result is a permutation in descending order of the field, missing values last |
| Pages.DescendingFalls | internal/fundingarbitrage/handler.go:237-261 | a sorted list falls in the figure asked for by name, hourly, eight-hourly, yearly or spread, missing values last; any other name means the eight-hour rate |
| Pages.FlattenedItems | internal/fundingarbitrage/handler.go:264-280 | the flattened (symbol, value) items are the maximum of each symbol over all pairs |
| Pages.ValuesDependOnlyOnItems | internal/fundingarbitrage/handler.go:264-285 | two sorted flattenings of pairs with the same items have the same sequence of values, despite map order and an unstable sort |
| Pages.PagesConcatenate | internal/fundingarbitrage/handler.go:230-301 | pages 1 to total_pages concatenate to the flattened list |
| Pages.HasMoreIff | internal/fundingarbitrage/handler.go:138-145 | on page boundaries has_more is set exactly before the last page |
| Pages.HasMoreAgreesIff | internal/fundingarbitrage/handler.go:146-193 | for every offset, has_more and page < total_pages disagree exactly when what follows the page is not empty but no longer than the offset into the page; has_more is never set on the last page |
| Pages.HasMoreDisagrees | internal/fundingarbitrage/handler.go:146-193 | five tokens, limit 2, offset 3: page 2 of 3 without more |
| Pages.PageIsStretch | internal/fundingarbitrage/handler.go:288-301 | for every offset the page is the stretch of the list from there on, of at most `limit` tokens |
| Pages.RedistributeTokens | internal/fundingarbitrage/handler.go:304-321 | as many pairs come back, each with its own venues and, of its own tokens, in their order and as often as it has them, exactly those whose symbol is on the page |
| Pages.KeptInOrder | internal/fundingarbitrage/handler.go:311-319 | a token kept comes right after the kept ones that preceded it |
| Pages.PagesConserveTokens | internal/fundingarbitrage/handler.go:230-321 | over all pages cut from one flattened list every pair is returned with each of its tokens exactly as often as it has it |
| PageRequests.SameFields | internal/fundingarbitrage/handler.go:264-285 | any two requests over the same pairs list equally many tokens with the same values place by place |
| PageRequests.PagesConserveIff | internal/fundingarbitrage/handler.go:175-184 | pages fetched by separate requests conserve the tokens for every choice of orders exactly when no two neighbouring values tie across a page boundary |
| PageRequests.TiedPairLosesOne | internal/fundingarbitrage/handler.go:275-285 | one pair with two tied tokens and limit 1: two requests may show the one twice and the other never |
| Pages.ServePage | internal/fundingarbitrage/handler.go:175-184 | the handler's pipeline shows one page of one descending flattening: each pair with its venues and exactly its tokens on the page, with matching has_more and total_pages |
| FundingService.GroupMappings | internal/fundingarbitrage/service.go:64-70 | the loop files each mapping under its instrument and venue, the last one winning |
| FundingService.BuildTable | internal/fundingarbitrage/service.go:93-110 | in whatever map order, the table holds exactly the pair's tokens, one per instrument, best first |
| FundingTables.FreshTableMeans | internal/fundingarbitrage/service.go:93-161 | a fresh table has a token for exactly the instruments both venues list and have funding for, no older than 15 minutes unless stale data was asked for, and its sides repeat the two venues' own records |
| FundingTables.GroupedIsLast | internal/fundingarbitrage/service.go:64-70 | the mapping filed for an instrument on a venue is the last one listed for them |
| FundingTables.VenueMapIsLast | internal/fundingarbitrage/service.go:52-55 | a venue reads as the last one returned under its id, or as the zero venue |
| FundingService.PairTokens | internal/fundingarbitrage/service.go:84-113 | a pair shows its cached tokens while they may be served and no refresh was asked for, and its entry stays; else it shows a fresh table, and the entry becomes that table stamped now; no other pair changes |
| FundingTables.RowsMembers | internal/fundingarbitrage/service.go:73-75 | the two loops enumerate every pair of positions i < j |
| FundingTables.RowsDistinct | internal/fundingarbitrage/service.go:73-75 | no pair of positions comes twice |
| FundingTables.RowsCount | internal/fundingarbitrage/service.go:73-75 | n venues make n (n - 1) / 2 pairs |
| FundingTables.FiledApartIff | internal/fundingarbitrage/service.go:52-84 | distinct requested ids are filed under distinct ones exactly when at most one of them is unknown to the repository or the nil id |
| FundingService.GetFundingArbitrage | internal/fundingarbitrage/service.go:40-125 | when the venues are filed under distinct ids, unknown ones reading as the zero venue, every unordered pair of the request appears once, in order, shows what it should and is remembered; the cache entry of every pair not asked for stays as it was, on every path; a failed query changes nothing |
| FundingService.RefreshedNonNegative | internal/fundingarbitrage/service.go:163-213 | every value of a refreshed answer is non-negative, as the -1 sentinel needs |
| FundingService.VenueOrderDoesNotShow | internal/fundingarbitrage/service.go:72-118 | two refreshed answers over the same venues in any order, flattened and sorted, list the same sequence of values |
| FundingService.ServeRequest | internal/fundingarbitrage/handler.go:160-193 | a request is answered with one page of one descending flattening of its tables, with matching has_more and total_pages; a forced refresh is answered from fresh tables alone; entries of other pairs stay |
| ExtendedFeed.Adapter.SubscribeOrderBook | internal/exchange/adapter_extended_ws.go:52-93 | the first call makes an empty channel of 100 and resets the number, later calls share it, and a failed connect leaves it registered |
| ExtendedFeed.Adapter.HandleMessage | internal/exchange/adapter_extended_ws.go:95-153 | one frame changes number and channel as specified and no other symbol; an undecodable one changes nothing |
| ExtendedFeed.CopyLevels | internal/exchange/adapter_extended_ws.go:111-127 | each level's quantity is the absolute `c`, snapshot or not |
| ExtendedFeed.Adapter.Disconnect | internal/exchange/adapter_extended_ws.go:155-172 | all numbers and channels are forgotten |
| ExtendedFeed.Replay | internal/exchange/adapter_extended_ws.go:55-153 | an adapter and its channel, driven through any run of frames and receives, hand over and keep exactly the events of that run |
| ExtendedFeed.FeedConserves | internal/exchange/adapter_extended_ws.go:104-152 | in every run, what was received and what waits are the delivered events in order, at most the capacity wait, and every delta names the accepted event before it |
| ExtendedFeed.AcceptedCarriesMessage | internal/exchange/adapter_extended_ws.go:101-147 | after any run a message is passed on unless it is numbered, follows a numbered one and does not exceed it; the event has the message's number, kind and, place by place, its bids and asks with price and absolute quantity |
| ExtendedFeed.ReceivesInOrder | internal/exchange/adapter_extended_ws.go:149-152 | the consumer takes the oldest event waiting |
| ExtendedFeed.LostIffConsumerBehind | internal/exchange/adapter_extended_ws.go:149-152 | the next accepted event is lost exactly when the consumer is the whole capacity behind |
| ExtendedFeed.RisingIffNumbered | internal/exchange/adapter_extended_ws.go:101-147 | accepted sequence numbers rise strictly from above zero exactly when every message carried a positive one |
| ExtendedFeed.LossIsDetectable | internal/exchange/adapter_extended_ws.go:129-152 | in every numbered run the received events rise strictly, and of two neighbours the later delta names the earlier one exactly when no accepted event between them was lost |
| ExtendedFeed.ZeroReopensTheFilter | internal/exchange/adapter_extended_ws.go:104-106 | a message without a number lets a duplicate through |
| PerpDexes.Validate | internal/appsettings/model.go:50-66 | a list passes exactly when it has at most 1000 entries, none blank, no two equal once trimmed |
| PerpDexes.ParsePerpDexes | internal/appsettings/service.go:126-159 | a JSON array or a comma-separated text becomes its entries trimmed, without the blank ones |
| PerpDexes.Settings.SetPerpDexes | internal/appsettings/service.go:191-219 | the joined text is stored and the cache expired exactly when the list is valid, known and written; each failure is told apart and changes nothing |
| PerpDexes.Settings.GetPerpDexes | internal/appsettings/service.go:165-189 | a fresh cache answers, else the stored text parsed, else the default, and the answer is cached |
| PerpDexes.RoundTripIff | internal/appsettings/service.go:126-163 | for every validated list, the stored text reads back as the trimmed names exactly when no name holds a comma and the text is no JSON array; the result is then again a valid list |
| PerpDexes.CommaCanDuplicate | internal/appsettings/service.go:143-163 | a validated list whose stored text reads back with a duplicate |

## Left out

- JSON, REST, WebSocket and SQL: they are nondeterministic events and parameters; logging, metrics and HTTP parsing are not modelled.
- `internal/auth`, `internal/execution` and the remaining packages: not part of this model.
- Floating-point rounding and NaN: rates are reals; a rate the collector cannot parse is a separate case that equals nothing.
- Machine-integer overflow: times, offsets and doubled intervals are unbounded integers.
- Arbitrage.BuildArbitrageToken: a funding interval of zero is excluded; the program divides by it in floating point.
- UserStream.PartitionHolds: stated for runs in which no listed connection is lost; while a lost connection's addresses wait for their redial no listed connection carries them, so with drops the parts are coverage, the cap and `UserStreamRedials.ServedOnceIff`.
- UserStreamClient.Stream.Subscribe: lower-casing covers ASCII letters; the frames sent after the lock is released are not modelled.
- UserStreamClient.RemoveUserConn: the program filters into the old list's backing array before copying; the model builds a new sequence.
- UserStream: the sink, statistics, backoff delays and jitter of a redial are left out; a redial is a dial that fails or succeeds at any later step.
- TradeStream: frame parsing, callbacks and the retry delays of `Run` are left out; duplicates in a refresh are sent twice, as in the program.
- Pacing.PassesArePaced: for one caller at a time, since `Wait` reads and marks in separate critical sections.
- Pacing.PermitsAreSpaced: about the stamps; the frame itself is written after the lock is released.
- FundingLog.Collector.StoreFunding: only rate and time of a row are kept, and the instrument lookup before it is left out.
- FundingFreshness.FreshIffRecentlyKept: for observations at increasing times whose lookups and inserts succeeded; an observation that was not stored because of a failure counts as not made.
- FundingLog.LogSize: for parseable, non-empty rates at increasing times; an unparseable rate is stored every time.
- Pages.SortTokens: any descending permutation, on a sequence instead of in place, since the library's algorithm is not part of this model.
- Text.SpacesAre: the white space that trimming takes off is listed by code point; nothing else of Unicode is modelled.
- FundingService.GetFundingArbitrage: the contents are stated when the venues are filed under distinct ids, that is for at most one unknown id (`FiledApartIff`); with more, pairs share cache keys within one request and only their number and the untouched entries are claimed. One clock reading serves a whole request, and no other request changes the cache meanwhile.
- FundingService.VenueOrderDoesNotShow: for refreshed answers, and with one base asset per instrument, as the instrument table has it; a cached table keeps the sort order, stale setting and A/B labels of the request that wrote it, because the key names none of them.
- Cache.GetOrFetch and GetCacheStatus (cache.go:104-152): the first joins concurrent fetches through a library, the second only reports ages.
- ExtendedFeed.Adapter.HandleMessage: one frame is one step; the program releases its lock between reading and writing the number, which matters only if one symbol's frames were handled concurrently. Timestamps, reconnects and closing of channels are left out.
- PerpDexes.RoundTripIff: JSON decoding is a parameter of which only one fact is used, that the entries of an array, joined, hold fewer non-space characters than its text.
- PerpDexes.Settings.GetPerpDexes: one clock reading per call, where the program reads the clock again to stamp the cache.
