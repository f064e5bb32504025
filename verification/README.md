# photinus, verified

A Dafny model of photinus, the small swarm of monitoring agents ("lanterns") that watch services and each
other and page an operator exactly once. The model follows one lantern's decision pipeline, and the small
swarm built from several of them:

gossiped observations -> a newest-wins store with tombstones -> a quorum verdict per subject -> an alert
tracker with an alert delay, flap damping and hash-elected paging.

Each stateful part is a class with the fields of the original, and its methods are proved against
specification functions over values; the lemmas then reason about every run of those functions.

| file | what it holds |
|---|---|
| Base.dfy | names in byte order, instants in nanoseconds, finite-set facts |
| Quorum.dfy | `Decide`, told from the observations alone; its meaning over a ballot, what a verdict means |
| Election.dfy | `Elect` |
| Roster.dfy, Partition.dfy, Standoff.dfy | the ledger of who was ever seen; partition safety of ledger and quorum together, and up to the page |
| Tracker.dfy, TrackerLife.dfy | the alert tracker: class, specification, and one subject's life in it |
| Paging.dfy, Pages.dfy, Pushes.dfy | exactly-once paging, and the tracker as a refinement of a subject's full history; what every page says; what phones are told |
| Fleet.dfy, Deliveries.dfy | converged lanterns page exactly once, from stores and from what was delivered |
| Alarms.dfy, Books.dfy, LostBlackout.dfy | exactly when an alarm is sent and by whom; what differing address books do to blackouts, and a blackout that is lost |
| HoldDown.dfy | no page without lasting agreement, through store, quorum and tracker |
| Wire.dfy, Memory.dfy, Merge.dfy, Pruning.dfy | what a payload does; what a lantern remembers: tombstones; merging, convergence and its exact limit; when pruning is never seen |
| Pulse.dfy, Skew.dfy, Flash.dfy, Blackout.dfy, Status.dfy | dead man's switch, clock drift, packets, blackouts, status |
| Pacing.dfy, Outcomes.dfy, Cadence.dfy | re-probing a failing check; what a run says; a paced word between its runs |
| Lantern.dfy | the agent, tying all of it to the methods that update its maps |

`dafny verify dfyconfig.toml` checks everything.

## Reading the main results

- **What a decision says**: `Quorum.DecisionInFull`; who is counted in it, `Roster.CountedIff`.
- **Partition safety**: `Partition.PartitionSafety`, and up to the page `Standoff.OneSideStaysSilent`.
- **Exactly one page**: `Deliveries.DeliveriesArePagedExactlyOnce`, from deliveries to pages; with no agreement but on
  who is alive, `Alarms.OneVoicePerSubject`; what it takes of the address books, `Books.BlackoutIsSentIff`.
- **The tracker is its history**: `Paging.HistoryDecides`, from which `Paging.StormsAreBounded` and
  `Paging.StreamIsFaithful` speak to the operator; what every page says, `Pages.EveryPageIsFitting`; and when a phone
  is left with an alarm that no longer stands, `Pushes.AlarmIsLeftStandingIff`.
- **A page if and only if agreement lasts**: `HoldDown.CommitsDownIff`, `Alarms.AlarmIsSentExactly`,
  `HoldDown.PagesAreEarned`, `HoldDown.OutagesAreCommitted`.
- **Gossip arrives**: `Wire.FlashIsHeard`.
- **Nothing comes back**: `Memory.NoGhostVotes`, `Memory.NoRelicVotes`; and nothing is missed, `Pruning.PruningIsNeverSeen`.
- **Lanterns converge**: `Merge.MergeConverges`, and exactly when order matters, `Merge.OrderMattersIff` and
  `Merge.PairCommutesIff`.
- **Blips are filtered**: `Pacing.BlipsAreFilteredIff`; a healthy check is silent, `Outcomes.PassesNeverPage`; and slow checks never look stale, `Cadence.PacedWordStaysLive`.

## Where the code and its comments part ways

The model follows the code.

- `chunkFlash` says it measures the envelope so that every chunk fits the packet
  (internal/lantern/liveness.go:84-98). Its estimate forgets the `,"obs":[` and `]` around the list, less
  one separator: payloads are eight bytes larger than it believes. `Flash.PayloadBound` gives the exact
  size, `Flash.WithinLimitIff` when the limit is met, `Flash.LargestPacket` an input that misses it.
- "The newest observation per observer and subject wins" (internal/lantern/lantern.go:369-370) does not make
  merging independent of order while tombstones stand: a word that lifts one lets older words through.
  `Merge.OrderMattersIff` says exactly which words do, `Merge.PairCommutesIff` which pairs.
- Pruning is said to drop observations "long past any chance of counting again"
  (internal/lantern/lantern.go:556-558). A pruned word no longer keeps out an older one: if that one has the
  longer TTL and a peer still holds it, it comes back and counts. `Pruning.PruningShowsIff` says exactly when.
- The blackout rule is said to keep "exactly one lantern pages" (internal/lantern/blackout.go:24-27) while every
  lantern draws blackouts from an address book of its own. A lantern that is elected but has never reached the
  address sends nothing: `Books.BlackoutIsSentIff` says exactly when the page gets out, and
  `LostBlackout.TheBlackoutNobodySends` gives an input for which it does not.
- A push channel is said to hear of a critical subject that is "down, back up, or being damped"
  (internal/notify/notify.go:54-58). One that comes back by way of a warning is cleared, and cleared is not pushed:
  phones are left with the alarm. `Pushes.AlarmIsLeftStandingIff` says exactly when, `Pushes.TheAllClearNobodyHears`
  gives such a run.
- A pulse window below one second gives its receipt the 25 hour default TTL, so the receipt outlives the
  window and is overwritten while live: `Pulse.OverwrittenIffWindowBelowASecond`.
- The comment on the re-probe interval asks that fresh evidence arrive inside the alert delay
  (internal/lantern/lantern.go:210-218). `Pacing.BlipsAreFilteredIff` says which delays are long enough.
- `Elect` takes any list of ids; with an empty id its result would depend on the order
  (`Election.UnnamedLanternBreaksElection`), so the election lemmas ask for non-empty ids.

## Conventions

- Time is an unbounded integer number of nanoseconds and 0 is Go's zero `time.Time`. `Time.Sub` saturation
  and the overflow of durations and TTLs are not modelled.
- A store key is the triple (observer, check, target) and a subject the pair (check, target), where the code
  joins them with separators.
- The election's hash is an arbitrary scoring function. A check is an oracle that hands over its result. JSON
  is a length: any function from observations to an optional size.
- Ranging over a Go map is picking an arbitrary remaining key, so every result holds for every order.
- The log of the tracker holds what was announced (the same on every lantern); what one lantern sends is the
  part of it that names this lantern as the winner.
- Several methods split one method of the original; they hold no state of their own.

## Model

| member | source | states |
|---|---|---|
| `Quorum.Decide` | internal/quorum/quorum.go:73-147 | Any list of observations, sizes, ages and clocks: the decision is told in every field from the observations alone, by the newest word of each observer that has not aged out; it is also `Verdict` of the loop's ballot |
| `Quorum.HasVoteIff` | internal/quorum/quorum.go:82-97 | An observer is on the ballot if and only if a word of its own on the subject is at most its TTL in seconds old, or, without one, at most the aging window if there is one; and then with a newest such word |
| `Quorum.AgedOutHasNoPart` | internal/quorum/quorum.go:66-93 | An observer whose every word on the subject is older has no part in the decision: leaving all its words out changes no field |
| `Quorum.DecisionInFull` | internal/quorum/quorum.go:73-147 | Authority, votes, voters, quorum, state and detail, each by its rule over those words: Down for a majority of downs, Warn for a majority of complaints without one of downs, the detail of the first complaint in byte order that has one |
| `Quorum.Tally` | internal/quorum/quorum.go:111-134 | The counting loop: voters, complaints and downs are set sizes, and the detail is that of the first complaining observer in byte order that has one, else the first observer's |
| `Quorum.NewestIsBallot` | internal/quorum/quorum.go:82-97 | The loop's map holds for each observer a newest live word on the subject, and somebody is missing only if they have none |
| `Quorum.BallotUnique` | internal/quorum/quorum.go:94-97 | Only one map is such a ballot, whatever order the observations come in, if no observer says two things at one instant |
| `Quorum.DecideIgnoresOrder` | internal/quorum/quorum.go:82-147 | The whole decision, its detail too, depends only on which observations are held |
| `Quorum.TiesBreakOrder` | internal/quorum/quorum.go:94-96 | Concrete pair of equally stamped words for which the first one read wins, so the tie rule above is needed |
| `Quorum.VotesAreObservers` | internal/quorum/quorum.go:119-131 | votes <= voters <= distinct observers with a live word, with equality for voters when nobody has authority |
| `Quorum.VerdictMeansMajority` | internal/quorum/quorum.go:99-145 | Without authority, Down if and only if more than half of the last known size says down, Up if and only if at most half complains; with authority, the lantern's own state. Warnings never become Down |
| `Quorum.VerdictMonotone` | internal/quorum/quorum.go:99-145 | Worsening one observer's word never improves the verdict |
| `Quorum.CanAlarmIff` | internal/quorum/quorum.go:61-64 | A set of voters can reach Warn or Down on somebody else's subject if and only if it is a majority of the last known size |
| `Quorum.StoreHasNoTies` | internal/lantern/lantern.go:473-475 | A store keyed by observer and subject, listed in any order, never holds two words at one instant under one key |
| `Quorum.StoreBallot` | internal/lantern/lantern.go:645-671 | Whatever order the store's map is ranged over, `Decide` judges the store's own ballot |
| `Base.BeforeIsByteOrder` | internal/notify/notify.go:83 | The order of ids is byte order: at the first difference the smaller byte decides, and a prefix comes first |
| `Election.Elect` | internal/notify/notify.go:77-88 | The loop returns `Elected`, for any scoring function and any list, empty included |
| `Election.ElectedIsMaximum` | internal/notify/notify.go:71-88 | The winner is alive and beats every other living lantern by (score, id) |
| `Election.LosersDoNotMatter` | internal/notify/notify.go:71-76 | Any lanterns but the winner can leave without changing the winner |
| `Election.ElectionIsASetFunction` | internal/notify/notify.go:71-76 | Order and repetition in the alive list do not matter |
| `Election.NewcomerTakesOrLeaves` | internal/notify/notify.go:71-76 | A joining lantern either wins the alert itself or changes nothing |
| `Election.UnnamedLanternBreaksElection` | internal/notify/notify.go:83 | With the empty id, which the loop uses for "none yet", the order would matter |
| `Roster.Swarm.Join` | internal/swarm/swarm.go:110-125 | The ledger starts with this lantern and every non-empty declared name |
| `Roster.Swarm.NotifyJoin` | internal/swarm/swarm.go:559-565 | The name is counted and its death stamp gone, nothing else changes |
| `Roster.Swarm.NotifyLeave` | internal/swarm/swarm.go:567-600 | The whole new ledger: a graceful leave forgets an undeclared name, a failure only stamps it, and only once |
| `Roster.Swarm.Forget` | internal/swarm/swarm.go:381-387 | A farewell drops the name unless it is declared |
| `Roster.Swarm.Reap` | internal/swarm/swarm.go:273-287 | The whole new ledger after the loop over the death stamps, whatever order the map is ranged over |
| `Roster.Swarm.LastKnownSize` | internal/swarm/swarm.go:350-354 | The quorum denominator is the number of names in the ledger |
| `Roster.Swarm.Roster` | internal/swarm/swarm.go:392-400 | The roster lists exactly the names of the ledger, each once |
| `Roster.DeclaredStayCounted` | internal/swarm/swarm.go:118-125 | In every run: declared names are counted from first to last and never carry a death stamp |
| `Roster.StampsHaveACause` | internal/swarm/swarm.go:588-598 | In every run: a death stamp stands for a failure at that instant with no join, leave, sighting or due reap since |
| `Roster.NamesLeaveForAReason` | internal/swarm/swarm.go:269-287 | In every run: a name leaves only by a graceful leave, a farewell, or undeclared after more than an hour dead with no join in between |
| `Roster.ReapForgets` | internal/swarm/swarm.go:281-284 | Conversely, an undeclared name dead for more than the grace is gone after the next reap that does not see it alive |
| `Roster.StampsAreWatches` | internal/swarm/swarm.go:567-600 | In every run a name carries a death stamp if and only if it is undeclared and on watch: failed, and since then not joined, left, seen alive or dead for more than an hour at a reap; and the stamp is the instant of that failure |
| `Roster.CountedIff` | internal/swarm/swarm.go:559-600 | Who is counted, in every run: a name is on the ledger if and only if it is declared, or it is the lantern's own or has joined, and since then has not left gracefully, been said farewell to, or been reaped after more than an hour on watch |
| `Roster.SizeCountsTheRemembered` | internal/swarm/swarm.go:350-354 | The quorum denominator is the number of names so remembered, undeclared joiners included |
| `Partition.PartitionSafety` | internal/quorum/quorum.go:61-64 | End to end over any two histories of joins, leaves, failures, farewells and reaps: two lanterns given the same declared members, with disjoint declared voters, never both alarm |
| `Partition.MinorityStaysQuiet` | internal/quorum/quorum.go:61-64 | A side whose live voters are at most half of its roster decides Up, except on its voters' own subjects |
| `Partition.UndeclaredSplitPagesTwice` | internal/swarm/swarm.go:84-90 | Without the declaration a split longer than the reaper's grace makes both sides alarm on words seen after the reap: for any two lanterns, any positive age and any instants, with the histories that lead there |
| `Standoff.OneSideStaysSilent` | internal/quorum/quorum.go:61-64 | The same up to the page and over whole runs: of two lanterns given the same declared members, to which disjoint declared voters speak about a subject that does not speak for itself, one never announces anything at all about it, whatever memberships, warmups and delays either goes through |
| `Standoff.UpIsSilent` | internal/notify/notify.go:179-291 | A tracker that is never told anything but Up about a subject never announces anything about it |
| `Tracker.Tracker.constructor` | internal/notify/notify.go:122-139 | A new tracker has empty maps |
| `Tracker.Tracker.Observe` | internal/notify/notify.go:148-293 | One call: all six maps and the pages sent equal the specification `Observed`, warmup, mention, eviction and every branch of the decision loop included; what that means for every page is `Pages.EveryPageIsFitting` |
| `Tracker.Tracker.Mention` | internal/notify/notify.go:160-167 | Who was mentioned when, subjects with a state but no mention adopted at this instant |
| `Tracker.Tracker.Sweep` | internal/notify/notify.go:168-177 | Exactly the subjects unmentioned for more than 72 hours leave all six maps |
| `Tracker.Tracker.ObserveOne` | internal/notify/notify.go:180-291 | One decision: the new maps and what this lantern sends, a decision without voters changing nothing |
| `Tracker.Tracker.Hold` | internal/notify/notify.go:199-212 | The alert delay: when the down clock starts, holds the decision back, and is cleared |
| `Tracker.Tracker.CloseFlap` | internal/notify/notify.go:220-235 | A flapping subject is settled exactly when its last change is five minutes old |
| `Tracker.Tracker.KeepSender` | internal/notify/notify.go:236-248 | A standing alarm is repeated by a new winner exactly when its recorded sender is not alive |
| `Tracker.Tracker.MoveTo` | internal/notify/notify.go:251-290 | A transition: state, trimmed window, flap flag, sender and page; the word on the page is the one `Pages.AllClearTellsWhatItWas` and `Pages.EveryPageIsFitting` pin down |
| `Tracker.RowsAreApart` | internal/notify/notify.go:107-114 | One subject's slice of the six maps can be written without touching any other's |
| `TrackerLife.RunIsLives` | internal/notify/notify.go:148-293 | Over whole runs, the six maps and the log are nothing but independent per-subject lives |
| `Paging.WinnersAreAlive` | internal/notify/notify.go:225-291 | Every announcement of a run is elected among the alive list of the call that made it |
| `Paging.FleetPagesExactlyOnce` | internal/notify/notify.go:71-76 | Exactly-once paging: trackers fed the same calls send together, with multiplicity, exactly what was announced |
| `Paging.TrimIsFilter` | internal/notify/notify.go:255-259 | On a sorted list the trimming loop is the filter of the last ten minutes |
| `Paging.TrimKeepsRecent` | internal/notify/notify.go:255-259 | Appending to the trimmed list and trimming equals trimming the full history |
| `Paging.HeldClockIsHeldSince` | internal/notify/notify.go:203-211 | The down clock kept decision by decision is the instant of the first mark in the longest run of held back Downs that ends the history |
| `Paging.HistoryDecides` | internal/notify/notify.go:179-291 | The six maps refine the history: in every run, every commit, every announcement (kind, winner, takeover) and every silence is what a definition over the subject's full history calls for, with no clocks, flags or trimmed lists |
| `Paging.StreamIsFaithful` | internal/notify/notify.go:214-291 | Replaying the announcements about a subject gives its committed state, and "flapping" exactly while it is damped; a subject that is not Up or is flapping has the last speaker on record as its sender |
| `Paging.TransitionsAreTheRecentHistory` | internal/notify/notify.go:254-259 | The list kept equals all transitions since the last settle or eviction within ten minutes of the latest one |
| `Paging.StormsAreBounded` | internal/notify/notify.go:90-97 | At every point of every run no five announced transitions since the last settle lie within ten minutes, and a bouncing subject is next heard of when it has held one state for five minutes |
| `Paging.NothingOutlivesItsMention` | internal/notify/notify.go:156-177 | After the warmup whatever any of the six maps holds about a subject was mentioned within the last 72 hours |
| `Pages.EveryPageIsFitting` | internal/notify/notify.go:214-310 | Every page and every silence of every run, read off the history mark by mark with the bounds written out: a change is announced as down, warning, recovered or cleared by what it changes from and to, the fourth in ten minutes as flapping and later ones not at all; a bouncing subject is announced as settled after five minutes in one state; a standing alarm is repeated as down or warning when whoever spoke last is gone; and the winner is alive and outranks the others |
| `Pages.AllClearTellsWhatItWas` | internal/notify/notify.go:295-310 | A commit to Up of a subject that neither bounces nor starts to is always announced, as recovered if and only if what stood before was Down, as cleared if and only if it was Warn |
| `Pushes.PushedExactly` | internal/notify/notify.go:40-69 | What is pushed of what a lantern sends, with multiplicity: pages of critical subjects that say down, recovered, flapping or settled |
| `Pushes.NoAlarmIsMissed` | internal/notify/notify.go:54-69 | In every run, while a subject stands Down and does not bounce, the last push about it says that it is down |
| `Pushes.AlarmIsLeftStandingIff` | internal/notify/notify.go:54-69 | Exactly when that goes wrong the other way: phones are left with an alarm that no longer stands if and only if it has since turned into a warning |
| `Pushes.TheAllClearNobodyHears` | internal/notify/notify.go:54-58 | Such a run for every warmup and delay: down for long enough, later a warning, later up, and the last push still says down |
| `HoldDown.StepHolds` | internal/notify/notify.go:192-212 | What one decision does to the down clock and the committed state; a commit happens if and only if the delay has passed |
| `HoldDown.CommitsDownIff` | internal/notify/notify.go:192-212 | The alert delay both ways, whatever it is, in every run: a call commits Down if and only if it says so itself and somebody had said so at least the delay earlier, past the warmup, with nobody saying anything else and the subject never forgotten since |
| `HoldDown.DownNeedsTheWholeDelay` | internal/notify/notify.go:192-212 | In particular a commit to Down is preceded by a call at least the delay ago that said down, with nobody saying anything else in any call since |
| `HoldDown.PagesAreEarned` | internal/lantern/lantern.go:642-702 | End to end over store, quorum and tracker, for any delay: a commit to Down means that, from a flash at least the delay ago to now, at every flash with a live voter, the target's own lantern said down or, where it says nothing, a majority of the last known swarm did |
| `HoldDown.OutagesAreCommitted` | internal/lantern/lantern.go:642-702 | The converse: an outage agreed on at every flash for the delay, past the warmup, is committed Down |
| `Memory.TombstonesHold` | internal/lantern/lantern.go:431-463 | In every run of gossip, farewells, retirements, flashes and pings: while a tombstone stands the store holds nothing from a peer that it covers |
| `Memory.GhostsStayLaid` | internal/lantern/lantern.go:541-546 | After a farewell each ghost is kept out by the tombstone, or by its age once the tombstone may be gone |
| `Memory.NoGhostVotes` | internal/lantern/lantern.go:573-578 | After a farewell and until a newer word of that lantern, no earlier peer opinion by or about it is ever on a ballot again, even past the 72 hours, if no TTL exceeds them |
| `Memory.RelicsStayOut` | internal/lantern/lantern.go:498-507 | After a retirement each earlier word of a peer on the subject is kept out by the tombstone, or by its age once the tombstone may be gone |
| `Memory.NoRelicVotes` | internal/lantern/lantern.go:449-459 | For as long as no word on a retired subject from after the retirement is heard, no peer's earlier word on it is in the store for 72 hours, nor on a ballot ever again if no TTL exceeds those |
| `Memory.FlashForgets` | internal/lantern/lantern.go:559-592 | Of what it does not write, a flash leaves a word if and only if it is at most three lifetimes old or an hour, a tombstone or an undeclared job's ping if and only if it is at most 72 hours old, and declared jobs' pings for good |
| `Memory.PruneLosesNoVote` | internal/lantern/lantern.go:556-572 | What one pruning removes is on no ballot at any later time, for any subject, while nothing else is heard |
| `Pruning.PruningIsNeverSeen` | internal/lantern/lantern.go:556-572 | Over whole runs: a lantern that prunes reads every ballot as one that never drops a stale word, if no word outlives the keeping of a newer one under its key |
| `Pruning.OneTtlIsOrderly` | internal/lantern/lantern.go:556-572 | One TTL per key is enough for that |
| `Pruning.PruningShowsIff` | internal/lantern/lantern.go:556-572 | ... and the condition is exact: for any older and newer word under a key, some pruning, handing back and reading shows a difference if and only if the older outlives the keeping of the newer |
| `Memory.RunWellKeyed` | internal/lantern/lantern.go:460-463 | Every stored word is filed under its own key in every run |
| `Merge.HeardInPlace` | internal/lantern/lantern.go:429-470 | The guards as one question: a word that lifts no farewell is dropped whole, or lands as the newer of two |
| `Merge.MergeKeepsNewest` | internal/lantern/lantern.go:369-371 | Where no tombstone is lifted, the store after any deliveries holds, key by key, the newest of what was held and what came through the guards |
| `Merge.MergeConverges` | internal/lantern/lantern.go:369-371 | Strong convergence: lanterns that held and took the same words under a key, in any order, chunking and multiplicity and with details trimmed or not, agree on it up to the detail |
| `Merge.PushPullAgrees` | internal/lantern/lantern.go:149-154 | One push/pull exchange makes both sides agree on every key neither refuses |
| `Merge.RedeliveryChangesNothing` | internal/lantern/lantern.go:461-469 | Hearing again what was already delivered changes nothing in the whole memory |
| `Merge.ClosedWordsCommute` | internal/lantern/lantern.go:429-463 | Two words that open no tombstone can be heard in either order |
| `Merge.OrderMattersIff` | internal/lantern/lantern.go:440-459 | The exact exception: a word can be reordered with every other word that opens no tombstone if and only if it opens none itself |
| `Merge.PairCommutesIff` | internal/lantern/lantern.go:431-463 | ... and for any two given words, whatever they lift: their order shows in the store if and only if one is kept out only by a tombstone the other lifts and would be taken in after it, or both are taken in and say different things under one key at one instant |
| `Fleet.AgreeingStoresDecideAlike` | internal/lantern/lantern.go:288-299 | Stores that agree on a subject up to trimmed details give the same verdict in every field but the detail |
| `Fleet.RunReadsNoDetail` | internal/notify/notify.go:148-293 | A whole run of the tracker, all six maps and everything announced, reads no detail |
| `Fleet.SameSightSameReport` | internal/lantern/lantern.go:642-702 | Stores that agree up to detail, with the same roster size, address book, settings and clock, give their trackers the same report up to detail, blackouts included |
| `Fleet.ConvergedFleetPagesExactlyOnce` | internal/notify/notify.go:71-76 | Each lantern runs its tracker on the reports of its own store, roster and address book; where the stores agree up to detail and the rest agrees, flash by flash, they send together exactly what any one of them announced, once |
| `Deliveries.SameNewsAgree` | internal/lantern/lantern.go:369-371 | Lanterns that held and took the same words, in any order, chunking and multiplicity and with details trimmed or not, have stores that agree on every subject |
| `Deliveries.DeliveriesArePagedExactlyOnce` | internal/notify/notify.go:71-76 | Exactly-once paging from what was delivered: if by every flash every lantern has been told the same words and agrees on roster, address book, who is alive and the clock, the fleet sends what any one of them announced, once |
| `Alarms.AlarmIsSentExactly` | internal/notify/notify.go:179-291 | At every call of every run, for any warmup and delay: a lantern says that a subject went down if and only if it is elected, the subject is called down and not bouncing, and either that has now lasted the delay without making it bounce, or the alarm stands and its recorded sender is gone |
| `Alarms.OnlyTheElectedSends` | internal/notify/notify.go:71-76 | At a flash at which a fleet believes the same names alive, only the elected lantern's own run can send a page, whatever the others have seen, decided or announced |
| `Alarms.OneVoicePerSubject` | internal/notify/notify.go:71-76 | While a fleet believes the same names alive, what it sends about a subject is, with multiplicity, what the one elected lantern announced about it, whatever the clocks, stores, rosters and address books of the others |
| `Alarms.PagesNeedOwnDecision` | internal/notify/notify.go:180-184 | A page about a subject is sent only by a lantern that has itself decided about it |
| `Books.BlackoutsNeedOwnBook` | internal/lantern/lantern.go:229-237 | A blackout is sent only by a lantern whose own address book has shown the group |
| `Books.BlackoutIsSentIff` | internal/lantern/lantern.go:229-237 | Exactly when a blackout gets out, at every flash of every run and for every warmup and delay: some lantern of the fleet sends the alarm if and only if, by the elected lantern's own book, the group is dark and not bouncing, and either has been dark for the delay past the warmup without starting to bounce, or the alarm stands and its recorded sender is gone |
| `Books.AnnouncedByOneSentByNone` | internal/lantern/lantern.go:229-237 | Whatever one lantern announces about a dark group, at any flash of any run, nobody sends it there if the elected lantern's own book does not show the group dark |
| `LostBlackout.TheBlackoutNobodySends` | internal/lantern/blackout.go:22-27 | The failing input, for every warmup and delay: one host, two services on different sites called down by both lanterns of a swarm of two, one address book; a run of real reports over which one lantern announces the blackout and neither sends it |
| `LostBlackout.SceneExists` | internal/lantern/blackout.go:22-27 | Such a scene: names, services, host and scores that meet every condition asked of it |
| `Pulse.BaselineIsNewestPing` | internal/lantern/pulse.go:54-57 | In every run the remembered time of a declared pulse is the newest of all local pings and all receipts no retirement refused; farewells, retirements and pruning never lower it |
| `Pulse.SilenceVotedExactly` | internal/lantern/pulse.go:61-87 | This lantern's Down about a job, stamped now and without a TTL, is among its words if and only if the newest accepted ping, or the start, is longer ago than the window |
| `Pulse.SilenceSaysDown` | internal/lantern/pulse.go:66-87 | ... and nothing but such Downs about declared jobs is |
| `Pulse.PingIsOnRecord` | internal/lantern/pulse.go:37-59 | After a ping, and over any run without a retirement of the job or newer word of it, the record is in the store and on the ballot as this lantern's Up until the declared window of at least a second has passed, or 25 hours |
| `Pulse.BaselineNeverFalls` | internal/lantern/lantern.go:464-469 | The remembered time never moves back |
| `Pulse.ReceiptsReflected` | internal/lantern/lantern.go:464-469 | No stored receipt of a declared pulse is newer than the remembered time |
| `Pulse.LiveReceiptIsNotOverwritten` | internal/lantern/pulse.go:33-53 | A live receipt with this lantern's own TTL is never replaced by its own down vote, for windows of at least a second |
| `Pulse.OverwrittenIffWindowBelowASecond` | internal/lantern/pulse.go:40-43 | ... and that bound is exact: below a second the receipt gets the default TTL and the vote does replace it |
| `Skew.ClockTable.ObserveClock` | internal/lantern/skew.go:41-55 | The whole table after one sample: the window's minimum, restarted when the window has passed |
| `Skew.ClockTable.SkewObservations` | internal/lantern/skew.go:59-98 | Exactly the peers silent for four windows are dropped; one verdict, and only one, per peer heard within a window |
| `Skew.EstimateIsWindowMinimum` | internal/lantern/skew.go:26-33 | In every run the one number kept is the minimum of all samples since the window opened |
| `Skew.EstimateBracketsTruth` | internal/lantern/skew.go:15-20 | With delays never negative the estimate is at least the true offset and, once some sample had delay at most d, at most d above it |
| `Skew.DriftVerdictIsRight` | internal/lantern/skew.go:59-95 | A clock more than the bound behind is always warned about, one that far ahead too after a prompt sample, one in step never |
| `Skew.WordsTellTheDrift` | internal/lantern/skew.go:37-98 | The words themselves, over any run: a peer's clock is spoken of if and only if it was heard within fifteen intervals, measured on if and only if within sixty, never called down, and warned about or up as the bracket says |
| `Flash.ChunkFlash` | internal/lantern/liveness.go:90-122 | The batches joined give back the encodable input in order, none is empty, each has one element or fits the estimate, and no other contiguous split does with fewer |
| `Flash.GreedyIsOptimal` | internal/lantern/liveness.go:111-122 | Cutting only when the next observation overflows needs the fewest payloads |
| `Flash.PayloadBound` | internal/lantern/liveness.go:97-103 | The true payload is the estimate plus eight bytes: at most limit+8 for several observations |
| `Flash.WithinLimitIff` | internal/lantern/liveness.go:84-89 | A payload meets the limit exactly when its estimate leaves eight bytes free |
| `Flash.PacketsFit` | internal/lantern/lantern.go:705-707 | With observations clamped to 900 and an envelope of at most 99 bytes no packet exceeds 1008 |
| `Flash.JsonDetailAdds` | internal/lantern/liveness.go:139-152 | Real JSON lengths only grow with the detail, which is all the clamp relies on |
| `Flash.LargestPacket` | internal/lantern/lantern.go:705-707 | ... which is reached, with real JSON lengths, by one concrete observation of a lantern with an id of 42 characters; the intended 1000 is missed |
| `Flash.FitForGossip` | internal/lantern/liveness.go:133-153 | The result differs at most in its detail and fits; what fits is unchanged; what does not loses as much of its detail as it is too long, and all of it only if that does not fit; it succeeds if and only if the observation fits without its detail |
| `Flash.ShortenedJustFits` | internal/lantern/liveness.go:143-148 | Where texts need no escaping, a detail that is cut keeps a beginning of itself and leaves the observation five bytes short of the limit |
| `Flash.LivenessObservations` | internal/lantern/liveness.go:23-45 | Exactly one word per entry of the roster but the own name, in its order, Up if and only if it is alive and Down if and only if it is not, stamped now and without a TTL; one per peer for a roster without repeats, and none about oneself |
| `Blackout.OneSiteCountsOnce` | internal/lantern/blackout.go:120-130 | http, https and the implicit port of one host give one site |
| `Blackout.OtherPortsCount` | internal/lantern/blackout.go:120-130 | Any other port stays part of the site |
| `Blackout.CountersMeanDark` | internal/lantern/blackout.go:104 | In a group big enough, the three counters say exactly that every member is down |
| `Blackout.GroupByAddress` | internal/lantern/blackout.go:65-85 | The grouping loop: per address the member, down and site counts, nothing for subjects without an address |
| `Blackout.Blackout` | internal/lantern/blackout.go:56-118 | One decision for every capable address and no other, in address order, Down if and only if all members are down |
| `Blackout.BlackoutRule` | internal/lantern/blackout.go:56-118 | The rule in full: an address is spoken of if and only if at least the minimum of subjects live there, on two sites or more, and then once, Down if and only if all of them are down, with the number down as votes and of all as voters |
| `Blackout.CapableIgnoresStates` | internal/lantern/blackout.go:49-55 | Which addresses are spoken about depends on who lives there and never on any state |
| `Pacing.FlashKeepsPace` | internal/lantern/lantern.go:197-223 | After every flash each paced check, one configured twice included, ran less than its cadence ago, and less than thirty seconds ago if it last failed |
| `Cadence.WordsRide` | internal/lantern/lantern.go:254-283 | In every run of flashes and other events, farewells of the target and retirements of the subject aside, the store holds just what a paced check last said |
| `Cadence.PacedWordStaysLive` | internal/lantern/lantern.go:254-262 | ... and it is on the subject's ballot at every instant at which the check is not due again, indeed for four cadences after its last run |
| `Cadence.FlashLeavesAFreshRun` | internal/lantern/lantern.go:188-193 | After every flash that last run is less than one cadence old |
| `Pacing.IsolatedFailuresNeverPage` | internal/lantern/lantern.go:210-218 | A lone lantern over any flashes: with a delay as long as a failing check can go without a run, failures followed by a good run never commit Down |
| `Pacing.ShortDelayPagesABlip` | internal/lantern/lantern.go:709-712 | With any shorter delay or none, and whatever the warmup, one failed run does: the check passes, fails once at its next run after the warmup, and is committed Down by the flash a delay later |
| `Pacing.BlipsAreFilteredIff` | internal/lantern/lantern.go:210-218 | For every warmup, the delay filters isolated failures if and only if it is at least the smaller of the cadence and thirty seconds |
| `Pacing.WordsAreOwn` | internal/lantern/lantern.go:263-271 | A flash speaks in this lantern's name and only of its own checks |
| `Outcomes.RunTellsOutcome` | internal/lantern/lantern.go:197-272 | What one check does in one flash: whether it runs, told from its cadence and half a minute after a failure; its word, Up if and only if it passed, Warn if and only if it warned, Down if and only if it failed, none if and only if it does not apply, with stamp and TTL; what is remembered of it; and the address it got to |
| `Outcomes.ChecksAreApart` | internal/lantern/lantern.go:195-272 | In a whole flash a check that no other shares its subject with says and remembers just what it would alone |
| `Outcomes.PassesNeverPage` | internal/lantern/lantern.go:194-334 | A lone lantern never commits a change of, nor announces anything about, a check that passes whenever it runs, whatever the cadence, alert delay, warmup and spacing |
| `Status.DecideAll` | internal/lantern/lantern.go:665-690 | One verdict for every subject the store holds and no other, in (check, target) order |
| `Status.PanelOrderIsUnique` | internal/lantern/lantern.go:684-690 | There is one order by (check, target) only, so equal subjects give equal panels |
| `Status.ReportIsStatus` | internal/lantern/lantern.go:642-702 | The panel followed by the blackouts is the status of the reading: a verdict per held subject, none twice |
| `Status.BlackoutCloses` | internal/lantern/blackout.go:49-55 | With the tracker: once a capable group has been on a panel, the report on which one of the same residents is no longer down commits the blackout Up in that very call |
| `Lantern.Lantern.constructor` | internal/lantern/lantern.go:91-138 | Defaults of interval, age and blackout, empty memory, and the invariant |
| `Wire.FlashIsHeard` | internal/lantern/lantern.go:378-471 | Gossip arrives: a version 1 envelope that is no farewell of somebody else and no retirement, or a bare array, leaves in the store under every key the newest of what was held and of those of its observations that no guard drops, whatever tombstones they lift on the way |
| `Wire.FirstWordIsHeld` | internal/lantern/lantern.go:460-463 | In particular a peer's first word on a subject that no tombstone covers is held afterwards |
| `Wire.OthersAreIgnored` | internal/lantern/lantern.go:385-408 | Garbage, and an envelope of another version that is no farewell or retirement, change nothing |
| `Wire.FarewellIsHeard` | internal/lantern/lantern.go:526-546 | A farewell takes exactly the opinions by or about the sender out of the store; its words up to that instant change nothing from then on, and those of others about it no word held |
| `Wire.RetirementIsHeard` | internal/lantern/lantern.go:498-507 | A retirement takes exactly the words on the subject out of the store, and from then on none up to that instant is taken in |
| `Wire.StampIsMeasured` | internal/lantern/lantern.go:410-424 | Only a stamped version 1 envelope of somebody else measures a clock, the sender's, by how much later than its stamp it arrived, keeping the minimum of fifteen intervals; a farewell ends it; nothing else touches the clocks |
| `Lantern.Lantern.ReceiveFlash` | internal/lantern/lantern.go:378-471 | One payload of any kind: the whole memory, the roster ledger and the clock table after it, as the `Wire` lemmas above describe them, the invariant kept |
| `Lantern.Lantern.Merge` | internal/lantern/lantern.go:427-471 | The guard loop equals `HeardAll`, and the tombstones keep doing their work |
| `Lantern.Lantern.MergeOne` | internal/lantern/lantern.go:429-470 | One observation: all guards in order, the store, both tombstone maps and the ping memory |
| `Lantern.Lantern.Forget` | internal/lantern/lantern.go:526-554 | A farewell: its word and everything said about it goes, receipts stay, tombstone, clock and ledger updated |
| `Lantern.Lantern.ForgetSubject` | internal/lantern/lantern.go:498-507 | A retired subject leaves the store and is tombstoned |
| `Lantern.Lantern.SyncState` | internal/lantern/lantern.go:154-159 | The snapshot holds exactly the store's words |
| `Lantern.Lantern.Pulse` | internal/lantern/pulse.go:37-59 | A ping writes this lantern's receipt and the newest time, and says whether it is declared |
| `Lantern.Lantern.PulseObservations` | internal/lantern/pulse.go:66-87 | One down vote, and only one, per silent declared pulse |
| `Lantern.Lantern.RunChecks` | internal/lantern/lantern.go:195-272 | Which checks run, what they write, and the pace, verdict and address memories after them, each check as `Outcomes.RunTellsOutcome` describes it |
| `Lantern.Lantern.Speak` | internal/lantern/lantern.go:194-284 | The first half of a flash: own words are exactly checks, clocks, silences and roster; the memory after writing and pruning them; the invariant kept |
| `Lantern.Lantern.SayingsAreHonest` | internal/lantern/lantern.go:263-279 | Everything a flash writes is in this lantern's own name, and none of it is a pulse receipt if no check is called pulse |
| `Lantern.Lantern.NothingIsLeftUnsaid` | internal/lantern/lantern.go:274-280 | Every peer of the roster is reported as it answers or not, every declared job past its window as silent, every clock heard within fifteen intervals, and every check that ran |
| `Lantern.Lantern.Prune` | internal/lantern/lantern.go:559-592 | The four loops remove exactly what is past its horizon |
| `Lantern.Lantern.OwnGossip` | internal/lantern/lantern.go:288-299 | Own words only, each fitting, and every one that can be clamped to fit is there |
| `Lantern.Lantern.Gossip` | internal/lantern/lantern.go:285-315 | The packets of one flash: none above 1008 bytes while the empty envelope has at most 99, nothing but own words, and none of them missing that could be sent at all |
| `Lantern.Lantern.StatusAndBlackouts` | internal/lantern/lantern.go:642-702 | The panel of the lantern's own store and roster, and exactly the blackouts its own address book draws from it |
| `Lantern.Lantern.Notify` | internal/lantern/lantern.go:325-334 | What the tracker is fed is the report of this store, roster and address book, which is what `HoldDown.PagesAreEarned` and `Fleet.ConvergedFleetPagesExactlyOnce` ask of every flash |

## Left out

- memberlist (membership, failure detection, encryption, the broadcast queue): delivery is any sequence of the events a lantern can see.
- Check execution, /proc and sysctl reading, hysteresis: a check is an oracle returning a verdict.
- HTTP handlers, the panel, status printing, mux sockets, APNs, relay, exec and webhook senders, configuration and flags: plumbing.
- Push registrations (internal/lantern/push.go): the same newest-wins merge without the guards modelled here.
- `warnUnderDeclaredPulses`, the log of unknown wire versions, and all log lines: they change no decision.
- Detail sentences: the details this lantern writes itself are empty here; what a check or a peer supplies is carried and chosen as the code does.
- Interleavings inside a method: each locked section is one step, and one clock reading serves a received payload where the code reads the clock again for a tombstone or a sample.
- A lantern with no swarm attached, whose last known size is one; `Pacing` covers that size for a single check.
- States outside up, warn and down, which the code would count as complaints.
- Subjects that collide once joined into one string, such as checks with spaces in their names.
- Tracker.Tracker.Observe: the map of flapping flags is a set, since the code only ever stores true in it.
- Roster.Swarm.Reap: one set stands for the map of alive members.
- Blackout.Blackout: the detail sentence of a dark address is empty.
- Memory.NoRelicVotes: this lantern's own words are exempt; a box that still watches the subject brings it back, as the code means it to.
- Pulse.PingIsOnRecord: not for declared windows below a second, for which `Pulse.OverwrittenIffWindowBelowASecond` shows it false.
- Memory.NoGhostVotes: this lantern's own words are exempt, as its flash stamps them before taking the lock; so are pulse receipts, which the code lets pass on purpose.
- Pacing.BlipsAreFilteredIff: stated for a cadence of at least a second, below which a word's TTL is truncated; the direction that protects, `Pacing.IsolatedFailuresNeverPage`, needs no such bound.
- Fleet.ConvergedFleetPagesExactlyOnce: asks for equal clocks, rosters and address books at every flash; how stores come to agree is `Deliveries.SameNewsAgree`, and no bound on how long that takes is modelled.
- Standoff.OneSideStaysSilent: not about blackouts, which no lantern votes on; they follow their members.
- Status.BlackoutCloses: asks that nobody files words under the check name `blackout`, which the code reserves without guarding it.
- Cadence.PacedWordStaysLive: a check named `pulse` is left out, as receipts may then share its key.
- Flash.JsonDetailAdds: texts that JSON would escape are not modelled; their length is any size function elsewhere.
- Election.ElectedIsMaximum: asks for non-empty ids, see above.
- Lantern.Lantern.Notify: the status is read at its own instant, after the flash's, as in the code; that the two are ordered is not used.
