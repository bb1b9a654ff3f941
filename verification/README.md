# Squash-bot: a verified model of its scheduling and bookkeeping core

This project models the parts of the squash-bot services in which an error costs somebody a court, a
rating or an evening: choosing, booking and giving back courts; deciding about game results and
keeping ratings; refreshing group messages from many goroutines at once; and the jobs that catch up
after failures. Each module follows one component of the services.

How things are modelled:

- What the code changes step by step is a class or a method with the code's own loops and early
  returns; its contract ties the new state to the old one through a specification function, and says of
  the main operations in plain terms what they achieve, as do the lemmas beside it.
- What runs concurrently is a transition system: a state, an action per statement (SQL statement,
  lock operation, request), `Enabled`, `Apply` or `Step`, and `Exec` over arbitrary sequences of actions.
  Results hold in every state that some sequence reaches.
- Answers of the booking platform, of Telegram and of the database are inputs, usually a function
  from the number of the request to the answer, and the results hold for all of them. So do clocks.
- The Glicko-2 formula is a parameter; ratings are reals.
- PostgreSQL is taken at read-committed level: statements see committed rows, row locks and
  transaction-level advisory locks are exclusive and held to the end of the transaction, an insert that
  meets an uncommitted row with the same unique key waits for it.

| file | component |
|---|---|
| `Basics.dfy` | shared vocabulary |
| `CourtStrings.dfy` | court lists as text, integers as text |
| `CourtSelection.dfy` | greedy choice of courts to give back, and its optimality |
| `CourtCancellation.dfy` | two-phase cancellation with partial failures |
| `CourtChecks.dfy` | halfway check, reminder, final check: arithmetic, announcements, one check |
| `CourtRuns.dfy` | whole runs of the checks over list, booking records and platform |
| `LostAnswers.dfy` | a run in which the answer to a cancellation is lost |
| `VenuePreferences.dfy` | validation of a venue's preferred courts |
| `CourtFilter.dfy` | which free courts to try, in which order |
| `BookingCore.dfy` | booking with credential rotation |
| `BookedGames.dfy` | what a booking run leaves for the checks |
| `AutoBooking.dfy` | one booking per time slot |
| `CourtLists.dfy` | merging and editing a game's court list |
| `Ratings.dfy` | the rating update of one result, and replay of many |
| `ResultDecisions.dfy` | concurrent decisions with row locks |
| `GameResultService.dfy` | submitting, deciding, auto-approving, one call at a time |
| `EditWorker.dfy` | the coalescing message-edit worker |
| `GameNotifier.dfy` | message refresh under striped locks |
| `Checkout.dfy` | the checkout flow with its session, alone and interleaved |
| `Leaderboard.dfy` | the daily leaderboard with its marker |
| `UserRepo.dfy` | server owners, identities |
| `GuestRepo.dfy` | guests under an advisory lock |
| `AdminGroups.dfy` | the admin-groups cache |

## What turned out not to hold as promised

The model keeps the code as it is. Where a promise fails, a lemma names the exact condition.

- A preference list such as `7,07` passes validation but names one court twice
  (`PreferenceNamesCourtTwice`). A list that passes names different courts exactly when its entries
  still differ once plus signs and leading zeros are dropped (`DifferentCourtsIff`). The cancellation
  then selects a court twice exactly when a booked court stands twice in that list or two other
  bookings share a label (`SelectionDistinctForEveryQuota`), and the booking filter hands a court out
  twice exactly when the preferred numbers that apply are not distinct (`CourtsDistinctIff`).
- The checks keep players on their courts over every run in which no write of the shortened list and no
  answer to a cancellation is lost (`RunsNeverStrand`); each of the two losses is enough to break it.
  After a check that started from a right list the list is right again exactly when every booked court
  given back is one the check knows of and could take off (`FinishShowsIff`).
- When the shortened list cannot be stored, it shows too many courts (`LostWriteLeavesListStale`): from
  every ordinary game with a court to spare there is a run of a reminder with a lost write and a final
  check after which registered players have too few courts (`LostWriteRun`). A check of any kind is sure
  to leave enough exactly when nobody is registered or the courts it asks for are spare on the platform
  too (`StaleListIsSafeIff`): for a reminder or final check only if the list is right after all, while a
  halfway check bears a list that is too long by up to half its spare courts, rounded up
  (`StaleListByCheck`).
- A cancellation that is carried out but answered with an error, after a timeout or with an answer that
  cannot be read, leaves its court on the list and its record open. A later check can then give back the
  last court of registered players with every write kept (`LostAnswerRun`). Whatever the list shows, a
  check leaves enough exactly when the booked courts among those it gives back are spare
  (`CheckHoldsIff`).
- When the mark on the booking record of a court given back is lost, later checks go on trying that
  court (`LostMarkStaysOpen`). That frees nothing and takes nothing off the list
  (`GivingBackTwiceIsHarmless`), so players are still not stranded, but it uses up part of what the
  check asked for.
- A reminder in which everything succeeds and nobody is registered gives back all courts
  (`CourtRuns.FullCheckLeavesNeeded`) and stores a count of zero; a later check divides by that count
  (`Crashed` in `ProcessQuietCheck` and `ProcessCancellationReminder` is exactly this case).
- After a partly failed release the scenario is the one of a release in which no court went exactly when
  the head-count fills whole courts, and the advertised free places are right exactly when the release
  was complete (`AnnouncementTruth`). The reminder then sends the text of that scenario, which says that
  nothing was released; the final check sends its text about a release for every scenario it has no text
  of its own for.
- The comment beside the leaderboard's grace window says that fresh pending results keep their day
  open; they can be passed exactly when another result of the day is approved
  (`FreshPendingPassableIff`). On a given calendar day a day is posted again by some poll exactly when
  it lies in the look-back window and the marker does not cover it (`RepostPossibleIff`).
- A slot is booked again by a later pass exactly when the pass comes to it and nothing is on record for
  it, however many bookings of it there are (`PassBooksIff`).
- The comment on the admin-groups cache gives its time to live as the bound on staleness. What is served
  can be older by what the scan still took after asking about a group (`AdminGroupsFor`), the bound holds
  at all times exactly when every group was asked about at the moment the answer was stored
  (`StalenessBoundIff`), and a group lost longer ago than that can be served (`ServesGroupLostLongAgo`).
- Guests never fill a game past its capacity by themselves, but joins and court changes do not take
  their lock (`CommitOverfillsIff`, `JoinBesideAdditionOverfills`).
- A match record is attached to the booking of its own call in every interleaving in which requests take
  effect before their call gives up on them (`MatchAttachesToOwnBooking`); otherwise exactly when no
  reservation given up earlier took effect since the call's own (`AttachesToOwnIff`,
  `LateReservationMisattaches`).
- A court that no credential can book holds up all courts behind it, and every credential that reaches
  it is reported as failing (`UnbookableCourtBlocksTheRest`).
- The edit worker's comment speaks of at most two sequential calls; that is the bound once requests
  stop coming (`QuietRunsAtMostTwo`), while requests during runs can cause one run each
  (`RunsAtMostRequests`).

## Model

| member | source | states |
|---|---|---|
| CourtSelection.BuildConsecutiveGroups | cmd/management/service/court_cancellation.go:284-300 | the groups are the maximal runs of consecutive numbers of the input, in order, none empty |
| CourtSelection.RunsUnique | cmd/management/service/court_cancellation.go:284-300 | a list has only one cut into maximal runs |
| CourtSelection.FindBest | cmd/management/service/court_cancellation.go:254-272 | finds the shortest non-empty group, the earliest court on ties; fails only when all are empty |
| CourtSelection.SelectCourtsToCancel | cmd/management/service/court_cancellation.go:247-281 | selects min(n, length) courts by the greedy drain, as a sub-multiset of the input, and an optimal choice when the input is strictly increasing |
| CourtSelection.GreedyIsOptimal | cmd/management/service/court_cancellation.go:247-281 | for a strictly increasing list no other set of the same size leaves fewer blocks of neighbouring courts than the greedy drain |
| CourtSelection.PicksShape | cmd/management/service/court_cancellation.go:254-278 | at every point of the drain each run keeps a prefix, at most one run is partly consumed, and no run that lost a court is longer than another that still has one |
| CourtSelection.PicksConserve | cmd/management/service/court_cancellation.go:254-278 | selected courts and what is left of the runs together are the original courts |
| CourtSelection.KeepHasBlocks | cmd/management/service/court_cancellation.go:247-281 | any set of courts as large as what the drain leaves has at least as many blocks as runs are left |
| CourtSelection.DrainHasFewBlocks | cmd/management/service/court_cancellation.go:247-281 | what the drain leaves has at most one block per run it has not emptied |
| CourtSelection.SelectionUnique | cmd/management/service/court_cancellation.go:247-281 | the greedy selection is determined by the list and the quota |
| CourtStrings.AtoiItoa | cmd/management/service/court_cancellation.go:111-120 | printing a 64-bit integer and reading it back gives the integer |
| CourtStrings.ItoaInjective | cmd/management/service/court_cancellation.go:198-201 | two integers never print alike |
| CourtStrings.SplitCourts | cmd/management/service/court_cancellation.go:303-312 | yields the trimmed non-empty comma-separated parts, each of them a label |
| CourtStrings.TrimTakesEnds | cmd/management/service/court_cancellation.go:303-312 | trimming takes white space off both ends and nothing else |
| CourtStrings.JoinSplit | cmd/management/service/court_cancellation.go:303-312 | the parts of a list joined again are the list |
| CourtStrings.CourtListRoundTrip | cmd/management/service/court_cancellation.go:202-213 | a list of labels written back as text is read again as the same labels |
| CourtStrings.ParseCourtIDs | cmd/management/service/auto_booking.go:646-657 | yields the readable integers of the list in order and skips the rest |
| CourtStrings.CourtNumbersRoundTrip | cmd/management/service/auto_booking.go:646-657 | a list of integers written as a court list is parsed back as the same integers |
| VenuePreferences.ValidateAutoBookingCourts | cmd/management/service/venue_service.go:52-73 | accepts exactly the lists whose entries are integers and pairwise different texts |
| VenuePreferences.AcceptedNumbers | cmd/management/service/auto_booking.go:646-657 | an accepted list is read as one number per entry |
| VenuePreferences.SameNumberIff | cmd/management/service/venue_service.go:52-73 | two readable entries are one number if and only if they are the same text without plus sign and leading zeros |
| VenuePreferences.DifferentCourtsIff | cmd/management/service/venue_service.go:52-73 | an accepted list names different courts if and only if its entries differ even without plus signs and leading zeros |
| VenuePreferences.PlainSpellingSuffices | cmd/management/service/venue_service.go:52-73 | entries spelled the way numbers are printed always name different courts |
| VenuePreferences.PreferenceNamesCourtTwice | cmd/management/service/venue_service.go:52-73 | a concrete list that is accepted and names one court twice |
| CourtCancellation.SortInts | cmd/management/service/court_cancellation.go:109-121 | a sorted permutation of the labels |
| CourtCancellation.EntryByLabelSound | cmd/management/service/court_cancellation.go:109-120 | the booking found under a label is a stored booking of that very court |
| CourtCancellation.LastBookingSpeaks | cmd/management/service/court_cancellation.go:109-120 | of several bookings of one court the last is the one used |
| CourtCancellation.SelectByPriority | cmd/management/service/court_cancellation.go:123-132 | phase 1 takes the booked courts of the preference list from its end, up to the quota |
| CourtCancellation.SelectCourts | cmd/management/service/court_cancellation.go:123-147 | phase 1, then the greedy drain of the labels phase 1 left out for what is still missing |
| CourtCancellation.SelectionBounds | cmd/management/service/court_cancellation.go:123-147 | only booked labels are selected and never more than asked for |
| CourtCancellation.SelectionDistinctForEveryQuota | cmd/management/service/court_cancellation.go:109-147 | no court is selected twice, whatever the quota, if and only if no booked court stands twice in the preference list and no two other bookings share a label |
| CourtCancellation.DuplicatePreferenceSelectsTwice | cmd/management/service/court_cancellation.go:123-132 | with such a list the same court is selected twice |
| CourtCancellation.LeastPreferredFirst | cmd/management/service/court_cancellation.go:123-132 | of two preferred courts selected, the one later in the preference list comes first |
| CourtCancellation.FallbackIsOptimal | cmd/management/service/court_cancellation.go:134-147 | what phase 2 adds is an optimal choice among the courts phase 1 left |
| CourtCancellation.WithoutIsSubtraction | cmd/management/service/court_cancellation.go:196-211 | the rebuilt list is the old one minus the multiset of canceled labels |
| CourtCancellation.WithoutKeepsOrder | cmd/management/service/court_cancellation.go:196-211 | the rebuilt list keeps the order of the old one |
| CourtCancellation.RebuildCourts | cmd/management/service/court_cancellation.go:196-211 | drops one occurrence per canceled court, from the left, and keeps everything else |
| CourtCancellation.CancellationReminderJob.TryCancel | cmd/management/service/court_cancellation.go:152-184 | a booking is given back exactly when its account is known and the platform carries the cancellation out; it counts as canceled, and its record is marked, only when the platform also answers so |
| CourtCancellation.CancellationReminderJob.CancelEach | cmd/management/service/court_cancellation.go:149-188 | every selected court is tried, failures stop nothing, and canceled and failed add up |
| CourtCancellation.CancellationReminderJob.CancelUsingBookingEntries | cmd/management/service/court_cancellation.go:101-226 | the state after a run: matches given back, records marked, stored list and count, and the reported result |
| CourtCancellation.CancellationReminderJob.CancelUnusedCourts | cmd/management/service/court_cancellation.go:50-74 | nothing is done without a client or a request, and nothing without stored booking records |
| CourtCancellation.ReleaseGuarantee | cmd/management/service/court_cancellation.go:101-226 | after any mix of failures no more courts are given back than requested and no fewer than reported, and the stored list is the old one minus the reported labels, in order, with its length as count |
| CourtCancellation.RemainingListLaw | cmd/management/service/court_cancellation.go:196-213 | the shortened list as multiset, order and length, and its round trip through storage |
| CourtCancellation.PersistFailureLeavesListStale | cmd/management/service/court_cancellation.go:212-218 | a failed write leaves courts given back but still listed |
| CourtChecks.SurplusLeavesNeeded | cmd/management/service/final_court_check.go:111-118 | giving up the whole surplus leaves exactly the fewest courts that hold the players |
| CourtChecks.ReleaseNeverStrands | cmd/management/service/cancellation_reminder.go:113-122 | any part of the courts a check asks for can go without stranding the players it counted |
| CourtChecks.FullReleasesReachNeeded | cmd/management/service/halfway_court_check.go:162-170 | with a constant head-count full releases end at the courts needed, with or without the halfway check first, and then ask for nothing more |
| CourtChecks.AnnouncementTruth | cmd/management/service/cancellation_reminder.go:236-259 | after a complete release only the three release announcements occur; each announcement and the truth of the advertised places, as conditions on head-count and completeness |
| CourtChecks.ScenarioSays | cmd/management/service/cancellation_reminder.go:236-259 | which announcement is made, in terms of the courts left, the least number of courts that holds the players and whether courts were released, for releases and for checks that released nothing |
| CourtChecks.ScenarioUnique | cmd/management/service/cancellation_reminder.go:236-259 | no other announcement fits the same situation |
| CourtChecks.FreeSpotsFill | cmd/management/service/cancellation_reminder.go:156 | the advertised places are those that fill the last court |
| CourtChecks.RequestLeavesRight | cmd/management/service/halfway_court_check.go:162-170 | a request granted in part leaves room for the players, granted in full the least number of courts, or halfway to it |
| CourtChecks.CourtCheckJobs.CourtsToCancel | cmd/management/service/cancellation_reminder.go:114-122 | recovers the game's players per court, 2 where none are set, and asks for what leaves the least number of courts that holds the players, and after a halfway check the larger half of the others; for nothing when they are too many already |
| CourtChecks.CourtCheckJobs.ProcessQuietCheck | cmd/management/service/final_court_check.go:98-211 | the halfway and final checks: crash if and only if the court count is zero; by the game's own players per court, whatever fails there is room afterwards for the players counted if there was before, and when nothing fails the least number of courts that holds them is left, or after a halfway check also the larger half of the others; what is released, marked and announced in every case |
| CourtChecks.CourtCheckJobs.ProcessCancellationReminder | cmd/management/service/cancellation_reminder.go:100-197 | the reminder: the same, with an announcement every time, which gives head-count, courts left and the free places in the last court as they are, and the mark only after it went out |
| CourtChecks.StepShrinks | cmd/management/service/court_cancellation.go:50-226 | whatever fails, the stored list loses at most the courts asked for and its count stays its length |
| CourtChecks.FullRelease | cmd/management/service/court_cancellation.go:101-226 | a release without errors of courts that are those of the list takes exactly the courts asked for off it |
| CourtChecks.CheckLeavesRight | cmd/management/service/final_court_check.go:111-144 | what a check leaves after any failures, and after none |
| CourtChecks.CheckNeverStrands | cmd/management/service/final_court_check.go:111-144 | a check that saw no more players than the listed courts hold leaves listed courts for all of them under any partial failure |
| CourtChecks.StaleListIsSafeIff | cmd/management/service/court_cancellation.go:212-218 | with a list that shows too many courts, each kind of check is sure to leave room for the players it saw if and only if nobody is registered or the courts it asks for are spare on the platform too |
| CourtChecks.StaleListByCheck | cmd/management/service/halfway_court_check.go:162-170 | that means a right list for reminder and final check, and a list too long by at most half its spare courts, rounded up, for the halfway check |
| CourtRuns.FinishFrees | cmd/management/service/court_cancellation.go:149-218 | whatever fails, a check's release frees exactly the booked courts among those given back on the platform, answered or not, and no more than it asked for |
| CourtRuns.FinishShowsIff | cmd/management/service/court_cancellation.go:149-226 | a list that named exactly the booked courts does so after a check if and only if every booked court given back is one the check was told of and the list could be written |
| CourtRuns.CheckLeavesRoom | cmd/management/service/final_court_check.go:111-144 | from a right list a check leaves courts on the platform for the players it saw, whatever fails, lost writes and lost answers included |
| CourtRuns.CheckHoldsIff | cmd/management/service/final_court_check.go:111-144 | from any state a check leaves courts for a number of players if and only if the booked courts among those it gives back are spare |
| CourtRuns.RunsNeverStrand | cmd/management/service/court_cancellation.go:50-226 | over every run of checks with joins, leaves and any failures but a lost write of the list or a lost answer to a cancellation, the list keeps naming exactly the booked courts and these hold the smallest head-count a check went by |
| CourtRuns.FlawlessFinish | cmd/management/service/court_cancellation.go:101-226 | when nothing fails but perhaps the write of the list, as many courts go as asked for, or all, and the records stay true |
| CourtRuns.FullCheckLeavesNeeded | cmd/management/service/final_court_check.go:98-144 | when nothing fails a reminder or final check leaves the courts needed, none if and only if nobody is registered |
| CourtRuns.HalfwayThenFullCheck | cmd/management/service/halfway_court_check.go:162-170 | a full halfway release followed by a full later check of the reduced list and remaining records ends at the courts needed |
| CourtRuns.LostMarkStaysOpen | cmd/management/service/court_cancellation.go:172-184 | a court given back stays among the records later checks read if and only if its mark was lost |
| CourtRuns.GivingBackTwiceIsHarmless | cmd/management/service/court_cancellation.go:149-211 | giving such a court back once more frees nothing and takes nothing off the list |
| CourtRuns.LostWriteLeavesListStale | cmd/management/service/court_cancellation.go:212-218 | after a full release with a lost write the courts needed are left but the list still shows the courts there were |
| CourtRuns.StaleCheckStrandsIff | cmd/management/service/court_cancellation.go:212-218 | a check that goes by such a list and succeeds in all it tries leaves room for the players it saw if and only if nobody is registered or the courts it asks for are spare |
| CourtRuns.LostWriteRun | cmd/management/service/court_cancellation.go:212-218 | from every ordinary game with a court to spare there is a run of a reminder with a lost write and a final check that strands registered players |
| LostAnswers.LostAnswerRun | cmd/management/service/booking_client.go:155-185 | from every game of two players with three neighbouring courts there is a run of a reminder and a final check, with every write kept and one cancellation carried out but answered with an error, after which no court is left |
| LostAnswers.ThreeCourtsAreSound | cmd/management/service/court_cancellation.go:79-97 | such a game meets the assumptions of the runs |
| CourtRuns.BookedGameIsSound | cmd/management/service/court_cancellation.go:79-97 | a game whose list names the courts booked for it, each recorded once, meets all the assumptions of the runs |
| BookedGames.BookingLeavesSound | cmd/management/service/game_service.go:341-375 | the courts a booking run reports, merged into the list of a game without records, and the records the run saved meet the assumptions of the runs, provided UUIDs and matches differ and no court is handed out twice |
| BookedGames.SavedAreReported | cmd/management/service/booking_core.go:165-207 | records are saved only of courts reported, once per court |
| CourtFilter.ExtractCourtNumber | cmd/management/service/auto_booking.go:632-642 | the result is a positive 64-bit number or -1 |
| CourtFilter.CourtNumberRoundTrip | cmd/management/service/auto_booking.go:632-642 | a name whose last word is a positive number yields that number |
| CourtFilter.NumberOfName | cmd/management/service/auto_booking.go:632-642 | a court is known by the last word of its name if that reads as a positive number, and by no number otherwise |
| CourtFilter.EligibleIff | cmd/management/service/auto_booking.go:570-583 | a court may be tried if and only if its id is readable and not occupied and it has a UUID and a number |
| CourtFilter.PoolIff | cmd/management/service/auto_booking.go:570-596 | a number can be chosen if and only if a court of that number may be tried and it is one of the venue's own, or none of those may be tried |
| CourtFilter.FilterFreeCourts | cmd/management/service/auto_booking.go:566-628 | the courts handed out, in order, are those of the chosen numbers, each by the last eligible court of its number |
| CourtFilter.AllCourtsModeOnce | cmd/management/service/auto_booking.go:613-627 | when no preference applies every number of the pool is chosen exactly once |
| CourtFilter.ListedInOrder | cmd/management/service/auto_booking.go:613-627 | and in the platform's order, each at the first court of that number not stepped over |
| CourtFilter.KeptCounts | cmd/management/service/auto_booking.go:598-606 | in preferred mode each number in the pool keeps its multiplicity and the others drop out |
| CourtFilter.KeptInOrder | cmd/management/service/auto_booking.go:598-606 | and their order |
| CourtFilter.PreferenceIgnoredIff | cmd/management/service/auto_booking.go:598-611 | a preference is ignored if and only if none of it is in the pool |
| CourtFilter.NothingChosenIff | cmd/management/service/auto_booking.go:566-628 | nothing is handed out if and only if no court is eligible |
| CourtFilter.ChosenSound | cmd/management/service/auto_booking.go:590-596 | every court handed out is eligible, and the venue's own unless the venue has no free court |
| CourtFilter.FilterSound | cmd/management/service/auto_booking.go:570-583 | no occupied court and no court without UUID is handed out |
| CourtFilter.CourtsDistinctIff | cmd/management/service/auto_booking.go:566-628 | no court is handed out twice if and only if the preferred numbers that apply are distinct |
| BookingCore.BooksPrefix | cmd/management/service/booking_core.go:136-207 | for any answers the booked courts are a prefix of the candidates, no more than asked for |
| BookingCore.CredentialLimits | cmd/management/service/booking_core.go:136-207 | each credential books at most the courts it may and fails at most once, and has done one or the other when demand and courts are left over |
| BookingCore.RunInOrder | cmd/management/service/booking_core.go:136-207 | credentials in order, none after its failure, each attempt for the first court not booked yet |
| BookingCore.NoFailuresBookAll | cmd/management/service/booking_core.go:136-207 | without failures the number booked is the least of demand, courts and total room |
| BookingCore.UnbookableCourtBlocksTheRest | cmd/management/service/booking_core.go:147-164 | one court nobody can book keeps every court behind it from being tried and uses up every credential |
| BookingCore.TryBook | cmd/management/service/booking_core.go:147-197 | a booked court leaves the list and is labelled, and recorded with the match id and booking UUID of its own answer and the account that made it if there is a match id and the write works; a failed one goes back to the front and names the credential |
| BookingCore.BookWithRotation | cmd/management/service/booking_core.go:136-205 | labels, records and failures account for the attempts of the run, with the final failure exactly when demand and courts are left over |
| BookingCore.BookFreeCourts | cmd/management/service/booking_core.go:50-208 | which failures end the operation, what no credentials and no courts lead to, and the run that the look-ups determine; the result has one record for every attempt that was given a match id and could be saved, in order, with that attempt's court, match id, booking UUID and account, and the refusals of exactly the failed attempts, in order |
| BookingCore.ReportAccounts | cmd/management/service/booking_core.go:147-205 | every report of a run accounts for its attempts in that way |
| BookingCore.LabelsAreChosenNumbers | cmd/management/service/booking_core.go:122-170 | the labels reported are the numbers of the chosen courts, as far as the run came |
| BookingCore.BookedLabelsDistinct | cmd/management/service/booking_core.go:122-170 | those labels are distinct if and only if the chosen numbers are |
| BookingCore.ParseVenueCourts | cmd/management/service/booking_core.go:99-106 | the venue's set of court numbers is what its list parses to |
| AutoBooking.AutoBookingJob.ProcessTimeSlot | cmd/management/service/auto_booking.go:185-268 | booked courts are booked whether or not the record of it can be written |
| AutoBooking.AutoBookingJob.ProcessAutoBookingForVenue | cmd/management/service/auto_booking.go:126-178 | the pass over all slots, and when it counts as having booked something |
| AutoBooking.BookedOnceUnlessUnrecorded | cmd/management/service/auto_booking.go:151-169 | over any passes and failures a slot is booked again only while no earlier booking of it is on record |
| AutoBooking.PassBooksIff | cmd/management/service/auto_booking.go:126-178 | some pass over a venue books a slot if and only if the venue is set up for it, the slot is among its times, and nothing is on record for the slot |
| AutoBooking.PassBooksExactly | cmd/management/service/auto_booking.go:126-178 | a pass books a slot if and only if the venue is set up, nothing is on record for the slot, and for one of the times that name it the look-up works and courts are booked, whatever fails for other slots |
| CourtLists.MergeLabels | cmd/management/service/game_service.go:342-354 | the merged list is the old list followed by the booked labels it does not account for |
| CourtLists.MergeIsMaximum | cmd/management/service/game_service.go:341-353 | per label the merged list has the larger of the two multiplicities, and the old list stays in front |
| CourtLists.MergeIdempotent | cmd/management/service/game_service.go:341-353 | merging the same labels again changes nothing |
| CourtLists.MergeKeepsBookedOrder | cmd/management/service/game_service.go:341-353 | new labels join in booking order |
| CourtLists.RemovedLabels | cmd/management/service/game_service.go:471-483 | the labels given up are the multiset difference, in order |
| CourtLists.TrialsAreMinimum | cmd/management/service/game_service.go:490-509 | per label as many bookings are tried as there are, but no more than were given up |
| CourtLists.SettledSplit | cmd/management/service/game_service.go:505-544 | every booking tried is either canceled or reported |
| CourtLists.TrialsAre | cmd/management/service/game_service.go:490-509 | the bookings tried are bookings of the game, in stored order, each with its own answer |
| CourtLists.UsedUpForGood | cmd/management/service/game_service.go:490-509 | once the places given up of a label are used up no later booking of it is tried |
| CourtLists.SettledAre | cmd/management/service/game_service.go:510-543 | the labels canceled, failed and given back are, in order, those of the bookings tried whose account was known and whose cancellation was confirmed; of all the others; and of those whose cancellation was carried out |
| CourtLists.GameService.AddBookedCourts | cmd/management/service/game_service.go:341-358 | the stored list reads back as the merged list with its length as count, or is untouched when the write fails |
| CourtLists.GameService.TryCancel | cmd/management/service/game_service.go:510-543 | a booking is given back exactly when its account is known and the platform carries the cancellation out, and counts as canceled only when the platform also answers so |
| CourtLists.CanceledAreGivenBack | cmd/management/service/game_service.go:490-544 | per label, what counts as canceled is given back, and what is given back was tried |
| CourtLists.AllHeard | cmd/management/service/game_service.go:490-544 | what counts as canceled is all that is given back unless an answer was lost |
| CourtLists.GameService.CancelWithinQuota | cmd/management/service/game_service.go:490-544 | canceled and failed labels are those of the bookings tried within the quota |
| CourtLists.GameService.RemoveCourtsAndCancelBookings | cmd/management/service/game_service.go:462-550 | the requested list is stored whatever becomes of the cancellations; a failed look-up stores and cancels nothing |
| CourtLists.EditCancelsMinimum | cmd/management/service/game_service.go:468-543 | canceled and failed together, per label, are the smaller of the bookings found and the places given up |
| CourtLists.GrowingEditCancelsNothing | cmd/management/service/game_service.go:476-488 | an edit gives up nothing if and only if the new list contains the old one as a multiset |
| CourtLists.MergeThenRevert | cmd/management/service/game_service.go:341-483 | going back to the list before a merge gives up exactly what the merge added |
| Ratings.RatingTx.GetOrInitForUpdate | cmd/management/service/rating_service.go:249-292 | the row is locked, created with rating 1500, deviation 350, volatility 0.06 and no games if missing, and returned |
| Ratings.RatingTx.LoadBoth | cmd/management/service/rating_service.go:97-119 | both rows are locked in the given order before either value is used |
| Ratings.RatingTx.ApplyInTx | cmd/management/service/rating_service.go:86-194 | whoever submitted the result, the winner's row and ledger entry hold the rating for a win over the loser's current rating and the loser's that for a loss, after a draw both that for half a win; nobody else is touched, and the lower player's row is locked before the higher's |
| Ratings.ApplyRates | cmd/management/service/rating_service.go:116-187 | the same of the update as a function of the table |
| Ratings.ApplyConserves | cmd/management/service/rating_service.go:127-187 | one approval adds one game and one recorded delta to each of its players and leaves everybody else alone |
| Ratings.LedgerConservation | cmd/management/service/rating_service.go:127-187 | games are the approvals a player took part in and the rating is 1500 plus the recorded deltas |
| ResultDecisions.PublishIsApply | cmd/management/service/rating_service.go:86-194 | what a transaction commits from the values it read is the sequential update of the current table |
| ResultDecisions.CommitRates | cmd/management/service/rating_service.go:116-187 | a commit decides its result and rates winner and loser as they played, by the ratings committed so far |
| ResultDecisions.Serializable | cmd/management/service/game_result_service.go:322-342 | in every reachable state ratings and ledger are those of applying the committed results one at a time in commit order |
| ResultDecisions.ExactlyOnceLedger | cmd/management/service/auto_approve_results.go:92-109 | in every reachable state a player's games are the approved results involving the player, and the rating is 1500 plus the deltas |
| ResultDecisions.DecisionsAreFinal | cmd/management/storage/game_result_repo.go:79-92 | no step changes or withdraws a decision |
| ResultDecisions.DecidedByStep | cmd/management/storage/game_result_repo.go:64-92 | a pending result is decided by the commit of its approval and by a rejection or cancellation, as they say, and by no other step |
| ResultDecisions.DecisionsStay | cmd/management/storage/game_result_repo.go:64-92 | a decision, once committed, holds in every later state |
| ResultDecisions.DecidedByTheRightParty | cmd/management/service/game_result_service.go:262-295 | approvals and rejections are the opponent's, cancellations the author's, auto-approvals the scheduler's |
| ResultDecisions.ChainClimbs | cmd/management/service/rating_service.go:97-111 | along a chain of transactions waiting for each other's row locks the wanted rows climb in locking order |
| ResultDecisions.NoDeadlock | cmd/management/service/rating_service.go:97-111 | no reachable state has a cycle of transactions waiting for row locks |
| ResultDecisions.SomeTransactionProceeds | cmd/management/service/game_result_service.go:326-341 | while transactions are open one of them can take its next step |
| GameResultService.AcceptedIff | cmd/management/service/game_result_service.go:97-227 | a submission gets through if and only if two different players, both registered for a singles game in its window and neither opted out, and a valid score are named, and every answer came |
| GameResultService.RefusalHasCause | cmd/management/service/game_result_service.go:97-227 | every refusal names something that is wrong, an internal error only after a failed look-up or insert; that a player opted out is told only to somebody registered for the same open game |
| GameResultService.GameResultService.BothRegistered | cmd/management/service/game_result_service.go:156-176 | both players are among the registered participants |
| GameResultService.GameResultService.CheckPlayersAndScore | cmd/management/service/game_result_service.go:156-215 | the guards on both players and the score refuse in their order |
| GameResultService.GameResultService.Submit | cmd/management/service/game_result_service.go:85-227 | stores a pending result, or refuses with the first guard that fails and stores nothing; author and opponent differ in all stored results |
| GameResultService.GameResultService.CommitDecision | cmd/management/service/game_result_service.go:322-342 | a result already decided is never decided again and nothing changes; a pending one is decided whenever nothing fails; status and rating update are both kept or neither is, at whatever point it breaks off |
| GameResultService.GameResultService.Decide | cmd/management/service/game_result_service.go:262-316 | exactly when each refusal occurs, that refusals change nothing, that only the opponent approves or rejects and only the author cancels, and that nobody decides a result twice: with nothing failing the call succeeds if and only if the result is pending |
| GameResultService.GameResultService.RunAutoApprove | cmd/management/service/auto_approve_results.go:51-87 | the pass settles the listed results one by one, a failure does not stop the others |
| GameResultService.DecidedProgresses | cmd/management/service/game_result_service.go:322-342 | deciding a pending result changes no other decision and adds one ledger entry for either player if it approves, none otherwise |
| GameResultService.DecidedOnceRatedOnce | cmd/management/service/game_result_service.go:262-342 | over any sequence of submissions, decisions and passes a decision, once taken, stays as it is, and a result has one ledger entry for either player if it was approved with ratings kept, and none otherwise |
| GameResultService.PassDecides | cmd/management/service/auto_approve_results.go:51-109 | exactly the listed results whose own transaction went through are decided |
| GameResultService.PassLeavesOthers | cmd/management/service/auto_approve_results.go:51-109 | results not listed are as they were |
| GameResultService.CleanPassClears | cmd/management/storage/game_result_repo.go:94-107 | after a pass in which nothing fails no result older than the cutoff is pending |
| GameResultService.PassReplays | cmd/management/service/auto_approve_results.go:51-109 | after a pass ratings and ledger are the replay of the earlier approvals and then those of the pass, in the order of the list, each with its own weight |
| GameResultService.DecisionReplays | cmd/management/service/game_result_service.go:326-342 | a decision keeps ratings and ledger the replay of the approvals |
| EditWorker.GameEditWorker.Schedule | cmd/telegram/telegram/bot.go:199-208 | a call starts a goroutine exactly when none is running and leaves a mark otherwise |
| EditWorker.GameEditWorker.AfterRun | cmd/telegram/telegram/bot.go:210-221 | after a run the goroutine stops exactly when no mark was left |
| EditWorker.OneRunAtATime | cmd/telegram/telegram/bot.go:199-222 | in no interleaving do two runs execute at once |
| EditWorker.NoLostEdit | cmd/telegram/telegram/bot.go:199-222 | once no goroutine is left every request was followed by a complete run that started after it |
| EditWorker.EditStillOwed | cmd/telegram/telegram/bot.go:199-222 | at any time a request not served yet is still owed a run |
| EditWorker.RunsAtMostRequests | cmd/telegram/telegram/bot.go:187-189 | there are never more runs than requests |
| EditWorker.QuietRunsAtMostTwo | cmd/telegram/telegram/bot.go:187-189 | without new requests at most two more runs start |
| GameNotifier.NoStaleOverwrite | cmd/management/service/game_notifier.go:58-100 | what successive successful edits show never goes back in any table |
| GameNotifier.MessageCatchesUp | cmd/management/service/game_notifier.go:58-100 | once a successful edit was asked for after the last write the message shows the committed state |
| GameNotifier.OneEditorPerGame | cmd/management/service/game_notifier.go:58-66 | two edits of one game are never both between lock and unlock |
| GameNotifier.AnsweredEditorEdits | cmd/management/service/game_notifier.go:58-100 | an editor that has its lock and is answered without failure leaves an edit after five answers, whatever else goes on in between |
| GameNotifier.EditMadeIff | cmd/management/service/game_notifier.go:58-100 | an edit is on record if and only if the edit request itself was answered; a failure ends the call and gives its lock back |
| GameNotifier.EditorGetsLock | cmd/management/service/game_notifier.go:58-61 | a waiting call gets its lock if and only if no editor of the same stripe is between lock and unlock |
| GameNotifier.NeighboursDoNotShare | cmd/management/service/game_notifier.go:59 | the stripe is the id modulo 64, so games with neighbouring ids do not share a lock |
| Checkout.EversportsClient.Login | cmd/booking/eversports/client.go:119-195 | succeeds if and only if the answer is a 200 without a login error and the jar ends up with a session cookie |
| Checkout.EversportsClient.EnsureLoggedIn | cmd/booking/eversports/client.go:197-214 | a live session is used as it is, anything else logs in first and succeeds exactly when the login does |
| Checkout.EversportsClient.Attempt | cmd/booking/eversports/checkout.go:82-177 | ends as booked if and only if the reservation is answered with a decoded success and the payment with a 200 that is no HTML, and as unauthorized if and only if the reservation is refused for lack of a session; the requests made by how it ends, and the match id exactly as answered |
| Checkout.EversportsClient.CreateBooking | cmd/booking/eversports/checkout.go:76-191 | booked if and only if the last attempt's reservation was granted and its payment settled; a refused first reservation always leads to a login and, if that lets in, to a second attempt, and nothing else does; at most one reservation per call, none after it ended unauthorized |
| CheckoutInterleaving.MatchAttachesToOwnBooking | cmd/booking/eversports/checkout.go:76-163 | in every interleaving of calls in which no request takes effect after its call gave up on it, each match record attaches to its own booking |
| CheckoutInterleaving.AttachesToOwnIff | cmd/booking/eversports/checkout.go:76-163 | with such requests, a match record attaches to its own booking if and only if no reservation given up took effect since |
| CheckoutInterleaving.LateReservationMisattaches | cmd/booking/eversports/checkout.go:76-163 | a run of two calls in which the match of one booking is attached to another |
| CheckoutInterleaving.SomeCallGoesOn | cmd/booking/eversports/checkout.go:76-80 | while calls are open one of them can go on |
| Leaderboard.PostLeaderboardJob.GateClosed | cmd/management/service/post_leaderboard.go:147-157 | the gate is closed exactly while some game of the day started less than a day ago |
| Leaderboard.PostLeaderboardJob.Tally | cmd/management/service/post_leaderboard.go:126-138 | some result is approved, some pending result is fresh |
| Leaderboard.PostLeaderboardJob.ProcessCandidateDay | cmd/management/service/post_leaderboard.go:117-208 | a day is posted if and only if a result is approved, every game started 24 hours ago or the poll is forced, somebody is ranked and the message goes out; it is passed in silence if and only if no result is approved and those pending have been so for 49 hours or the poll is forced; the marker moves only with these two and a waiting day changes nothing |
| Leaderboard.PostLeaderboardJob.ProcessGroup | cmd/management/service/post_leaderboard.go:71-112 | a poll walks the days after the marker, within the window, up to the first that waits |
| Leaderboard.MarkerNeverMovesBack | cmd/management/service/post_leaderboard.go:71-112 | over any sequence of polls with failures the marker never moves back |
| Leaderboard.PostedOldestFirstOnce | cmd/management/service/post_leaderboard.go:71-208 | while marker writes succeed days are posted oldest first and none twice |
| Leaderboard.RepostPossibleIff | cmd/management/service/post_leaderboard.go:71-192 | some poll of a given calendar day posts a day once more if and only if the day is one of the last five and the marker does not cover it |
| Leaderboard.PostedRightly | cmd/management/service/post_leaderboard.go:71-192 | over any sequence of polls with failures every day posted was posted by a poll that had it among its last five days and found it fit to be posted; no unforced poll posts a day within 24 hours of one of its games |
| Leaderboard.PollPosts | cmd/management/service/post_leaderboard.go:71-192 | a poll posts every day past the marker, of the last five, that is fit to be posted and has no waiting day before it |
| Leaderboard.NoDayPassedUnsettled | cmd/management/service/post_leaderboard.go:71-208 | over any polls, the poll that moves the marker past a day was forced, or had the day outside its window, or posted the day itself, or found neither approved nor fresh pending results |
| Leaderboard.FreshPendingPassableIff | cmd/management/service/post_leaderboard.go:117-200 | some answers let a walk pass a day with a fresh pending result if and only if another result of the day is approved |
| Leaderboard.FreshPendingCanBePassed | cmd/management/service/post_leaderboard.go:140-200 | a day with a fresh pending result can be posted and passed |
| ServerOwners.UserRepo.SetServerOwner | cmd/management/storage/user_repo.go:249-295 | grants work for known users, revocations for every owner but the last, and each refusal changes nothing |
| ServerOwners.OwnersNeverVanish | cmd/management/storage/user_repo.go:249-295 | under any interleaving of grants and revocations, once there is an owner there always is one |
| ServerOwners.OwnersChangeOnlySo | cmd/management/storage/user_repo.go:249-295 | under any interleaving grants make owners and committed revocations unmake them, nothing else does either, and a revocation ends as carried out, as without an owner to revoke or as refused for the last owner exactly when that is so |
| ServerOwners.RefusedOnlyForSoleOwner | cmd/management/storage/user_repo.go:271-289 | a revocation is refused for want of another owner if and only if its target is the one owner |
| ServerOwners.SomeRevocationMoves | cmd/management/storage/user_repo.go:262-294 | while revocations are open one of them can take its next step |
| Identities.OneUserPerIdentity | cmd/management/storage/user_repo.go:51-75 | under any interleaving of first appearances users and identities correspond one to one and no call runs out of attempts |
| Identities.CallsAgree | cmd/management/storage/user_repo.go:89-145 | all calls that finish for one identity return the same, committed user |
| Identities.SomeCallMoves | cmd/management/storage/user_repo.go:51-75 | while calls are open one of them can take its next step without failing |
| Identities.CommitReturnsUser | cmd/management/storage/user_repo.go:89-145 | a commit ends its call with the user the identity has from then on, a new one if and only if the identity was new |
| Identities.IdentitiesStay | cmd/management/storage/user_repo.go:51-75 | a committed identity keeps its user |
| Identities.LoserFindsWinner | cmd/management/storage/user_repo.go:89-100 | a caller that lost the race finds the winner's identity when it starts over |
| GuestRepo.GuestsNeverOverfill | cmd/management/storage/guest_repo.go:25-68 | a game goes over its capacity by no more than joins and lost places account for, and not at all without them |
| GuestRepo.AdditionsConserved | cmd/management/storage/guest_repo.go:57-67 | every successful addition is one guest more |
| GuestRepo.CommitOverfillsIff | cmd/management/storage/guest_repo.go:43-67 | a commit overfills the game if and only if joins and lost places since its count used up the free places it found and those gained |
| GuestRepo.TurnedAwayIffFull | cmd/management/storage/guest_repo.go:43-67 | an addition is turned away if and only if it finds the game full, and otherwise can go on to insert its guest |
| GuestRepo.JoinBesideAdditionOverfills | cmd/management/storage/guest_repo.go:43-67 | from any state with one place left, a join between count and commit overfills the game |
| GuestRepo.SomeAdditionMoves | cmd/management/storage/guest_repo.go:36-40 | while additions are open one of them can take its next step |
| AdminGroups.AdminGroupsResolver.ScanGroups | cmd/management/service/admin_groups_resolver.go:79-100 | lists the groups whose answer names the account, and is partial exactly when a group could not be asked |
| AdminGroups.ListedIff | cmd/management/service/admin_groups_resolver.go:79-100 | a group is listed if and only if it could be asked about and its answer names the account |
| AdminGroups.ListedOnce | cmd/management/service/admin_groups_resolver.go:79-100 | a group known once is listed at most once |
| AdminGroups.AdminGroupsResolver.AdminGroupsFor | cmd/management/service/admin_groups_resolver.go:62-115 | a fresh cached answer is served as it is, only complete scans are cached, and what is served from the cache was accurate when asked about, less than the time to live plus the rest of the scan ago |
| AdminGroups.PartialAnswerIsSound | cmd/management/service/admin_groups_resolver.go:102-109 | a partial answer names no group the account did not administer when asked |
| AdminGroups.StalenessBoundIff | cmd/management/service/admin_groups_resolver.go:15-17 | in every valid state of the resolver the time to live bounds the age of a cached answer at all times it is served if and only if every group was asked about at the moment the answer was stored |
| AdminGroups.ServesGroupLostLongAgo | cmd/management/service/admin_groups_resolver.go:62-115 | two calls after which a group is served 300 seconds after it was lost and 301 seconds after it was asked about |

## Left out

- The Glicko-2 formula and the weight a score kind is given: parameters of the rating model.
- HTTP handlers, JSON, localisation, message texts, Telegram wizards and the callback router: plumbing. A failing Telegram send is taken to have no effect.
- Time zones and calendars: days are integers in the group's calendar, and a stored marker is taken to read back as the day it was written for.
- When the checks fire: the poll windows, the preventive-cancellation instant and the halfway job's wait for booking records.
- The connection pool, including the second connection on which a rating update writes its audit record: the deadlock result is about row locks only.
- The write that stores the approval message of a result, which takes the result's row lock for one statement.
- Edits of a group message by the bot process: the refresh results are about the edits of the management service.
- Booking records without a slot of their own: a check's entries are the game's own records without a cancellation mark; where the service falls back to all records of the venue's day these may be of other games.
- Overlapping checks of one game: each check runs alone between its head-count and its write, while joins and leaves interleave.
- Edits of the court list by hand between a check's read of the game and its write: the check overwrites them.
- Cancellations that take effect only after the attempt that sent them was over: one that is carried out at all is taken to be carried out during its attempt.
- Hash collisions between advisory lock keys: guests of one game and owner revocations are taken to have locks of their own.
- Profile columns of an identity and the display name made from them, and the seeding of owners from configuration, which only grants.
- The `withAuth` wrapper for the client's other operations: it has the same shape as the retry of the checkout.
- Score-string validation, the other venue validations and feature flags: their verdicts are inputs.
- The parsing of a preferred start time: a booking run begins with a parsed start time.
- Encryption of stored credentials, audit records and administrator notifications.
- Courts booked by hand in `BookGameCourts` before the list is written: the guards on game, venue and start time in front of the booking run.
- Merged singleflight look-ups of the admin groups: one scan at a time per user is modelled.
