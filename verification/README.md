# Verified model of the location-ranking backend

A Dafny model of the services that carry state or exact arithmetic: Vietnam calendar
time, check-ins with their memory lock and votes, AI search with its cache and pages,
blended ratings, the resumable importer, brand verification, image ingestion, tours and
brands, the city cache, unique names, accounts, and the two ward scripts.

Each service has a value-level part (tables as maps and sequences, one function per
request, lemmas over arbitrary runs) and, where the source changes rows step by step, a
class whose methods follow the source statement by statement and are proved equal to
that function. What a request stores, refuses and leaves alone is told apart from the
function that does it, by the lemmas whose names end in `Does` or `Spec`; what it keeps
over runs, by the others. A transaction is one atomic step with one clock reading; time is an
integer number of milliseconds that never goes back.

`dafny verify dfyconfig.toml` checks everything.

| file | contents |
|---|---|
| Prelude, Sequences, Text | options and results, order-preserving sequence operations, strings and decimals |
| Calendar | day numbers and civil dates as in section 21.4.1 of ECMA-262 |
| VnTime, SavedVenues | Vietnam day keys, the monthly reset, the monthly shortlist |
| CheckIns, CheckInsService | the check-in and vote machine; the services |
| AiSearch, AiSearchService | ranking, pages, cache; the services |
| Reviews, Importer | blended ratings; the crash-safe category import |
| Branding | email verification tokens; a brand's face on its owner's tours |
| VenueImages | pending and failed image addresses, with the background worker |
| Tours, TourServices | itineraries and providers copied onto tours; the services |
| Cities | the city list cache |
| UniqueNames, Accounts | unique slugs and handles; Google logins |
| SeedWards, BackfillWards | ward reconciliation; ward backfill |

## Where the code does not do what it seems to promise

Each point is a lemma or a contract, with the exact condition beside it.

- `nextMonthlyResetAt` is the next first-of-month midnight if and only if the Vietnam year
  is not 0 to 99, which `Date.UTC` reads as 1900 to 1999 (`VnTime.NextResetCorrect`).
- `isSameVnDay` tells days apart exactly up to year 9999; outside 0 to 9999 the ten
  characters of the key hold only year and month (`VnTime.SameKeyIff`,
  `VnTime.KeyCoarseAfter9999`).
- The comment on `remove` says a memory locks at thirty minutes; the code locks after
  more than thirty (`CheckIns.RemovableIff`). The model follows the code.
- Deleting an account (`src/modules/users/users.service.ts:325-337`) lets its rows cascade
  away and recomputes nothing. Upvotes keep the +1 votes that went: over every run a
  venue's upvotes minus its +1 votes grows by exactly those (`CheckIns.BasesConserved`),
  so it is constant in one deletion if and only if the user had upvoted nothing
  (`CheckIns.DeleteAccountKeepsBasesIff`). A venue's review count stays too high by the
  reviews lost, and while no refresh reaches it its figures are right if and only if none
  were since they were last recomputed (`Reviews.UnrefreshedKeepsIff`,
  `Reviews.AccountGoneIff`). A tour that loses its owner keeps the owner's face until
  something stamps it, unless it already showed what it should without one
  (`Tours.RunKeeps`, `Tours.AccountDeletedKeepsIff`).
- The refresh script (`src/database/piso-verify.ts:410-470`) replaces synthetic reviews and
  the provider's figures and counts nobody else: afterwards a venue's count is right if and
  only if no real account has reviewed it (`Reviews.RefreshCountIff`), and over runs it is
  off by exactly what `Reviews.RunKeeps` tracks. It also replaces the pictures and leaves
  their status, which is right afterwards if and only if there was none
  (`VenueImages.RefreshExactIff`).
- The tour seed script saves a brand and stamps only the tours it knows by title; the rest
  are right if and only if they already show it as seeded (`Tours.BrandSeededKeepsIff`).
- A brand's face on the tours its user owns is overwritten by requests on the catalogue,
  whoever owns the tour, and a change of role moves the tick without stamping. It stays
  current if and only if neither happens to it (`Branding.StepShowsIff`,
  `Branding.RunShowsIff`); taking an owned tour out of its catalogue brand is such a
  request (`Branding.ClearedBrandHidesFace`).
- The importer blends with the provider's rating before the column rounds it. It agrees
  with the review service on every venue with anything to count if and only if the rating
  has two decimals (`Reviews.ImportAgreesIff`, an instance in `Reviews.ImportDiffers`), and
  is never more than a hundredth off (`Reviews.ImportClose`).
- The reset script empties the tables ahead of an import and leaves the progress files;
  a run of that category then passes over every slug marked `saved` there
  (`Importer.ResetTruthfulIff`, `Importer.SavedMarkBlocks`).
- The cache key of a search without a city is the bare query, so one that spells the
  prefix of a city shares that city's entry (`AiSearch.PlainQueryCollides`); otherwise
  entries are shared exactly by equal city and query (`AiSearch.CityQueriesDiffer`).
- An account that a Google profile finds by email alone is lost to it when another login
  puts the Google id on a row without one or on a new row; `Accounts.LeadsStaysIff` says
  exactly which event takes an account away, `Accounts.GoogleIdMovesAway` shows one of each.
- The worker swaps only the first copy of an address, and reports failures for addresses
  that have been removed meanwhile; `VenueImages.FinishExactIff` says exactly which
  reports keep the status right, `VenueImages.RunExactIff` which runs do, and
  `VenueImages.TwiceListedIsForgotten` and `VenueImages.LateFailureLingers` are runs from
  creation with the two failures.
- The unique-name loops ignore soft-deleted rows, the unique index does not
  (`UniqueNames.NamedTable.Create`, `UniqueNames.DeletedNameBlocks`).
- The backfill query has no order, and nearest-neighbour ties go to the first row. A second
  run is idle in every order if and only if no venue that text leaves open has two nearest
  anchors, within fifteen kilometres, of different wards (`BackfillWards.SecondRunIdleIff`);
  two venues at one address in different wards are such a case
  (`BackfillWards.CoincidentAnchorsFlip`).

## Model

| member | source | states |
|---|---|---|
| Calendar.YearFromDay | src/common/utils/time.util.ts:26-27 | the year of a day number is the one whose first day is the last not after it, before and after 1970 |
| Calendar.YearUnique | src/common/utils/time.util.ts:26-27 | no other year brackets the day |
| Calendar.DayToCivilToDay | src/common/utils/time.util.ts:25-30 | taking a day number apart and putting it together again gives it back |
| Calendar.CivilToDayToCivil | src/common/utils/time.util.ts:25-30 | putting a valid civil date together and taking it apart gives it back, leap years included |
| Calendar.CivilCounts | src/common/utils/time.util.ts:10-13 | the arithmetic counts the days of the proleptic Gregorian calendar one by one from 1 January 1970 |
| Calendar.CivilOrder | src/common/utils/time.util.ts:10-13 | later day numbers are later dates |
| VnTime.VnDayKey | src/common/utils/time.util.ts:11-13 | a key exists exactly when the shifted instant is a valid Date |
| VnTime.SameKeyIff | src/common/utils/time.util.ts:16-18 | two keys are equal iff the Vietnam days are, or both years are outside 0 to 9999 and year and month agree |
| VnTime.KeyOrder | src/common/utils/time.util.ts:11-13 | up to year 9999 keys compare as strings in day order |
| VnTime.KeyCoarseAfter9999 | src/common/utils/time.util.ts:16-18 | 1 and 2 January 10000 count as the same day |
| VnTime.SameDayBetween | src/common/utils/time.util.ts:16-18 | an instant between two of one key has that key |
| VnTime.NextResetCorrect | src/common/utils/time.util.ts:25-32 | the reset is the least later first-of-month midnight in Vietnam iff the year is not remapped |
| VnTime.NextResetDefined | src/common/utils/time.util.ts:25-32 | exactly which instants have no valid reset |
| VnTime.ResetConstantInMonth | src/common/utils/time.util.ts:25-32 | all instants of a Vietnam month get the same reset |
| VnTime.ResetSpacing | src/common/utils/time.util.ts:25-32 | consecutive resets are the 28 to 31 days of the month between them apart |
| SavedVenues.ToldResetIsWhenTheListEmpties | src/modules/saved-venues/saved-venues.service.ts:26-29 | a row on the list now is still on it at an instant exactly when that is before the reset the client was told |
| SavedVenues.SavedVenuesService.Add | src/modules/saved-venues/saved-venues.service.ts:31-42 | one row per user and venue, the first date kept, unknown slugs refused |
| SavedVenues.SavedVenuesService.Remove | src/modules/saved-venues/saved-venues.service.ts:44-48 | exactly that row goes |
| SavedVenues.SavedVenuesService.AdvanceTo | src/modules/saved-venues/saved-venues.service.ts:50-66 | with the job firing at every month start on the way, the list is emptied exactly when a new month began, and only ever holds rows of the running month |
| CheckIns.CreateIff | src/modules/check-ins/check-ins.service.ts:79-98 | a check-in is possible iff the venue is live and no live check-in of the user there has today's key, although only the latest is compared |
| CheckIns.LatestUnique | src/modules/check-ins/check-ins.service.ts:90-93 | the latest live check-in is unique |
| CheckIns.StepKeeps | src/modules/check-ins/check-ins.service.ts:79-326 | every request keeps one check-in per user, venue and day, exact counters, backed votes, the stamp on every memory and one kind of place per row; each upvote base moves by the +1 vote a deleted account takes away there, and by nothing else |
| CheckIns.RunKeeps | src/modules/check-ins/check-ins.service.ts:79-326 | the tables stay consistent over every run under a non-decreasing clock, with new users and venues and account deletions |
| CheckIns.BasesConserved | src/modules/check-ins/check-ins.service.ts:299-324 | over every run a venue's upvotes minus its +1 votes grows by exactly the +1 votes of deleted accounts |
| CheckIns.DeleteAccountKeepsBasesIff | src/modules/users/users.service.ts:325-337 | deleting an account moves no upvote base iff the user has upvoted nothing |
| CheckIns.FreshDatabase | src/modules/check-ins/check-ins.service.ts:100-114 | empty tables with zero counters are consistent |
| CheckIns.StepEvolves | src/modules/check-ins/check-ins.service.ts:170-232 | a row survives a request, with its identity, stamp and lock respected, iff the request does not delete its owner's account |
| CheckIns.RunEvolves | src/modules/check-ins/check-ins.service.ts:170-232 | while its owner has an account no row is lost, identity never changes, the memory stamp is write-once, deleted rows stay as they are |
| CheckIns.LockedForever | src/modules/check-ins/check-ins.service.ts:199-222 | once more than thirty minutes old, a memory keeps comment, photos and friends and is never deleted, in every later run in which its owner has an account |
| CheckIns.WritableIff | src/modules/check-ins/check-ins.service.ts:181-225 | an update succeeds iff the row is live, the caller owns it, and it is privacy-only or not locked; privacy-only changes nothing else |
| CheckIns.RemovableIff | src/modules/check-ins/check-ins.service.ts:275-297 | a live check-in can be deleted iff the caller owns it and it is not locked; at exactly thirty minutes it still can |
| CheckIns.CastKeeps | src/modules/votes/votes.service.ts:22-74 | voting keeps votes backed by check-ins and upvotes in step with the +1 votes |
| CheckIns.CastDoes | src/modules/votes/votes.service.ts:22-74 | the vote asked for is given, or taken back when it stands already; upvotes follow it; other votes and venues stay; refused without a live check-in |
| CheckIns.RemoveKeeps | src/modules/check-ins/check-ins.service.ts:283-326 | deleting keeps all counters exact and drops the vote with the last check-in |
| CheckIns.CreateDoes | src/modules/check-ins/check-ins.service.ts:79-133 | what a check-in stores, with its defaults and stamp, one more on the counter and the journey entry; which refusal when |
| CheckIns.CreateCustomDoes | src/modules/check-ins/check-ins.service.ts:140-166 | the same at a place of one's own |
| CheckIns.UpdateDoes | src/modules/check-ins/check-ins.service.ts:170-232 | each part sent is stored, each left out stays, and when the row is stamped; which refusal when |
| CheckIns.RemoveDoes | src/modules/check-ins/check-ins.service.ts:283-326 | the row is marked, the counter falls, the vote goes with the last live row and stays with any other; which refusal when |
| CheckIns.LatestDoes | src/modules/check-ins/check-ins.service.ts:237-273 | requests by venue act on the latest live check-in there |
| CheckIns.DeleteAccountDoes | src/modules/users/users.service.ts:325-337 | the user's rows, votes, journey and counter go, everybody else's and all upvotes stay |
| CheckInsService.Services.BuildRow | src/modules/check-ins/check-ins.service.ts:100-112 | defaults of a new row, stamped when it carries a comment that is not blank or photos |
| CheckInsService.Services.Create | src/modules/check-ins/check-ins.service.ts:79-133 | the request as written is the Create step and keeps the tables consistent |
| CheckInsService.Services.CreateCustom | src/modules/check-ins/check-ins.service.ts:140-166 | the request is the CreateCustom step |
| CheckInsService.Services.UpdateMemory | src/modules/check-ins/check-ins.service.ts:170-232 | the request is the UpdateMemory step and returns the dropped photos in order |
| CheckInsService.Services.UpdateLatestMemory | src/modules/check-ins/check-ins.service.ts:237-273 | the step on the latest check-in at the venue, with the photos it dropped in order |
| CheckInsService.Services.Remove | src/modules/check-ins/check-ins.service.ts:283-326 | the request is the Remove step |
| CheckInsService.Services.RemoveLatest | src/modules/check-ins/check-ins.service.ts:246-257 | the step on the latest check-in, idempotent without one |
| CheckInsService.Services.Cast | src/modules/votes/votes.service.ts:22-74 | the request is the Cast step; it returns the vote asked for, or none when that stood, and stores it with its upvote |
| AiSearch.OrderedIsPermutation | src/modules/ai-search/ai-search.service.ts:129-155 | for any model answer the list before the cap is a permutation of the candidates, the offered picks first |
| AiSearch.PicksInOrder | src/modules/ai-search/ai-reranker.service.ts:193-203 | accepted picks stand in the order first named |
| AiSearch.TailInOrder | src/modules/ai-search/ai-search.service.ts:146-150 | the rest keep the filter order |
| AiSearch.OrderedIsRanked | src/modules/ai-search/ai-search.service.ts:129-155 | the offered picks in the order first named, then the rest in filter order, exactly when the reranker has something to say; else filter order |
| AiSearch.FreshSearchDoes | src/modules/ai-search/ai-search.service.ts:129-184 | a fresh answer shows, and the cache gets, the head of that order, as long as asked for and 120 at most, with its intro |
| AiSearch.ScopeDoes | src/modules/ai-search/ai-search.service.ts:82-100 | the cities a search is scoped to |
| AiSearch.RedirectIff | src/modules/ai-search/ai-search.service.ts:102-116 | which queries are sent to a city page |
| AiSearch.OtherAnswers | src/modules/ai-search/ai-search.service.ts:42-127 | blank, not understood, redirected and empty searches, none of them cached |
| AiSearch.HitIff | src/modules/ai-search/ai-cache.service.ts:50-77 | a query is answered from the cache, and page requests find something, exactly while the entry is not older than the lifetime |
| AiSearch.CityQueriesDiffer | src/modules/ai-search/ai-search.service.ts:53-58 | searches share an entry by their text iff city and trimmed query are the same |
| AiSearch.PlainQueryCollides | src/modules/ai-search/ai-search.service.ts:53-58 | a query without a city that spells the prefix shares a city's entry |
| AiSearch.HydrateIsPublishedPart | src/modules/ai-search/ai-search.service.ts:291-301 | hydration gives exactly the published ids, in order |
| AiSearch.HydrateOnlyPublished | src/modules/ai-search/ai-search.service.ts:291-301 | hydration gives the published, undeleted rows of the list and no others |
| AiSearch.PagesAddUp | src/modules/ai-search/ai-search.service.ts:186-206 | first page and consecutive pages concatenate to the hydrated prefix reached |
| AiSearch.BrowsingSeesTheWholeList | src/modules/ai-search/ai-search.service.ts:60-206 | a search, fresh or from the cache, and more() at consecutive offsets, any traffic in between, within the lifetime: together the published part of the stored list as far as the client got, at the end all of it, no venue twice |
| AiSearch.BrowsingSendsOnce | src/modules/ai-search/ai-search.service.ts:186-206 | however the catalogue changes between the pages, no venue is sent twice, only listed ones are, and one visible throughout is sent once by the end |
| AiSearch.BrowseIsPages | src/modules/ai-search/ai-search.service.ts:186-206 | through the cache and any traffic the requests read consecutive slices of the one list |
| AiSearch.RunListsOnce | src/modules/ai-search/ai-search.service.ts:145-171 | while searches are offered each candidate once, no list in the cache names a venue twice |
| AiSearch.EntryStays | src/modules/ai-search/ai-cache.service.ts:50-112 | while an entry lives no traffic replaces it |
| AiSearch.MoreReadsTheList | src/modules/ai-search/ai-search.service.ts:199-205 | within the lifetime, after any traffic, a page is cut from the list the search stored, over the catalogue as it is now |
| AiSearch.CacheHitRepeatsFresh | src/modules/ai-search/ai-search.service.ts:60-74 | within the lifetime, after any traffic, a hit repeats venues, intent, intro, total and id of the fresh answer |
| AiSearchService.SearchService.AcceptPicks | src/modules/ai-search/ai-reranker.service.ts:193-203 | the loop keeps offered picks, each once, in pick order |
| AiSearchService.SearchService.Search | src/modules/ai-search/ai-search.service.ts:38-184 | the request as written, through reranker and cache, gives the answer and the table of the Search function; lists in the cache stay free of repeats |
| AiSearchService.SearchService.More | src/modules/ai-search/ai-search.service.ts:186-206 | the request as written gives the page of the More function and only touches the entry |
| Reviews.BlendIsConsistent | src/modules/reviews/reviews.service.ts:120-136 | the blend is within half a hundredth of the count-weighted mean, inside 0 to 5, with the exact count |
| Reviews.UpsertStep | src/modules/reviews/reviews.service.ts:42-84 | one row per user; afterwards the venue is consistent whatever its figures were before, others untouched |
| Reviews.RemoveStep | src/modules/reviews/reviews.service.ts:86-110 | removing a row makes the venue consistent, others untouched; without one nothing changes |
| Reviews.RemoveDoes | src/modules/reviews/reviews.service.ts:86-110 | the row leaves, the others keep their order, and the count is one less than the rows before with the external ones |
| Reviews.UpsertDoes | src/modules/reviews/reviews.service.ts:42-84 | the stars and the text are stored over the row that is there, or at the end |
| Reviews.RefreshDoes | src/database/piso-verify.ts:410-470 | synthetic reviews are exchanged, the provider's figures recorded |
| Reviews.RunKeeps | src/modules/reviews/reviews.service.ts:42-110 | over every run, refreshes and deleted accounts included, a count is off by exactly the lost reviews less those a refresh passed over, since it was last put right, and then figures are right |
| Reviews.UnrefreshedKeepsIff | src/modules/reviews/reviews.service.ts:42-110 | while no refresh reaches a venue its external fields are fixed, and count and rating are right iff no review of a deleted account is missing |
| Reviews.RefreshCountIff | src/database/piso-verify.ts:410-470 | after a refresh the count is right iff no account that is not synthetic has reviewed the venue |
| Reviews.RefreshedConsistent | src/database/piso-verify.ts:410-470 | without such reviews and with two decimals a refresh gives what the service would |
| Reviews.AccountGoneIff | src/modules/users/users.service.ts:325-337 | deleting an account leaves all ratings right iff the user has reviewed no venue |
| Reviews.ImportClose | src/database/piso-import.ts:437-463 | for every provider rating the importer and the service are at most a hundredth apart, with equal counts, when there is anything to count |
| Reviews.ImportAgrees | src/database/piso-import.ts:437-463 | for two-decimal provider ratings the importer's blend equals the service's iff there is anything to count or the rating is zero |
| Reviews.ImportAgreesIff | src/database/piso-import.ts:437-463 | importer and service agree for all counts and storable reviews with anything to count iff the provider rating has two decimals |
| Reviews.ImportDiffers | src/database/piso-import.ts:437-463 | 4.375 with 123 provider reviews and one five-star review is such a case |
| Reviews.ReviewsService.Upsert | src/modules/reviews/reviews.service.ts:42-84 | the request is the upsert step and the review is there afterwards |
| Reviews.ReviewsService.Remove | src/modules/reviews/reviews.service.ts:86-110 | the request is the remove step and the review is gone afterwards |
| Importer.Collect | src/database/piso-import.ts:244-275 | the first acceptable result of each provider id, in the order of the searches, none of the ids lost |
| Importer.RunIsWhole | src/database/piso-import.ts:305-474 | a run killed after any write leaves the initial tables plus whole imports only, at most `count` |
| Importer.ImportedAtMostOnce | src/database/piso-import.ts:228-477 | after any sequence of killed runs slugs and provider ids are unique, soft-deleted rows included, and accounts review a venue once |
| Importer.LoopTruthful | src/database/piso-import.ts:302-476 | a `saved` mark is never there without its venue, wherever the run is killed |
| Importer.TurnDoes | src/database/piso-import.ts:305-473 | which mark a candidate gets: skipped only with its slug in the table or no page, failed exactly on an exception or a failing transaction; saved and skipped are passed over |
| Importer.RetriedUntilImported | src/database/piso-import.ts:302-476 | what failed or had too few pictures in earlier, possibly killed runs is imported by a later run left alone that has material for it, unless `count` was reached |
| Importer.ResumedRunFinishes | src/database/piso-import.ts:302-476 | after any killed runs, a run left alone imports `count` venues or has every candidate with material in the table whose slug was not marked skipped before and has no pageless candidate before it |
| Importer.RunImportsAsCollected | src/database/piso-import.ts:276-474 | what a run inserts was collected, is above both thresholds and new, and is there with slug, provider id, exactly its reviews and blend |
| Importer.PickedSpec | src/database/piso-import.ts:372-386 | the first review of each author, up to the limit |
| Importer.ReviewRowsSpec | src/database/piso-import.ts:437-454 | each row is what the first review of its account says |
| Importer.StarsSpec | src/database/piso-import.ts:441 | the nearest whole number of stars from one to five, five when missing |
| Importer.ResetTruthfulIff | src/database/reset-for-import.ts:60-75 | after the reset script the marks are truthful iff none says `saved` |
| Importer.SavedMarkBlocks | src/database/piso-import.ts:310-314 | a `saved` mark without its venue keeps the slug out of the table for a whole run of its category |
| Importer.CommitKeeps | src/database/piso-import.ts:405-465 | one transaction keeps all of that when slug and provider id are new |
| Importer.ReviewRowsFacts | src/database/piso-import.ts:437-454 | one review per account for the new venue, one to five stars |
| Importer.CommittedRatingAgrees | src/database/piso-import.ts:455-463 | the stored count is the one the review service would compute and the rating within a hundredth of it, equal for two-decimal provider ratings |
| Importer.Program.PickReviews | src/database/piso-import.ts:372-386 | one review per author, cut off once long enough |
| Importer.Program.MakeReviews | src/database/piso-import.ts:437-454 | the loop's rows, sum and number |
| Importer.Program.InsertVenue | src/database/piso-import.ts:405-465 | the transaction adds exactly the venue with its blend and its reviews |
| Importer.Program.ImportOne | src/database/piso-import.ts:305-473 | one turn of the loop as written, with the kill between commit and mark, does what TurnDoes says |
| Importer.Program.ImportCategory | src/database/piso-import.ts:302-476 | the resumable loop as written is the run of the lemmas above |
| Branding.RunKeeps | src/modules/branding/branding.service.ts:41-116 | in every run, account deletions and changes of role included, a verified brand has no outstanding token and a token mailed for its present email was presented within a day |
| Branding.NeverAgain | src/modules/branding/branding.service.ts:97-116 | retired and expired tokens are refused after every later run |
| Branding.WhatRetires | src/modules/branding/branding.service.ts:58-86 | acceptance, a newer mail, an email change and the account's deletion retire a token |
| Branding.AcceptedIff | src/modules/branding/branding.service.ts:97-116 | a token is accepted iff it was mailed, not retired, and its day is not over |
| Branding.UpdateDoes | src/modules/branding/branding.service.ts:41-71 | what an edit stores, when it ends the verification, and what the owner's tours show |
| Branding.SendDoes | src/modules/branding/branding.service.ts:73-95 | when a mail goes out; its token is good for a day to the instant, the one before no longer |
| Branding.PresentDoes | src/modules/branding/branding.service.ts:97-116 | an accepted token verifies exactly the user it was mailed to and is used up; any other changes nothing |
| Branding.DeleteDoes | src/modules/users/users.service.ts:325-337 | the user goes, the tours stay without an owner |
| Branding.PutShows | src/modules/branding/branding.service.ts:118-134 | a saved update and an accepted token put the brand's face on all its owner's tours |
| Branding.StepShowsIff | src/modules/tours/tour-management.service.ts:218-224 | a request leaves a current face current iff it writes no other provider on a tour of the named brand and moves no unearned tick |
| Branding.RunShowsIff | src/modules/branding/branding.service.ts:41-134 | over every run the face is current all along iff every request leaves it |
| Branding.ClearedBrandHidesFace | src/modules/tours/tour-management.service.ts:218-224 | clearing the catalogue brand of an owned tour leaves the owner and the site's face |
| Branding.BrandingService.Update | src/modules/branding/branding.service.ts:41-71 | the request is the update step with its stamping of the owner's tours, keeps the invariant, and leaves the present face on them |
| Branding.BrandingService.SendVerification | src/modules/branding/branding.service.ts:73-95 | the request is the send step and keeps the invariant; when a mail goes out |
| Branding.BrandingService.VerifyToken | src/modules/branding/branding.service.ts:97-116 | the request is the present step with its stamping; accepted, invalid or expired exactly when; keeps the invariant and the faces |
| VenueImages.ClassifyImages | src/modules/admin/admin-venues.service.ts:36-49 | kept addresses and the external ones among them, in order |
| VenueImages.CreatedExact | src/modules/admin/admin-venues.service.ts:209-223 | a new venue's status splits its external addresses |
| VenueImages.UpdatedExact | src/modules/admin/admin-venues.service.ts:259-275 | replacing the images keeps that, whatever the list |
| VenueImages.RetriedExact | src/modules/admin/admin-venues.service.ts:297-311 | so does retrying |
| VenueImages.RetriedDoes | src/modules/admin/admin-venues.service.ts:297-311 | what had failed waits behind what was waiting, in order and not twice; nothing is failed; the gallery stays |
| VenueImages.RetryStarts | src/modules/admin/admin-venues.service.ts:297-311 | after a retry an idle worker has an address to download |
| VenueImages.CreatedDoes | src/modules/admin/admin-venues.service.ts:209-223 | a new venue waits for all its external addresses |
| VenueImages.UpdatedDoes | src/modules/admin/admin-venues.service.ts:259-275 | what was waiting or had failed and is still listed stays so; new external addresses wait |
| VenueImages.FinishedDoes | src/modules/uploads/venue-image-rehost.queue.ts:132-159 | the address leaves the queue; a failure is listed once, a success replaces the first copy |
| VenueImages.CleanedSpec | src/modules/admin/admin-venues.service.ts:36-49 | the trimmed addresses that are not empty, in order |
| VenueImages.FinishExactIff | src/modules/uploads/venue-image-rehost.queue.ts:132-159 | a worker report keeps it exactly under the stated condition |
| VenueImages.RunExactIff | src/modules/uploads/venue-image-rehost.queue.ts:54-159 | over every interleaving, lost downloads and refreshes included, the status is exact all along iff every report and refresh is safe when it comes |
| VenueImages.RefreshExactIff | src/database/piso-verify.ts:447-467 | new pictures without a new status keep it right iff there was none |
| VenueImages.CarefulRunsAreSafe | src/modules/admin/admin-venues.service.ts:259-275 | all steps are safe when administrators list no external address twice, no failure comes in for an address removed meanwhile, and no venue is refreshed with anything pending or failed |
| VenueImages.TwiceListedIsForgotten | src/modules/uploads/venue-image-rehost.queue.ts:145-153 | a run from creation in which a second copy of an address is lost track of |
| VenueImages.LateFailureLingers | src/modules/uploads/venue-image-rehost.queue.ts:143-144 | a run from creation in which a late failure stays in the failed list |
| VenueImages.VenueRow.UpdateImages | src/modules/admin/admin-venues.service.ts:258-293 | the request as written keeps the status exact; when the worker is woken |
| VenueImages.VenueRow.RetryFailedImages | src/modules/admin/admin-venues.service.ts:297-311 | the request as written leaves nothing failed and everything of it waiting, and keeps the status exact |
| VenueImages.VenueRow.Advance | src/modules/uploads/venue-image-rehost.queue.ts:132-159 | the worker's write as written keeps the status exact iff its report is safe |
| Tours.ResolveOkIff | src/modules/tours/tour-management.service.ts:82-110 | an itinerary is accepted iff it has a stop, all cities exist and venues are live in their stop's city |
| Tours.ResolveExact | src/modules/tours/tour-management.service.ts:112-134 | city, distinct venues in stop order, and scope are what the stops say |
| Tours.ResolveError | src/modules/tours/tour-management.service.ts:82-110 | which error a refused itinerary gets: unknown city, first bad stop, empty |
| Tours.TourCreateDoes | src/modules/tours/tour-management.service.ts:145-186 | when a tour is created, with the stops asked for and the face of its brand or the site |
| Tours.TourUpdateDoes | src/modules/tours/tour-management.service.ts:203-252 | when a tour is edited; what is sent replaces, what is left out stays |
| Tours.BrandDoes | src/modules/admin/admin-brands.controller.ts:104-174 | editing, verifying, unverifying and removing a brand, each on all its tours and no others |
| Tours.RunKeeps | src/modules/admin/admin-brands.controller.ts:89-174 | over every run, a tour without owner shows its live brand or the site iff it is not left over from a deleted account or a seeded brand, and copied itinerary fields match the stops |
| Tours.NoneStale | src/modules/admin/admin-brands.controller.ts:89-174 | without account deletions and seeding there are no such leftovers |
| Tours.BrandSeededKeepsIff | src/database/seed-tours.ts:20-68 | seeding a brand leaves every provider right iff each ownerless tour of it already shows it as seeded |
| Tours.AccountDeletedKeepsIff | src/modules/users/users.service.ts:325-337 | deleting an account leaves every provider right iff each tour of the owner shows what it should without one |
| Tours.WipedExact | src/database/reset-for-import.ts:62-71 | the reset script clears stops and copied venue ids alike |
| Tours.RestampKeeps | src/modules/admin/admin-brands.controller.ts:210-224 | saving or removing a brand together with its tours' providers keeps that |
| TourServices.Services.ResolveItinerary | src/modules/tours/tour-management.service.ts:82-135 | the loop finds the first bad stop and the derived fields |
| TourServices.Services.Create | src/modules/tours/tour-management.service.ts:145-186 | the request is its step and keeps providers and itineraries as right as they were |
| TourServices.Services.Update | src/modules/tours/tour-management.service.ts:203-252 | the request is its step and keeps providers and itineraries as right as they were |
| TourServices.Services.UpdateBrand | src/modules/admin/admin-brands.controller.ts:104-127 | the request is its step and keeps providers and itineraries as right as they were |
| TourServices.Services.SetVerified | src/modules/admin/admin-brands.controller.ts:129-149 | the request is its step and keeps providers and itineraries as right as they were |
| TourServices.Services.RemoveBrand | src/modules/admin/admin-brands.controller.ts:155-174 | the request is its step and keeps providers and itineraries as right as they were |
| Cities.CountsPublished | src/modules/cities/cities.service.ts:27-40 | the number beside a city counts its published venues that are not deleted |
| Cities.CityServices.FindAll | src/modules/cities/cities.service.ts:22-43 | a reader gets what a recomputation would give, cached or not |
| Cities.CityServices.FindBySlug | src/modules/cities/cities.service.ts:45-60 | likewise for one city, or not found |
| Cities.CityServices.UpdateCity | src/modules/admin/admin-venues.service.ts:109-123 | the write keeps every cached entry current |
| Cities.CityServices.SaveVenue | src/modules/admin/admin-venues.service.ts:330-337 | a venue write with its invalidation keeps every cached entry current |
| Cities.CityServices.CreateVenue | src/modules/admin/admin-venues.service.ts:202-238 | likewise creating |
| Cities.CityServices.UpdateVenue | src/modules/admin/admin-venues.service.ts:288-328 | likewise editing in place and publishing |
| Cities.CityServices.DeleteVenue | src/modules/admin/admin-venues.service.ts:316-320 | likewise soft deletion |
| UniqueNames.UniqueName | src/modules/admin/admin-venues.service.ts:339-347 | at most one probe more than names taken, and the free candidate with the smallest suffix |
| UniqueNames.CandidateSpec | src/modules/auth/auth.service.ts:83-91 | the base, then with 2, 3 and so on |
| UniqueNames.FirstFreeUnique | src/modules/tours/tour-management.service.ts:331-339 | that candidate is unique and its number bounded by the names taken |
| UniqueNames.NamedTable.Create | src/modules/admin/admin-venues.service.ts:206-234 | creating fails iff a soft-deleted row holds the chosen name |
| UniqueNames.DeletedNameBlocks | src/modules/admin/admin-venues.service.ts:316-347 | create, delete and create again under one base ends in the unique index |
| Accounts.LeadsStaysIff | src/modules/auth/auth.service.ts:32-81 | exactly which login, deletion or change of email takes an account from a profile |
| Accounts.HistoryLeadsIff | src/modules/auth/auth.service.ts:32-81 | over a history a profile leads to its account all along iff no event takes it away |
| Accounts.LoginAgain | src/modules/auth/auth.service.ts:32-81 | after any history in which nothing took the account away, the same profile finds it again, creates none, and demotes nobody |
| Accounts.GoogleIdMovesAway | src/modules/auth/auth.service.ts:39-80 | a login that creates a row and one that takes over a row, after which the profile leads there |
| Accounts.AuthService.FindOrCreateGoogleUser | src/modules/auth/auth.service.ts:32-91 | which row is refreshed or created, with the first free handle; refused only by a unique index |
| Accounts.LoginDoes | src/modules/auth/auth.service.ts:32-81 | what a login leaves: Google id, email, avatar, free handle, and the administrator's role exactly when it was there or the email is listed |
| SeedWards.SecondRunIsIdle | src/database/seed-wards.ts:9-13 | a second run inserts and deletes nothing and changes no row |
| SeedWards.WardSeeder.RejectDuplicates | src/database/seed-wards.ts:41-53 | a file is refused iff it repeats a name, and one repeated is named |
| SeedWards.WardSeeder.ReconcileCity | src/database/seed-wards.ts:55-89 | the city's rows become the seed, field by field, survivors keep ids, other cities and exact counts |
| SeedWards.WardSeeder.SeedAll | src/database/seed-wards.ts:32-95 | with one file per city all end up as listed with survivors' ids, unlisted cities untouched, and the totals are the sums of the set differences; stopping at the first bad file |
| SeedWards.SecondSeedingIsIdle | src/database/seed-wards.ts:9-13 | the whole script run again inserts and deletes nothing and changes no row |
| BackfillWards.TallyAddsUp | src/database/backfill-venue-wards.ts:148-188 | resolved and unresolved are all rows, and the per-city columns add up to them |
| BackfillWards.TallyCounts | src/database/backfill-venue-wards.ts:148-188 | resolved, unresolved, changed and unchanged count exactly such rows |
| BackfillWards.CityCounts | src/database/backfill-venue-wards.ts:148-188 | and so do the columns of each city |
| BackfillWards.RowAfter | src/database/backfill-venue-wards.ts:102-188 | what an applying run leaves in a row: text, else a nearest neighbour within fifteen kilometres, else nothing |
| BackfillWards.AnchorsIff | src/database/backfill-venue-wards.ts:102-127 | the neighbours are the text-resolved venues of the same city with coordinates |
| BackfillWards.NothingChangedIff | src/database/backfill-venue-wards.ts:156-186 | zero changes reported iff every stored row is its decision |
| BackfillWards.SecondRunChangesNothing | src/database/backfill-venue-wards.ts:17-22 | a second run over the same order changes no row |
| BackfillWards.NearestIsFirst | src/modules/venues/ward-geo-resolver.ts:71-79 | of the nearest anchors the fold takes the first |
| BackfillWards.SecondRunIdleIff | src/database/backfill-venue-wards.ts:79-84 | a second run changes nothing in whatever order the rows come iff the nearest anchors within reach agree for every venue text leaves open |
| BackfillWards.CoincidentAnchorsFlip | src/modules/venues/ward-geo-resolver.ts:71-79 | two anchors at one address in different wards let a reordered run flip a row |
| BackfillWards.Backfill.ResolveByNearestAnchor | src/modules/venues/ward-geo-resolver.ts:61-87 | the loop with its radius is the fold |
| BackfillWards.Backfill.TextPass | src/database/backfill-venue-wards.ts:102-127 | text decisions, and per city exactly the anchors of its text-resolved venues with coordinates |
| BackfillWards.Backfill.GeoPass | src/database/backfill-venue-wards.ts:129-143 | the rest decided by anchors of the same city |
| BackfillWards.Backfill.CountRow | src/database/backfill-venue-wards.ts:148-187 | the counters of one row, and whether its columns flip |
| BackfillWards.Backfill.Run | src/database/backfill-venue-wards.ts:102-188 | the three passes compute the one-line decision; a dry run reports what applying would and writes nothing |

## Left out

- Transactions are atomic and read the clock once; a check-in whose transaction straddles Vietnam midnight, with the row stamped at its start, is not modelled.
- A null sent for comment, photos or visibility in a memory patch is not told apart from an absent one.
- Restoring soft-deleted rows: no request does it.
- The scripts that wipe all venues (reset-for-import.ts, reset-venues.ts) are steps of the tour machine and of the importer only; check-ins and reviews start over from empty tables after them.
- Filter retrieval, keyword search and the query parser of AI search are inputs; so is the reason string of a fallback answer.
- Normalising and hashing cache keys is an abstract function; claims about the cache are up to equal keys.
- Floating-point arithmetic: ratings are exact reals rounded to hundredths.
- The importer's searches, place details, uploads and the score that orders candidates are inputs, the order being any permutation; its dry run, its reviewer cache, skip and failure counters and partially written progress files are left out.
- Accounts: synthetic reviewers and Instagram links are left out; cleaning a handle is an input.
- Lower- and upper-casing are ASCII only.
- Whether an address is our own is an abstract predicate; unlinking files is left out.
- Tours.RunKeeps: what the branding service stamps on tours of an owner is an environment step there; the stamps themselves are in Branding, where requests on tours and catalogue brands are one.
- Saving a user or a brand and stamping its tours is one step; a failure between the two writes is left out.
- Slugs before the uniqueness suffix are inputs; deleting old stops and saving new ones is one step.
- The import, verify and seed scripts write cities and venues without touching the cache, so a cached city count can be out of date until its five minutes are over; they are not steps of the city cache.
- piso-verify.ts: which venues it keeps, refreshes or soft-deletes, and its change of provider ids, are left out; its write to reviews, figures and pictures is a step of Reviews and VenueImages.
- Seeded venues start with a rating and no reviews, and with pictures that have no status; Reviews and VenueImages start from venues whose fields agree.
- Cities.CityServices.FindAll: the alphabetical order of the list is not modelled, and moving a venue to another city is left out; slugs are taken to be non-empty, because for an empty one only the list is invalidated.
- BackfillWards.Backfill.Run: the text resolver and the distance are arbitrary deterministic functions; trigonometry and coordinates that are not finite are not modelled.
- Controllers, validation, roles, listing and sorting endpoints: no hard property.
