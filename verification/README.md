# A verified model of the planner and its helpers

SocialAuto plans, schedules and answers social-network posts. This Dafny project models its parts with the most state and branching, and proves what they keep over every input, every run or every interleaving:

- the in-memory relational store the test suite runs on (`Rows`, `Paging`, `Queries`, `Store`, `StoreSafety`, `StoreDates`, `StoreLegacy`, `StoreKeys`, `Grouping`, `Transactions`);
- the content planner's time logic: civil dates, ISO text, wall clocks, slots, local input, the timeline and the calendar with its optimistic moves (`CivilDates`, `IsoDates`, `Zones`, `Slots`, `LocalInput`, `Timeline`, `CalendarView`);
- the page translator that remembers originals (`Translator`);
- step protocols with failures: the composer's save and autosave (`Composer`), cross-posting (`CrossPosting`), the Telegram poll (`Polling`), the CSV import queue (`ImportQueue`), invitations and first workspaces (`Invitations`), the pricing cache (`PricingCache`);
- the hashtag scanner and printer (`Hashtags`).

`Lists`, `StableSorting` and `Text` hold the array, sorting and numeral facts the others use. Classes and loops follow code that changes state in place, each method proved against a function of the old state; pure code is functions and lemmas. An interleaving is any sequence of enabled steps; a request is one step that is accepted, refused, or carried out with its reply lost.

`dafny verify dfyconfig.toml` checks everything.

## What the proofs brought out

The model does what the code does, including where that is less than it promises. Each point is stated as an exact condition, or with the input that shows it.

- `create` checks unique keys before defaults are added, so a key completed by a default can be stored twice; an `{ increment }` on a key column passes the check on `update`; a rejected `createMany` keeps the rows before the clash.
- Keys are compared with `===`, so two `Date` objects of one instant do not clash. Read by instant, keys are kept by exactly the rows that fill no key holding a date, and by exactly the updates that leave no date beside what they write to a key.
- The hand-written checks of `lead`, `conversationMessage` and `leadDelivery` run in `create` only: `createMany` and `update` go round them.
- Rows are grouped by their key columns joined with `|`, so parts that contain `|` can fall into one group.
- A body that awaits a `$transaction` chained behind it, one of its own or anyone's, never ends and stops the chain; a body that awaits nothing but transactions before it never does.
- `monthGrid` shows the wrong month for the years 0 to 99. A day's ten-character text reads back as that day exactly in the years 0 to 9999 and on the first of a month outside them. `lib/content/time.ts` calls two passes enough for offset changes; they are exactly for wall times that exist.
- Two moves of one card that overlap end right, replies coming as the server performed them, exactly when the last reply accepts, or both refuse and come in reverse; otherwise the card can show a time that was never saved.
- A full translation pass goes into elements such as `PRE` and only leaves out text directly inside them; the pass over an added element leaves the whole element out. Text equal to the translator's own last output is taken for untouched.
- The composer keeps the version of its save when a later action moves the post on, so if another network failed and the form stays open, its next save is refused. A creation whose reply is lost is repeated as a second post. A trigger campaign chosen in place of an automation is parked on the post beside it, and the post still shows the automation. `EMPTY_CROSS` is written to through `useRef(EMPTY_CROSS)`, so a second new post on the page can send no targets and report no problem. A target whose reply was lost is not taken back when the user takes it back.
- `appendHashtags` is idempotent for tags made of word characters, but not for every list: exactly for those whose every tag is read back, or has the lower case of one that is.
- Restarting the poll script hands over again what had been handled since the last request that arrived.
- The import builder can save a row twice when a reply is lost, the page is used after its last row, or the storage refused a write before a reload.
- With two earliest memberships of one instant, logins may return different workspaces; with one earliest they never do. Accepting an invitation overwrites an existing role, the owner's too.
- On a day when clocks are set back over midnight the timeline can list posts out of posting order.
- A load of pricing plans that overlaps an edit puts the old list back after the cache was cleared, and later reads are served it.

## Model

| member | source | states |
|---|---|---|
| Rows.CompareFlipsIff | __tests__/helpers/memory-db.ts:693-695 | comparing a pair of present values, objects by their text, the other way round gives the opposite sign exactly when the pair is comparable |
| Rows.ComparablePairsMayCycle | __tests__/helpers/memory-db.ts:693-695 | comparable pairs of mixed kinds can still go round in a circle |
| Rows.CompareRowsIsOrder | __tests__/helpers/memory-db.ts:678-699 | on columns of one kind each, comparing rows by any list of fields, directions and null placements is total and transitive |
| Rows.OrderByIsTotalPreorder | __tests__/helpers/memory-db.ts:678-699 | the order `orderBy` sorts by is a total preorder on the rows |
| Rows.CompareRowsMeans | __tests__/helpers/memory-db.ts:680-697 | the comparator puts a row before another exactly when, on the first field on which they are not level, it is ahead: absent values at the end asked for, present ones rising or falling |
| Queries.FindIsStableSort | __tests__/helpers/memory-db.ts:711-722 | an ordered query is the stable sort of the matching rows, and the only one |
| Queries.FindMeans | __tests__/helpers/memory-db.ts:711-722 | whatever is asked for: the matching rows in table order, or arranged on their columns with level rows left as they stood, and of that list the window the cursor, skip and take cut |
| Queries.OneFieldRisesOrFalls | __tests__/helpers/memory-db.ts:680-697 | ordered by one field, present values never fall under asc nor rise under desc, and absent ones stand together at the end asked for or the direction says |
| Queries.CursorFindsLevelIds | __tests__/helpers/memory-db.ts:616-619 | a cursor made from a row finds the rows whose id is the same value, both absent or one instant; without an id, every row |
| Paging.PagesAreSlices | __tests__/helpers/memory-db.ts:714-720 | page k, fetched with cursor = last row and skip 1, is the k-th slice of the list |
| Paging.PagingIsExactIff | __tests__/helpers/memory-db.ts:714-720 | every page of every size is exact if and only if no two rows answer to one cursor |
| Paging.PagesAreComplete | __tests__/helpers/memory-db.ts:714-720 | the pages joined are the list, each row once and in order, and then a page is empty |
| Paging.WindowMeans | __tests__/helpers/memory-db.ts:714-720 | a window opens `skip` rows after the first row the cursor finds, holds as many rows as asked for, and is empty for a lost cursor |
| Queries.PagingOverTable | __tests__/helpers/memory-db.ts:711-722 | paging a filtered, ordered table by id returns each matching row once, in order, and stops |
| Store.FirstClash | __tests__/helpers/memory-db.ts:744-750 | there is no clash exactly when no stored row agrees with the new one on a fully present key |
| Store.FirstTaken | __tests__/helpers/memory-db.ts:802-808 | there is no taken key exactly when no other row agrees with the patched row on a key |
| Store.SeedMeans | __tests__/helpers/memory-db.ts:582-586 | column by column what a completed row holds, and that nothing else moves but the counters |
| Store.CreateMeans | __tests__/helpers/memory-db.ts:736-751 | a row is refused exactly when the model's own check or a key stands against a stored row; nothing but the log moves then, and otherwise the completed row is added |
| Store.BatchMeans | __tests__/helpers/memory-db.ts:760-772 | a batch deals with its rows in order: each is stored, or shares a key and is passed over, or ends the batch; the count is of the rows added |
| Store.UpdateMeans | __tests__/helpers/memory-db.ts:723-733 | the first match is patched column by column, increments counting on from the old number, unless there is none or another row has its new key; no other row moves |
| Store.DeleteMeans | __tests__/helpers/memory-db.ts:825-834 | `delete` takes out the first match and no other row |
| Store.DeleteManyMeans | __tests__/helpers/memory-db.ts:830-834 | `deleteMany` takes out exactly the matches, the rest keeping their order |
| Store.MemoryDb.SeedRow | __tests__/helpers/memory-db.ts:582-586 | the row is completed by defaults, id and stamps, each column said, and appended; other tables stay |
| Store.MemoryDb.CreateRow | __tests__/helpers/memory-db.ts:736-759 | refused exactly on a clash, and then every table is as it was; otherwise exactly the completed row is added |
| Store.MemoryDb.CreateRows | __tests__/helpers/memory-db.ts:760-772 | the batch loop, with and without skipDuplicates: which rows are stored, in which state each is looked at, and the count |
| Store.MemoryDb.CheckTaken | __tests__/helpers/memory-db.ts:801-808 | the loop over the keys finds the first one taken |
| Store.MemoryDb.UpdateRow | __tests__/helpers/memory-db.ts:797-811 | the first match is replaced by the patched row, each column said, unless it is missing or a key is taken; all other rows stay |
| Store.MemoryDb.WindowOf | __tests__/helpers/memory-db.ts:715-720 | cursor, skip and take cut the window: from the first hit on, past `skip` rows, at most `take` |
| Store.MemoryDb.FindRows | __tests__/helpers/memory-db.ts:711-722 | for every filter, order on columns of one kind, cursor, skip and take: the rows returned and their order |
| Store.MemoryDb.DeleteRow | __tests__/helpers/memory-db.ts:825-829 | when some row matches, the first match is returned and the table is the rows before and after it; when none does, nothing changes; other tables, log and counters stay |
| Store.MemoryDb.DeleteRows | __tests__/helpers/memory-db.ts:830-834 | the rows left are exactly those not matching, in order, and the count is of those gone; other tables, log and counters stay |
| StoreSafety.CreateKeepsUniqueIff | __tests__/helpers/memory-db.ts:736-751 | `create` keeps the keys of every table intact exactly for rows that leave no key to be completed by a default |
| StoreSafety.CreateAppends | __tests__/helpers/memory-db.ts:744-751 | a row without a clash is added at the end, completed |
| StoreSafety.RejectedBatchKeepsPrefix | __tests__/helpers/memory-db.ts:760-772 | a rejected batch stores exactly the rows before the clash, none exactly when the first one clashes |
| StoreSafety.SkippingBatchCounts | __tests__/helpers/memory-db.ts:766-771 | with skipDuplicates nothing is rejected and the count is the number of rows added |
| StoreSafety.UpdateKeepsUniqueIff | __tests__/helpers/memory-db.ts:723-733 | an update keeps the keys of every table exactly when each key it increments a column of is nulled by it too |
| StoreSafety.EveryReachableStateIsUnique | __tests__/helpers/memory-db.ts:736-834 | after any run of safe creates, batches, updates and deletes from the empty store no two rows of a model share a fully present key, values being compared as the code compares them |
| StoreSafety.PagingInEveryReachableState | __tests__/helpers/memory-db.ts:555-557 | ids made by the store stay different, so paging is exact in every state a run reaches |
| StoreSafety.UnsafeRowStoredTwice | __tests__/helpers/memory-db.ts:744-751 | a row whose key is completed by a default can be created twice |
| StoreSafety.DefaultedKeyIsDuplicated | __tests__/helpers/memory-db.ts:288-363 | two conversion events of one deal left to the default name are both stored |
| StoreSafety.EqualDatesDoNotClash | __tests__/helpers/memory-db.ts:747 | two reports of one account and equal week starts are both stored: the input behind the next three rows |
| StoreDates.CreateKeepsUniqueAtIff | __tests__/helpers/memory-db.ts:736-751 | `create` keeps the keys of every table, dates being their instants, exactly for rows that leave no key to a default and fill no key that holds a date |
| StoreDates.UpdateKeepsUniqueAtIff | __tests__/helpers/memory-db.ts:797-811 | an update keeps them exactly when it increments no key it does not null, and each key it writes to is nulled or has all its date columns written with other values |
| StoreDates.EveryReachableStateIsUniqueAt | __tests__/helpers/memory-db.ts:736-834 | after any run of calls safe in this sense no two rows share a fully present key, dates being their instants |
| StoreLegacy.CreateKeepsNoneCollidingIff | __tests__/helpers/memory-db.ts:741-751 | for the three models with their own check, `create` keeps the rows of every table from colliding exactly when defaults complete nothing the check compares |
| StoreLegacy.PlainDefaultsAreSpelled | __tests__/helpers/memory-db.ts:366-375 | they do not, for defaults that leave those columns alone or make a delivery's kind "new" |
| StoreLegacy.CreatesAloneKeepLegacyKeys | __tests__/helpers/memory-db.ts:741-759 | over any run that only creates and deletes rows of these models no two collide |
| StoreLegacy.CreateManyGoesRound | __tests__/helpers/memory-db.ts:760-772 | a batch stores two leads of one key, the second of which `create` refuses |
| StoreLegacy.UpdateGoesRound | __tests__/helpers/memory-db.ts:797-811 | an update gives a lead the key of another |
| StoreKeys.RealKeysAreWellFormed | __tests__/helpers/memory-db.ts:288-363 | every entry of the key table meets what the results on keys ask: no key part of another, none with the stamped column |
| StoreKeys.EveryRunOfTheStoreIsUnique | __tests__/helpers/memory-db.ts:288-363 | so with the store's own keys every run of safe calls from the empty store keeps them all |
| Grouping.GroupBy | __tests__/helpers/memory-db.ts:836-845 | as grouping columns show no separator: one group for each row that no earlier row is like on those columns, in that order, with that row's columns and the count and sums of the rows like it; as many groups as tuples |
| Grouping.GroupsMeanColumns | __tests__/helpers/memory-db.ts:836-845 | the same of the specification the other results on groups speak of |
| Grouping.EachRowInOneGroup | __tests__/helpers/memory-db.ts:836-845 | every row is counted in exactly one group, the one whose columns equal its own, an absent value counting as the empty text |
| Grouping.GroupsConserve | __tests__/helpers/memory-db.ts:836-875 | the groups' sums add up to `aggregate` and their counts to `count`, for one filter |
| Grouping.OrderedGroupsConserve | __tests__/helpers/memory-db.ts:846-870 | ordering the groups changes neither total |
| Grouping.GroupsAreFaithful | __tests__/helpers/memory-db.ts:838-844 | for any values: group keys differ, every row has a group, and each group's columns, sums and count are those of exactly the rows of its key |
| Grouping.KeyTextIsFaithfulIff | __tests__/helpers/memory-db.ts:839 | no other parts give the same key text exactly when no part contains the separator |
| Grouping.SameGroupIff | __tests__/helpers/memory-db.ts:839 | rows without the separator have one key exactly when their key parts are equal |
| Grouping.SameKeyIff | __tests__/helpers/memory-db.ts:839 | and these exactly when their grouping columns are alike: equal texts, absent or empty ones, or other values that show alike |
| Transactions.TransactionsAreSerial | __tests__/helpers/memory-db.ts:886-895 | in every state of every run from a fresh store at most one body is running, and bodies have started in submission order |
| Transactions.WorkIsFinite | __tests__/helpers/memory-db.ts:890-891 | each start or end of a body, by return or throw, uses up one step of finite work |
| Transactions.CanGoOnIff | __tests__/helpers/memory-db.ts:890-891 | some body can start or end exactly when something is not over and no body awaits itself or one behind it |
| Transactions.NestedTransactionDeadlocks | __tests__/helpers/memory-db.ts:886-895 | a body awaiting itself or one behind it never ends, and nothing starts again |
| Transactions.StuckIff | __tests__/helpers/memory-db.ts:886-895 | a run ends stuck for good exactly when some body has come to await itself or one behind it, submitted by whomever and whenever |
| CivilDates.DayRoundTrip | components/content/timeline.ts:81-83 | day number to year, month and day and back is the identity |
| CivilDates.CivilRoundTrip | components/content/timeline.ts:81-83 | so is the other way, on real dates |
| CivilDates.DayOrder | components/content/timeline.ts:73-83 | days count in calendar order |
| CivilDates.MonthsFollow | components/content/timeline.ts:81-83 | from day 0 on each month has its Gregorian length, and the dates there are follow one another |
| CivilDates.MondayIsZero | components/content/timeline.ts:87-89 | the 5th of January 1970 is weekday 0, the next day is one further round, and 0 comes every seventh day and on no other |
| CivilDates.WeeksPartition | components/content/shared.ts:476-481 | a week starts on a Monday and holds its day, and two days share a week exactly when either is in the other's |
| CivilDates.GridIsWeeks | components/content/shared.ts:468-473 | the month grid is six Monday-first weeks in a row |
| CivilDates.GridHoldsMonthIff | components/content/shared.ts:468-473 | the grid shows every day of the month asked for exactly when the year is not 0 to 99 |
| IsoDates.IsoRoundTripIff | components/content/timeline.ts:76-82 | a day prints as a text that reads back as it exactly in the years 0 to 9999 and on the first of a month |
| IsoDates.PlainText | components/content/timeline.ts:76 | in the years 0 to 9999 the text is YYYY-MM-DD with the numbers of the civil date |
| IsoDates.LeftOutIsFirst | components/content/timeline.ts:75 | a month or day left out of a date text is the first |
| IsoDates.ParseRoundTripIff | components/content/timeline.ts:82 | a text that reads as a day is printed again exactly when it has ten characters and no needless sign |
| IsoDates.IsoOrder | components/content/timeline.ts:69 | plain dates sort as texts exactly as their days do |
| IsoDates.AddDaysIff | components/content/timeline.ts:81-83 | adding days gives a text that reads as the day that far away exactly when that day is one that reads back |
| IsoDates.FirstsOutliveFourDigits | components/content/timeline.ts:81-83 | one day after 9999-12-31 still reads, two days after it do not |
| IsoDates.AddDaysComposes | components/content/timeline.ts:81-83 | adding twice is adding the sum, and adding back returns the text exactly when it was in printed form |
| IsoDates.DateRange | components/content/timeline.ts:73-79 | the loop lists the days from the first bound to the second, none when a bound does not read |
| IsoDates.RangeIsConsecutive | components/content/timeline.ts:73-79 | position i of the range reads as the first day plus i exactly when that day reads back |
| IsoDates.RangeOfPlainDates | components/content/timeline.ts:73-79 | between four-digit years the range has the empty run plus two dates, one day apart, both bounds among them |
| Zones.TwoPassesSufficeIff | lib/content/time.ts:44-52 | where offsets are under a day and change at most once within a day of the wall time, two passes find an instant showing it exactly when there is one |
| Zones.UnambiguousRoundTrip | lib/content/time.ts:44-59 | there an instant comes back from its wall time whenever no other instant within a day shows it |
| Zones.ShownIff | lib/content/time.ts:44-59 | where offsets are also whole minutes, a wall time is shown by the instant computed for it exactly when it exists |
| Zones.FixedRoundTrip | lib/content/time.ts:44-59 | with one whole-minute offset the conversions undo each other to the minute |
| Slots.NextOccurrence | components/content/shared.ts:565-575 | the search never falls through, and returns the first day of that weekday at least five minutes ahead, in any zone |
| Slots.OnlyOccurrenceOfTheWeek | components/content/shared.ts:565-575 | it is the one occurrence of weekday and hour in the week that starts five minutes from now |
| Slots.DefaultSlotIsSoon | components/content/shared.ts:187-193 | the picker opens at 19:00 of a future day clicked, else between 30 and 35 minutes ahead on a five-minute boundary; always at least 30 minutes ahead |
| Slots.DropLandsIff | components/content/shared.ts:501-506 | a dropped card is shown in its cell, keeps its time of day or minutes (19:00 or the full hour without one), and dropping again changes nothing, exactly when the wall time exists |
| Slots.DropLandsInFixedZone | components/content/shared.ts:501-506 | with a constant offset every drop lands |
| LocalInput.LocalInputRoundTripIff | components/content/shared.ts:509-518 | an instant comes back from its input text, to the minute, exactly when its year has four digits |
| LocalInput.InputTextRoundTrip | components/content/shared.ts:509-518 | a complete text with a real date and time comes back from its instant |
| LocalInput.TrailingTextIsIgnored | components/content/shared.ts:515-518 | what follows the minutes does not count |
| LocalInput.UtcDayCarries | lib/content/time.ts:44-47 | months past the twelfth and days past the last carry over |
| Timeline.AddToDays | components/content/timeline.ts:50-68 | one round of the loop: the card comes last in the day the wall clock shows for its instant, in an entry that ends at its minute; other days stay |
| Timeline.BuildTimeline | components/content/timeline.ts:43-70 | every dated post stands once, under the day its instant has on the wall, entries and series with the minutes of their posts, in order of instant and series index, folded as far as can be, and counted by type |
| Timeline.TimelineShowsPosts | components/content/timeline.ts:43-70 | the same of any timeline the following results speak of |
| Timeline.TimelineIsPostingOrderIff | components/content/timeline.ts:43-70 | in any zone, unfolding the timeline gives the dated posts stably sorted by instant and series index exactly when their wall dates never go back in that order |
| Timeline.TimelineIsPostingOrder | components/content/timeline.ts:43-70 | with one offset it always does: nothing lost, doubled or moved |
| Timeline.FoldingIsUnique | components/content/timeline.ts:58-67 | a day's entries are the only full folding of its cards |
| Timeline.NowLineSplitsTheDay | components/content/timeline.ts:140-143 | an entry stands above the "now" line exactly when it has begun |
| CalendarView.Calendar.BeginMove | components/content/calendar-view.tsx:154-159 | the optimistic half: nothing for an unchanged time, otherwise only that card's time changes and its old values are kept for the reply |
| CalendarView.Calendar.EndMove | components/content/calendar-view.tsx:160-165 | at, status and version of that card alone: the server's on acceptance, the remembered ones on refusal |
| CalendarView.Calendar.BeginLoad | components/content/calendar-view.tsx:101-103 | a load takes the next sequence number |
| CalendarView.Calendar.EndLoad | components/content/calendar-view.tsx:115-119 | items are shown exactly when they answer the load issued last |
| CalendarView.OptimisticIsConfirmed | components/content/calendar-view.tsx:101-165 | any interleaving of moves of different cards, and of loads shown between moves, shows the confirmed cards with the times still asked for, and once settled exactly the confirmed cards |
| CalendarView.TwoMovesOfOneCardIff | components/content/calendar-view.tsx:154-165 | for two overlapping moves of one card, every order of replies and of performance and all replies: exactly when the card shows what the server holds |
| CalendarView.TwoMovesWithVersionsIff | components/content/calendar-view.tsx:154-165 | with a new version for each accepted move: exactly when the last reply accepts, or both refuse in reverse |
| CalendarView.OverlappingMovesLoseTheOldTime | components/content/calendar-view.tsx:154-165 | two refusals in order leave the card at the first time asked for |
| CalendarView.AppliedLoadsIncrease | components/content/calendar-view.tsx:101-120 | from the first view on, shown loads have strictly increasing sequence numbers |
| CalendarView.OldLoadsStayHidden | components/content/calendar-view.tsx:115 | once a newer load is out no older one is ever shown |
| CalendarView.GroupPostsByDay | components/content/shared.ts:103-116 | for each wall date that occurs exactly the cards of that date, by time, ties as they stood |
| CalendarView.ByCell | components/content/calendar-view.tsx:439-449 | for each date and hour that occurs exactly the cards of that cell, by time, ties as they stood |
| CalendarView.CardIsInItsBucket | components/content/calendar-view.tsx:441-446 | a card with a time is in the bucket of its key and in no other |
| CalendarView.DroppedCardIsInItsCell | components/content/calendar-view.tsx:439-449 | a card dropped on an hour cell is next shown in that cell and no other, when the wall time exists |
| CalendarView.DroppedCardIsOnItsDay | components/content/shared.ts:103-116 | the same for a day of the month view |
| Translator.DomTranslator.ApplySlot | components/dom-translator.tsx:21-30 | one place: skipped, or translated from its remembered original |
| Translator.DomTranslator.Walk | components/dom-translator.tsx:48-58 | a walk applies it to exactly the places it reaches |
| Translator.DomTranslator.Start | components/dom-translator.tsx:84-86 | the first pass walks the whole body |
| Translator.DomTranslator.OnMutations | components/dom-translator.tsx:97-106 | records are handled in order, one walk each |
| Translator.ApplyShowsTheTranslation | components/dom-translator.tsx:21-30 | a place shows the translation of what the app wrote, never of a translation, and a second pass changes nothing |
| Translator.WriteIsTranslatedIff | components/dom-translator.tsx:25-27 | a write is translated in every locale exactly when it is not the translator's own last output (or was its own original) |
| Translator.TranslatableIsMeant | components/dom-translator.tsx:17-19 | a place is translated exactly when its element's tag is not skipped and nothing around it opts out |
| Translator.UnderRootMeans | components/dom-translator.tsx:47-58 | a walk from an element reaches exactly such places inside it, none when its own tag is skipped |
| Translator.RecordReaches | components/dom-translator.tsx:96-100 | which places each mutation record makes the observer look at again |
| Translator.PageShowsTranslations | components/dom-translator.tsx:75-110 | from the page as rendered, over any interleaving of writes, added text, attributes and elements, moved elements, locale switches and passes, the page at rest shows the translation, into the locale last chosen, of the text the app wrote last, and in Uzbek that text itself |
| Translator.IncrementalEqualsFull | components/dom-translator.tsx:97-106 | on every page a run reaches, handling the waiting records gives what a fresh full walk would give |
| Translator.AddedElementAgreesIff | components/dom-translator.tsx:48-58 | for an added element they agree exactly when its tag is not skipped or all its text that a full walk would translate is left alone by the translation |
| Translator.BoldInsidePreformatted | components/dom-translator.tsx:8-19 | bold text inside an added `PRE` is such a place |
| Composer.ComposerForm.Send | lib/content/service.ts:345-413 | the server's side of one request: a patch of another version is refused, an edit moves the version on, and the campaign is attached |
| Composer.ComposerForm.AttachCampaign | lib/content/link-campaign.ts:48-93 | the campaign of the request is parked on the post and taken off any other, as far as the server gets |
| Composer.ComposerForm.SavePost | components/content/composer.tsx:381-397 | the first request of a save and what the form keeps of its answer |
| Composer.ComposerForm.Act | components/content/composer.tsx:404-445 | the action on the saved post, and whether the form closes |
| Composer.ComposerForm.Save | components/content/composer.tsx:376-453 | one save is the run of its steps, whatever fails |
| Composer.ComposerForm.Autosave | components/content/composer.tsx:270-281 | one tick of the timer is the autosave step |
| Composer.AcceptedSaveKeepsTheDraftsLink | components/content/composer.tsx:96-104 | whatever happens between the button and the answer, an accepted save leaves the post with the campaign the draft had when the button was pressed: that one, none, or the one just made, which the draft then links |
| Composer.AcceptedAutosaveKeepsTheDraftsLink | components/content/composer.tsx:96-104 | an accepted autosave does the same, and leaves the post's campaign alone while a new one is filled in |
| Composer.ShowsTheCampaignIff | lib/content/link-campaign.ts:72-126 | the post then shows the campaign asked for exactly when it is an automation or the post held no automation |
| Composer.SwitchingEnginesKeepsBoth | lib/content/link-campaign.ts:72-126 | a trigger campaign chosen in place of an automation is parked beside it, and the post still shows the automation |
| Composer.OtherPostsLoseTheCampaign | lib/content/link-campaign.ts:78-91 | any other post loses a campaign attached here, and nothing else |
| Composer.DroppedSaveLeaves | lib/content/service.ts:354-366 | what a save whose answer is lost leaves of the post and of its campaign, the composer staying as it was |
| Composer.EditIsAutosavedOnce | components/content/composer.tsx:270-281 | an edit is sent by the next autosave that can send, once |
| Composer.SaveEnds | components/content/composer.tsx:376-453 | how many requests a save makes, and that the form is clean and closed exactly when nothing was left to report |
| Composer.StepKeepsInv | components/content/composer.tsx:269-284 | every step of client and server keeps the invariant |
| Composer.PostsAreKnownOrLost | components/content/composer.tsx:376-398 | over any run the posts are the known one plus those whose creation was reported failed; an accepted creation is the last, and every patch carries the version last returned |
| Composer.StoredPostStaysOne | components/content/composer.tsx:381-384 | a form for a stored post creates none, and patches with version 1 only while it was never given one |
| Composer.CampaignsFollowTheForm | components/content/composer.tsx:96-104 | autosave never sends a new campaign; inline campaigns are at most the openings of the form plus lost replies |
| Composer.BehindIff | lib/content/service.ts:369-397 | after any run the form's version is outdated exactly when some step moved the post without telling it, and from then on nothing it patches is saved |
| Composer.OpenedIsBehindIff | components/content/composer.tsx:381-384 | the same for every run of a composer that has just been opened |
| Composer.CrossProblemLeavesBehind | components/content/composer.tsx:400-447 | an accepted action with a failed network leaves the form open and outdated: its next save is refused and changes nothing |
| Composer.LostReplyMakesASecondPost | components/content/composer.tsx:386-391 | a creation with a lost reply, tried again, makes two posts |
| CrossPosting.SameIsSetEqualityIff | components/content/composer.tsx:364 | on lists without repeats the "same" test is equality of the sets |
| CrossPosting.RepeatsFoolTheTest | components/content/composer.tsx:364 | with a repeat it passes over a difference |
| CrossPosting.ToggleNetworkOk | components/content/cross-targets.tsx:73-87 | toggling a network keeps lists without repeats and empty for networks that are off |
| CrossPosting.ToggleNetworkMeans | components/content/cross-targets.tsx:73-87 | a chip that goes off loses its accounts, one that goes on picks its only account, no other network changes |
| CrossPosting.ToggleAccountOk | components/content/cross-targets.tsx:89-92 | so does toggling an account, and it does change the list |
| CrossPosting.ToggleAccountMeans | components/content/cross-targets.tsx:89-92 | the account is taken back or chosen, every other choice stays, and toggling again brings it back |
| CrossPosting.CrossSaver.Save | components/content/composer.tsx:360-374 | the loop over the networks sends and remembers what the recursive specification says |
| CrossPosting.RememberedStaysAcknowledged | components/content/composer.tsx:362-372 | the remembered selection stays what the server last acknowledged, whatever fails |
| CrossPosting.NothingIsSentIff | components/content/composer.tsx:359-374 | a save sends nothing exactly for a story, for targets that could not be read, or when every network matches what is remembered |
| CrossPosting.FailureLeavesSyncedPrefix | components/content/composer.tsx:362-373 | no problem means every network matches; a problem leaves the networks before it matching |
| CrossPosting.RetrySkipsSyncedPrefix | components/content/composer.tsx:362-373 | a retry resends nothing to the networks before the one that failed |
| CrossPosting.NullResultMeansMatching | components/content/composer.tsx:359-374 | after a null result the accounts the server last acknowledged are exactly the chosen ones |
| CrossPosting.NullResultReachesServerIff | components/content/composer.tsx:359-374 | after any run of saves ending in a null result the server holds the chosen accounts of a network exactly unless a write to it lost its reply, no accepted one followed, and its accounts were others |
| CrossPosting.LostReplyThenTakenBack | components/content/composer.tsx:364 | an account whose reply was lost and which is then taken back stays on the server, and no problem is reported |
| CrossPosting.NewPostIsReliableIff | components/content/composer.tsx:150 | a new post's saves reach the server whenever they report no problem exactly when EMPTY_CROSS is still empty |
| CrossPosting.SecondNewPostSendsNothing | components/content/composer.tsx:149-150 | the second new post of a page opens with the first one's targets, sends nothing and reports success |
| Hashtags.ScanAppend | components/content/ai-caption-panel.tsx:34 | text that does not begin inside a word is scanned on its own |
| Hashtags.ScanPrint | components/content/ai-caption-panel.tsx:33-38 | scanning printed word tags gives them back |
| Hashtags.AppendedScan | components/content/ai-caption-panel.tsx:33-39 | for any tags, scanning the result gives the caption's tags and then what is read of each missing one |
| Hashtags.AppendedTags | components/content/ai-caption-panel.tsx:33-39 | for tags of word characters these are exactly the missing ones, and the trimmed caption is a prefix |
| Hashtags.RequestedTagsArePresent | components/content/ai-caption-panel.tsx:33-39 | up to letter case the result has the caption's tags and the requested ones, no others |
| Hashtags.AppendedText | components/content/ai-caption-panel.tsx:36-38 | the caption as it is, or without its trailing space, an empty line and the missing tags |
| Hashtags.PrintOneMore | components/content/ai-caption-panel.tsx:35-38 | each further tag stands behind a space and its `#` |
| Hashtags.IdempotentIff | components/content/ai-caption-panel.tsx:33-39 | appending again changes nothing, for every caption, exactly when each tag is read back or shares its lower case with a tag of the list that is |
| Hashtags.WordTagsAreIdempotent | components/content/ai-caption-panel.tsx:33-39 | tags of word characters meet that, with any table of lower cases |
| Hashtags.OnlyWordTagsAreIdempotent | components/content/ai-caption-panel.tsx:33-39 | and no others do, as far as no word has the lower case of a tag of the list that is none |
| Hashtags.DottedCapital | components/content/ai-caption-panel.tsx:34-35 | a dotted capital I and its lower case together are idempotent, the lower case alone is not |
| Polling.Poller.HandleBatch | scripts/telegram-poll.ts:34-38 | the offset follows each update before its handler runs; a throw ends the batch after it |
| Polling.Poller.OneTurn | scripts/telegram-poll.ts:32-42 | one turn hands over the next updates and no others, whatever fails |
| Polling.OnwardHandsOver | scripts/telegram-poll.ts:32-42 | these are all there are, a full batch, or those up to the one whose handler throws; none when the request fails |
| Polling.Poller.Poll | scripts/telegram-poll.ts:30-43 | any number of turns hands over one stretch of the updates |
| Polling.OneSession | scripts/telegram-poll.ts:30-43 | handlers start in strictly increasing order, none twice, and an update was handed over exactly when it is below the offset |
| Polling.EveryFetchAdvances | scripts/telegram-poll.ts:34-41 | with updates waiting each successful turn starts a new handler, even if every handler throws |
| Polling.TwoSessions | scripts/telegram-poll.ts:30-33 | a restart repeats exactly what was handed over after the confirmed mark, and loses nothing |
| Polling.MarkTrails | scripts/telegram-poll.ts:33 | the confirmed mark is where the last request that arrived began |
| ImportQueue.Builder.constructor | components/campaign-builder.tsx:383-398 | a stored, non-empty queue is picked up |
| ImportQueue.Builder.HandleSubmit | components/campaign-builder.tsx:504-541 | a saved row advances queue and storage; anything else moves nothing |
| ImportQueue.Builder.SkipRow | components/campaign-builder.tsx:566-590 | skipping advances them the same way |
| ImportQueue.NoRowIsLost | components/campaign-builder.tsx:514-590 | rows are first handled in file order without a gap, and an import with nothing left to offer has handled every row |
| ImportQueue.ExactlyOnceIff | components/campaign-builder.tsx:514-590 | every row is saved or skipped exactly once, in file order, exactly when none is dealt with while the builder is behind |
| ImportQueue.GetsBehindIff | components/campaign-builder.tsx:383-398 | the three ways it gets behind, and no other |
| ImportQueue.StorageMirrorsIff | components/campaign-builder.tsx:516-523 | the storage stands at the first unhandled row exactly when its last change was written, and a reload then resumes there |
| ImportQueue.ExactlyOnceWhenCareful | components/campaign-builder.tsx:514-590 | over a whole run every row is saved or skipped exactly once, in order, exactly when no further save or skip follows a lost reply, the last row, or an unwritten change and a reload |
| ImportQueue.LostReplySavesTwice | components/campaign-builder.tsx:504-535 | a save whose reply is lost, tried again, saves the row twice |
| ImportQueue.LastRowSavesTwice | components/campaign-builder.tsx:530-541 | so does the button pressed again after the last row |
| ImportQueue.UnwrittenQueueSavesTwice | components/campaign-builder.tsx:516-523 | and reopening after a write the storage did not take |
| ImportQueue.FailedSavesDoNotAdvance | components/campaign-builder.tsx:542-560 | a refused or unsent save can be left out of any run |
| Invitations.Workspaces.Accept | lib/workspace.ts:8-51 | the loop of transactions, stopped by the one that fails |
| Invitations.Workspaces.EnsureWorkspace | lib/workspace.ts:71-96 | accept, then the earliest membership, or a workspace of the user's own with the user as its owner and only member |
| Invitations.ListOutcome | lib/workspace.ts:26-50 | what a run of transactions does to every membership and invitation |
| Invitations.OrderDoesNotMatter | lib/workspace.ts:18-26 | the order in which the invitations are listed changes nothing |
| Invitations.ResumableIff | lib/workspace.ts:17-50 | stopping anywhere and running again gives the same access exactly when no invitation left over has expired |
| Invitations.AgainChangesNothing | lib/workspace.ts:18-24 | once all are accepted a later run finds nothing |
| Invitations.OneWorkspaceForGood | lib/workspace.ts:53-96 | over any sequence of logins a user gets at most one workspace of their own, always the same one back, and is a member of it, as long as the first memberships have one that is earliest |
| Invitations.SameWorkspaceIff | lib/workspace.ts:53-96 | from a state in which the user is a member, every run of logins returns one workspace exactly when one membership is earliest |
| Invitations.SameTickTies | lib/workspace.ts:57-61 | two invitations accepted within one tick: a run in which logins return different workspaces |
| Invitations.AcceptingOverwritesTheRole | lib/workspace.ts:27-41 | an owner who accepts an invitation to the workspace stays owner exactly when invited as one |
| PricingCache.QueryIsOrdered | lib/pricing.ts:226-229 | the query lists exactly the active plans by ascending sort order |
| PricingCache.SeedingTwiceIsOnce | lib/pricing.ts:161-178 | seeding the defaults twice is seeding them once |
| PricingCache.InsertMissingAdds | lib/pricing.ts:161-178 | seeding adds exactly the plans whose slug the table lacks, behind it and in their order |
| PricingCache.SeedStepMeans | lib/pricing.ts:161-178 | a load that counted no rows adds the missing defaults to whatever the table holds by then, the defaults to an empty one |
| PricingCache.StoredListServesForFiveMinutes | lib/pricing.ts:203-244 | a stored list answers reads without a load exactly for the next five minutes |
| PricingCache.PricingPlans.GetActive | lib/pricing.ts:219-244 | with edits that invalidate, each read equals a fresh query; the cached list is used exactly until it expires |
| PricingCache.PricingPlans.Edit | lib/admin/actions.ts:103 | an edit leaves nothing cached |
| PricingCache.ServedListsAreRecent | lib/pricing.ts:219-244 | from the start of the process on, whatever overlaps, a served list is the query of a table that was current when it was queried, less than one load and five minutes before it was served |
| PricingCache.ServedListsAreFreshIff | lib/pricing.ts:203-244 | over every run each list served was queried after the last write exactly when no load stores what it queried before one and no read hits between a write and the invalidation after it |
| PricingCache.ServedListsAreCurrentIff | lib/pricing.ts:203-244 | then each list served is the query of the table at that moment, and only then when no write leaves or brings back a list |
| PricingCache.SameContentIsCurrent | lib/pricing.ts:203-244 | an edit that saves the same content during a load: the list is the table's, though queried before the write |
| PricingCache.LoadOverlapsEdit | lib/pricing.ts:203-244 | an edit during a load: the old list is stored after the invalidation, and served to that reader and the next |

## Left out

- Store: relation includes, nested writes, `_count`, `select` and raw SQL.
- Store: `where` clauses are arbitrary predicates on rows; `matches` itself, with its operators and relation filters, is not modelled.
- Store: `upsert`, `updateMany` and calling `seed` directly check no key, so they are not among the operations of a run.
- Store: rows are values in their tables; a caller that keeps a returned row and changes it is not modelled.
- Store: numbers are integers, and the numeral texts that compare with them are a parameter.
- StoreSafety.EveryReachableStateIsUnique: compares values as the code does, dates by identity; dates by instant are `StoreDates`, the three models with their own check are `StoreLegacy`.
- Queries.FindMeans: fields whose present values are of one kind; on mixed kinds the comparator is no order (`Rows.ComparablePairsMayCycle`) and what `sort` returns is the engine's choice.
- Store: the dates that defaults make anew for each row are identified by the row.
- Transactions: writes inside a body are not part of the chain's state, and are not rolled back by the original either.
- Dates: the text of a zone's wall clock comes from the platform's formatter, here a function from instants to offsets; `OneChangeNear` says an offset changes at most once within a day.
- Dates: dates of four-digit years compare as texts, which is what `localeCompare` does on them.
- IsoDates.DateRange: texts outside the date forms of section 21.4.1.32 of ECMA-262 do not read; an engine may read some of them, such as the 30th of February, in its own way.
- Timeline: keys of entries for the renderer, labels (`gapLabel`, `relativeTime`, `countsLabel`), `entryEnd` and `densityByDay`, which are easy.
- Calendar: the request that fetches a page of posts, its filters, and permissions to drag.
- CalendarView.OptimisticIsConfirmed: moves of one card do not overlap and no load is shown while a move is out; two overlapping moves are `TwoMovesOfOneCardIff`.
- Translator.PageShowsTranslations: the phrase tables and the transliteration are one function, the identity for Uzbek; nothing is said of places moved out of the translated part or off the page, nor of elements that opt out later.
- Composer: an autosave does not start while the first request of a save is under way; the code does not order the two.
- Composer: media, captions, the validation request, the local backup and the fields of a post other than its version and campaigns; targets are one step, refined in `CrossPosting`.
- Composer: a post holds at most one campaign of each engine, and the server looks up whether it may be attached; a refusal after the row is written is a dropped reply.
- CrossPosting: the Instagram chip and its account, and the server's own check of targets.
- Hashtags: the Unicode classes, what trimming removes and `toLowerCase` are parameters.
- Polling: Telegram's side is a list of updates with ascending ids of which a request returns a stretch; other consumers of the same bot are not modelled.
- ImportQueue: the fields prefilled from a row, the account key kept beside the queue, and malformed stored text.
- Invitations.OneWorkspaceForGood: memberships made while the user is a member are younger than the first one; that the clock does not run back is not proved.
- Invitations: the invitation page and the members page write the same tables; they are steps of others that only add.
- PricingCache: one process; plan contents are carried as text, and equal sort orders keep table order.
- Role and permission tables, labels, rendering, workers, mail and network protocols.
