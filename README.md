# Snug-Mental mood engine in Dafny

Snug-Mental is a mood check-in app for students. A signed-in user or a guest
records one emoji per day, with an optional note, and sees a streak of
consecutive check-in days. The app also shows a simulated campus aggregate:
per-emoji counts, a running mean of sentiment and the ten latest quotes. It
has a chat companion ("Snuggie") that replies according to a sentiment score.

This project models the parts of the app that hold logic and proves
properties about them:

- **The mood-entry engine** (`MoodContext`, class `MoodStore`):
  - the entry list, which holds at most one entry per UTC day;
  - the day and month queries;
  - the streak walk, a `while` loop proved against the recursive `Streak`;
  - the fold of a check-in into the campus aggregate.
- **The mood catalog and its two banded message tables** (`Catalog`).
- **The helpers** (`Helpers`):
  - the UTC day key;
  - the keyword sentiment scorer, a loop proved against `NetScore`.
- **The seed aggregate and the badge-progress table** (`MockData`).
- **The session state machine** (`UserContext`, class `Session`). It
  updates the user, the guest flag and the browser storage keys.
- **The pages' logic**:
  - the sign-in form (`Login`, class `LoginForm`);
  - the campus page's label, colour, sorted bars and maximum (`Community`);
  - the chat transcript (`Snuggie`, class `Chat`).

Modelling conventions:

- Timestamps are integer milliseconds since the epoch.
- A date string `YYYY-MM-DD` is the day number `ms / 86400000`. Two timestamps
  get the same key exactly when they fall on the same UTC day.
- Catalog and keyword sentiments are multiples of 0.1, so they are integer
  tenths.
- The running average and the page thresholds are `real`.
- Browser storage is a shared `LocalStorage` object mapping keys to values,
  taken before JSON serialization.
- Library sorts are a verified insertion sort (`Ordering`). It gives a
  permutation with non-increasing keys.

Kept as the source has it:

- `addEntry` returns without a change for an emoji outside the catalog
  (src/context/MoodContext.tsx:53).
- `addEntry` dates the new entry with one clock read and names "today" with a
  second one (src/context/MoodContext.tsx:57 and :65). `MoodStore.AddEntry`
  takes both readings.
- A quotable note is pushed and then at most one quote is shifted off the
  front (src/context/MoodContext.tsx:89-93). `FoldKeepsQuoteBound` proves that
  this keeps a list of at most 10 quotes at most 10.
- The saved list is restored with one `JSON.parse` of the whole string
  (src/context/MoodContext.tsx:30). This step is not modelled (see Left out).
- `clearUserData` removes the stored entry list and leaves the mood
  provider's in-memory list alone (src/context/UserContext.tsx:138).

## Model

| member | source | states |
|---|---|---|
| Catalog.CatalogEmojisDistinct | src/data/moodOptions.ts:3-64 | no emoji occurs twice in the catalog, so a lookup by emoji is a function |
| Catalog.CatalogInRange | src/data/moodOptions.ts:3-64 | every catalog sentiment is a whole number of tenths in [-1, 1] |
| Catalog.FindIn | src/context/MoodContext.tsx:51 | `find` returns the first row carrying the emoji, or none exactly when no row carries it |
| Catalog.Find | src/context/MoodContext.tsx:128-130 | `getMoodEmoji` finds a row exactly when the emoji is in the catalog, and the row found carries that emoji |
| Catalog.FindIsExact | src/context/MoodContext.tsx:128-130 | looking up a catalog row's emoji yields that very row |
| Catalog.SentimentOf | src/context/MoodContext.tsx:97-98 | the sentiment folded in lies in [-1, 1] and is 0 for an emoji outside the catalog |
| Catalog.SentimentOfCatalogRow | src/context/MoodContext.tsx:97-98 | a catalog emoji folds in its own row's sentiment |
| Catalog.MotivationalMessage | src/data/moodOptions.ts:66-89 | the message is the one for the sentiment's band, with the bands split at -0.7 (inclusive below), 0, 0.3 and 0.7 |
| Catalog.MotivationIgnoresStreak | src/data/moodOptions.ts:66-89 | the streak argument never changes the message |
| Catalog.MotivationBandMonotone | src/data/moodOptions.ts:68-88 | a higher sentiment never gets a lower band |
| Catalog.Decimal | src/data/moodOptions.ts:99 | the rendered number is a non-empty digit string with no leading zero |
| Catalog.DecimalRoundTrip | src/data/moodOptions.ts:99-110 | the rendered number reads back as the number itself |
| Catalog.StreakMessage | src/data/moodOptions.ts:91-111 | fixed messages for 0 and 1; from 2 on, the template of the band split at 3, 7, 14 and 30 around the rendered number |
| Catalog.StreakMessageShowsCount | src/data/moodOptions.ts:98-110 | from 2 on, the message contains the rendered streak, and that text reads back as the streak |
| Helpers.FormatDate | src/utils/helpers.ts:8-10 | the key of a timestamp is the UTC day it lies in |
| Helpers.OnOneDayOnly | src/utils/helpers.ts:8-10 | a timestamp lies in one UTC day only |
| Helpers.SameKeyIffSameDay | src/utils/helpers.ts:8-10 | two timestamps share a key exactly when they fall on the same UTC day |
| Helpers.Lower | src/utils/helpers.ts:27 | lowercasing keeps the length and which characters are word characters; each capital A-Z becomes its small letter (code point plus 32) and every other character is kept |
| Helpers.LowerUndoesRecasing | src/utils/helpers.ts:27 | a word without capitals, written with any of its letters as capitals, lowercases back to itself |
| Helpers.PositiveWordsHaveNoCapitals | src/utils/helpers.ts:17-20 | every positive keyword is written without capitals |
| Helpers.NegativeWordsHaveNoCapitals | src/utils/helpers.ts:22-25 | every negative keyword is written without capitals |
| Helpers.RecasedKeywordCounts | src/utils/helpers.ts:27-33 | a keyword in any casing, once lowercased, is counted once on its own list and not on the other, so it moves the score by +1 or -1 tenth |
| Helpers.SkipSeparators | src/utils/helpers.ts:27 | drops exactly the leading run of non-word characters: what is left is a suffix starting with a word character, and every word character is kept |
| Helpers.SplitFrom | src/utils/helpers.ts:27 | `split(/\W+/)` yields at least one token; the tokens hold only word characters, together spell the text's word characters in order, and every token but the first and the last is non-empty |
| Helpers.WordsSplitText | src/utils/helpers.ts:27 | the text is its tokens joined by non-empty runs of non-word characters, so the split falls exactly at the maximal separator runs |
| Helpers.WordsOfJoin | src/utils/helpers.ts:27 | round trip: splitting tokens joined by separator runs gives back exactly those tokens |
| Helpers.SplitFromIsSeparated | src/utils/helpers.ts:27 | the text read so far plus the rest is the tokens joined by separator runs |
| Helpers.SeparatorBranch | src/utils/helpers.ts:27 | the same, for a rest that starts with a separator |
| Helpers.SplitJoin | src/utils/helpers.ts:27 | splitting joined tokens after a partly read word adds that word to the first token |
| Helpers.SplitWordRun | src/utils/helpers.ts:27 | a run of word characters is added to the token being read |
| Helpers.SplitSeparatorRun | src/utils/helpers.ts:27 | a separator run ends the token being read, and reading goes on after it |
| Helpers.SkipSeparatorRun | src/utils/helpers.ts:27 | skipping a separator run lands on the next word character |
| Helpers.Occurrences | src/utils/helpers.ts:30-33 | a keyword count never exceeds the number of words |
| Helpers.Clamp | src/utils/helpers.ts:36 | the clamp lies in [-10, 10] tenths, is the identity inside, and is the nearer bound outside |
| Helpers.AnalyzeSentiment | src/utils/helpers.ts:14-37 | empty text scores 0; otherwise the loop's score is the clamped count of positive minus negative keywords among the lowercased tokens |
| Helpers.NetScoreStep | src/utils/helpers.ts:30-33 | each word moves the unclamped score by its own contribution |
| Helpers.KeywordListsDisjoint | src/utils/helpers.ts:17-25 | no word is on both lists |
| Helpers.UnlistedWordsScoreZero | src/utils/helpers.ts:27-36 | words none of which is listed score 0 |
| MockData.GetMockBadgeProgress | src/data/mockData.ts:29-39 | the fixed pair for each of the five known ids and {0, 1} for any other; every target is at least 1 and at least the current count |
| Ordering.Insert | src/context/MoodContext.tsx:137-139 | inserting into a non-increasing list keeps it non-increasing and adds exactly the one element |
| Ordering.SortDescending | src/pages/Community.tsx:19-20 | the sorted copy has non-increasing keys and is a permutation of the input |
| Ordering.SortedLength | src/pages/Community.tsx:19-20 | the sorted copy has the input's length |
| MoodContext.OtherDays | src/context/MoodContext.tsx:66-68 | the filter keeps, in order, exactly the entries not on the day, and shrinks the list by the number of entries on it |
| MoodContext.WithEntry | src/context/MoodContext.tsx:64-70 | the updated list ends with the new entry and holds exactly it and the old entries of other days |
| MoodContext.WithEntryAsWritten | src/context/MoodContext.tsx:55-70 | with "today" from a separate read, the list ends with the new entry and holds exactly it and the old entries not dated "today"; when "today" is the entry's own day, this is `WithEntry` |
| MoodContext.SubsequenceKeepsOnePerDay | src/context/MoodContext.tsx:66-70 | dropping entries from a one-per-day list keeps it one-per-day |
| MoodContext.AddLeavesOneEntryForTheDay | src/context/MoodContext.tsx:64-71 | after an add, exactly one entry is on the new entry's day, it is the new entry and last, and the length is the old one minus that day's entries plus one |
| MoodContext.AddKeepsOnePerDay | src/context/MoodContext.tsx:64-71 | an add keeps at most one entry per day |
| MoodContext.SecondAddReplacesFirst | src/context/MoodContext.tsx:64-71 | two adds on the same day leave only the second |
| MoodContext.TwoClockReadsBreakOnePerDay | src/context/MoodContext.tsx:55-70 | with the entry time and "today" read from two clock reads, an add can leave two entries on one day |
| MoodContext.EntryOnDate | src/context/MoodContext.tsx:114-117 | `getEntriesByDate` returns the first entry on the argument's day, or none exactly when no entry is on it |
| MoodContext.EntryOnDateIsTheOnlyOne | src/context/MoodContext.tsx:114-117 | in a one-per-day list, the entry found is the only entry of that day |
| MoodContext.CivilFromDays | src/context/MoodContext.tsx:122-123 | a day number's civil month lies in 1..12 and its day of the month in 1..31 |
| MoodContext.CivilEpoch | src/context/MoodContext.tsx:122-123 | day 0 is 1 January 1970 |
| MoodContext.CivilRoundTrip | src/context/MoodContext.tsx:122-123 | converting a day number to a civil date and back with `DaysFromCivil` gives the day number, so no two days share a date |
| MoodContext.CivilIsADate | src/context/MoodContext.tsx:122-123 | the day of the month of every computed date lies within that month's length, February 29 only in leap years |
| MoodContext.NextMonthStart | src/context/MoodContext.tsx:122-123 | the first of a month (January to November) comes exactly one month length after the first of the month before |
| MoodContext.NextYearStart | src/context/MoodContext.tsx:122-123 | 1 January comes 31 days after 1 December of the year before |
| MoodContext.MarchYearLength | src/context/MoodContext.tsx:122-123 | the year starting in March is 366 days long exactly when the February that ends it is a leap one, else 365 |
| MoodContext.LeapYearPeriodic | src/context/MoodContext.tsx:122-123 | the Gregorian leap-year rule repeats every 400 years |
| MoodContext.EraRoundTrip | src/context/MoodContext.tsx:122-123 | the date of day `doe` of a 400-year era lies `doe` days after the era's start |
| MoodContext.EraDateIsADate | src/context/MoodContext.tsx:122-123 | every date within a 400-year era has its day inside its month |
| MoodContext.InMonth | src/context/MoodContext.tsx:122-123 | an entry is in a month only when the month lies in 0..11, as `getMonth` counts |
| MoodContext.CountInMonth | src/context/MoodContext.tsx:120-125 | the number of entries of a month never exceeds the number of entries |
| MoodContext.EntriesForMonth | src/context/MoodContext.tsx:120-125 | `getEntriesForMonth` is the order-preserving subsequence of the entries of that year and zero-based month, and keeps every one of them, duplicates included |
| MoodContext.NoMonthOutsideTheYear | src/context/MoodContext.tsx:123 | a month outside 0..11 selects no entry |
| MoodContext.NewestFirst | src/context/MoodContext.tsx:137-139 | the sorted copy is a permutation of the entries with timestamps non-increasing |
| MoodContext.Streak | src/context/MoodContext.tsx:133-171 | the streak never exceeds the number of entries and is 0 for an empty list |
| MoodContext.RunLength | src/context/MoodContext.tsx:155-168 | a run never exceeds the number of entries it walks |
| MoodContext.RunLengthAt | src/context/MoodContext.tsx:155-168 | one loop step: the run grows by one when the entry is on the expected day, and stops otherwise |
| MoodContext.DayOfMonotone | src/context/MoodContext.tsx:137-146 | a later timestamp never has an earlier day key |
| MoodContext.NewestHasLatestDay | src/context/MoodContext.tsx:137-146 | the newest entry is an entry, and its day is the latest day of the list |
| MoodContext.StreakBounds | src/context/MoodContext.tsx:133-171 | the streak is 0 for an empty list, and otherwise 0 or between 1 and the number of entries |
| MoodContext.StreakAliveIff | src/context/MoodContext.tsx:148-152 | the streak is positive exactly when no entry is after today and some entry is on today or yesterday |
| MoodContext.PermutationKeepsOnePerDay | src/context/MoodContext.tsx:137-139 | the sorted copy of a one-per-day list is one-per-day |
| MoodContext.NewestFirstStrict | src/context/MoodContext.tsx:137-139 | in a one-per-day list, days strictly decrease along the sorted copy |
| MoodContext.RunLengthMeaning | src/context/MoodContext.tsx:155-168 | over strictly decreasing days, a run of n covers the expected day and the n - 1 days before it, and no entry is on the day after the run ends |
| MoodContext.StreakCountsConsecutiveDays | src/context/MoodContext.tsx:133-171 | with one entry per day, a live streak of k means the newest day and the k - 1 days before it each have an entry, and the day before those has none |
| MoodContext.RunCoversDays | src/context/MoodContext.tsx:155-168 | the days a run of the sorted copy covers are days of the original list, and the day after the run is not |
| MoodContext.RunStrict | src/context/MoodContext.tsx:155-168 | the entries of a run are on consecutive days from the head, and no entry is on the day after the run |
| MoodContext.SumCountsBump | src/context/MoodContext.tsx:83-84 | raising one count by 1 raises the sum of the counts by 1 |
| MoodContext.BumpedCounts | src/context/MoodContext.tsx:83-84 | the bumped map is the old map with the emoji's count, 0 when absent, raised by 1 |
| MoodContext.BumpedSum | src/context/MoodContext.tsx:83-84 | a bump raises the sum of the counts by 1 |
| MoodContext.FoldKeepsCountBalance | src/context/MoodContext.tsx:83-106 | the sum of the counts minus the total is the same before and after a fold |
| MoodContext.Utf16Length | src/context/MoodContext.tsx:87 | a note's `length` lies between its character count and twice that; it equals the character count when no character is beyond U+FFFF, and twice it when all are |
| MoodContext.Utf16LengthAppend | src/context/MoodContext.tsx:87 | the `length` of a concatenation is the sum of the parts' lengths |
| MoodContext.QuotesFoldedBound | src/context/MoodContext.tsx:86-94 | at most 10 quotes stay at most 10; a quotable note is the last quote and, arriving at 10, evicts the oldest |
| MoodContext.FoldKeepsQuoteBound | src/context/MoodContext.tsx:86-94 | the quote bound of 10 survives a fold, and a note arriving at 10 evicts exactly the oldest quote |
| MoodContext.ScaledIsProduct | src/context/MoodContext.tsx:99-101 | `Scaled(x, n)` is x times n |
| MoodContext.DivisionIsMeanStep | src/context/MoodContext.tsx:99-101 | the source's division satisfies avg' * (n + 1) = avg * n + s |
| MoodContext.NextAverage | src/context/MoodContext.tsx:99-101 | the new average times n + 1 is the old average times n plus the new sentiment |
| MoodContext.MeanStepIsDivision | src/context/MoodContext.tsx:99-101 | any value with avg' * (n + 1) = avg * n + s is the source's quotient |
| MoodContext.FoldAverage | src/context/MoodContext.tsx:97-101 | after a fold, the average is the old total-weighted mean with the emoji's sentiment, or 0 for an unknown emoji |
| MoodContext.MeanStepInRange | src/context/MoodContext.tsx:99-101 | a mean step between values in [-1, 1] stays in [-1, 1] |
| MoodContext.FoldKeepsAverageInRange | src/context/MoodContext.tsx:97-101 | an average in [-1, 1] stays in [-1, 1] |
| MoodContext.TotalsCount | src/context/MoodContext.tsx:106 | after k folds from an empty aggregate, the total is k |
| MoodContext.ChainKeepsSum | src/context/MoodContext.tsx:97-106 | after k folds from an empty aggregate, the average times k is the sum of the first k sentiments |
| MoodContext.FoldsKeepExactMean | src/context/MoodContext.tsx:81-111 | folding check-ins one at a time from an empty aggregate keeps the exact mean: the total is their number, and the average times it is the sum of their sentiments |
| MoodContext.SeedCountsMatchTotal | src/data/mockData.ts:5-16 | the seed counts add up to the seed total, 98 |
| MoodContext.SeedIsWithinBounds | src/data/mockData.ts:5-26 | the seed has 8 quotes, only catalog keys and an average in [-1, 1] |
| MoodContext.MoodStore.constructor | src/context/MoodContext.tsx:22-23 | the provider starts with no entries and the seed aggregate |
| MoodContext.MoodStore.LoadSaved | src/context/MoodContext.tsx:26-37 | a saved list is restored when one is stored; otherwise the entries stay |
| MoodContext.MoodStore.AddEntry | src/context/MoodContext.tsx:50-78 | an emoji outside the catalog changes nothing; otherwise the entries of the second clock read's day are dropped and the new entry, with its catalog sentiment, is appended; the list is saved and the aggregate folds the check-in in; when both reads fall on one day, the new entry replaces its own day's entries |
| MoodContext.MoodStore.UpdateCommunityMood | src/context/MoodContext.tsx:81-111 | the new aggregate has the emoji's count bumped, the total raised by 1, the running mean stepped and the quotes folded, with the date unchanged |
| MoodContext.MoodStore.GetEntriesByDate | src/context/MoodContext.tsx:114-117 | the result is `EntryOnDate`, the first entry of that day, or none exactly when no entry is on it; with one entry per day it is the day's only entry |
| MoodContext.MoodStore.CalculateStreak | src/context/MoodContext.tsx:133-171 | the result is `Streak` of the entries, and the entries are left unchanged |
| MoodContext.CountBack | src/context/MoodContext.tsx:155-168 | the loop returns 1 plus the run of consecutive days before the newest |
| Types.LocalStorage.SetItem | src/context/MoodContext.tsx:74 | `setItem` maps the key to the value and keeps every other key |
| Types.LocalStorage.RemoveItem | src/context/UserContext.tsx:138 | `removeItem` drops the key, if present, and keeps every other key |
| UserContext.InitialBadgesShape | src/context/UserContext.tsx:20-56 | there are five initial badges with distinct ids, none earned |
| UserContext.NewUser | src/context/UserContext.tsx:90-97 | a new user has the given id and name, streak 0, the initial badges and light mode |
| UserContext.Apply | src/context/UserContext.tsx:120 | each field the update names takes its value, and every other field keeps the user's |
| UserContext.NoChangesIsIdentity | src/context/UserContext.tsx:120 | an empty update changes nothing |
| UserContext.ApplyIdempotent | src/context/UserContext.tsx:120 | applying the same update twice is applying it once |
| UserContext.ApplyThenApply | src/context/UserContext.tsx:117-123 | two updates in a row are one merged update, and the later value wins |
| UserContext.Cleared | src/context/UserContext.tsx:127-132 | clearing keeps the id, name and theme, and resets the streak to 0 and the badges to the initial set |
| UserContext.ClearedIsAnUpdate | src/context/UserContext.tsx:125-135 | clearing is the update of the streak and the badges only |
| UserContext.NewUserIsCleared | src/context/UserContext.tsx:90-132 | a freshly logged-in user is already cleared |
| UserContext.Session.constructor | src/context/UserContext.tsx:59-60 | the provider starts with nobody signed in and not a guest |
| UserContext.Session.Login | src/context/UserContext.tsx:90-103 | sets the new user, clears the guest flag, stores `snugUser` and removes `snugGuest`; storage then mirrors the state |
| UserContext.Session.ContinueAsGuest | src/context/UserContext.tsx:105-108 | sets the guest flag and `snugGuest` = "true", leaves the user as it is, and keeps storage mirroring the state |
| UserContext.Session.Logout | src/context/UserContext.tsx:110-115 | signs out, clears the guest flag and removes both keys; storage then mirrors the state |
| UserContext.Session.UpdateUser | src/context/UserContext.tsx:117-123 | without a user, nothing changes; otherwise the user becomes the patched user and the stored copy equals it |
| UserContext.Session.ClearUserData | src/context/UserContext.tsx:125-139 | a signed-in user is cleared and re-stored, and `moodEntries` is removed whether or not anyone is signed in |
| Login.BeforeAt | src/pages/Login.tsx:38 | `email.split('@')[0]` is the longest prefix with no `@`, followed by `@` when shorter than the address |
| Login.Validate | src/pages/Login.tsx:21-38 | each message is shown exactly when its check is the first to fail, in the order name (sign-up only), email, password; otherwise the login name is the local part or the name |
| Login.LoginModeIgnoresName | src/pages/Login.tsx:21 | in login mode the name field plays no part |
| Login.NoAtKeepsEmail | src/pages/Login.tsx:38 | an address without `@` logs in under its whole text |
| Login.BeforeAtOfAddress | src/pages/Login.tsx:38 | the login name of `local@domain` is `local`, whatever the domain holds |
| Login.LoginForm.constructor | src/pages/Login.tsx:8-12 | the form starts in login mode with empty fields and no error |
| Login.LoginForm.HandleSubmit | src/pages/Login.tsx:17-40 | the error is cleared, then a rejected submit shows its message and leaves the session and storage alone, while an accepted one logs in once under the validated name |
| Login.LoginForm.ToggleMode | src/pages/Login.tsx:47-50 | the mode flips and the error is cleared |
| Community.GetMoodDescription | src/pages/Community.tsx:26-32 | each of the five labels owns exactly its interval of the average |
| Community.GetMoodColor | src/pages/Community.tsx:35-39 | green exactly from 0.1 up, orange exactly from -0.1 down, blue exactly in between |
| Community.ColorMatchesDescription | src/pages/Community.tsx:34-39 | the colour is green exactly for the positive labels, orange exactly for the negative ones, and blue exactly for neutral |
| Community.DescriptionMonotone | src/pages/Community.tsx:26-32 | a higher average never gets a less positive label |
| Community.EntriesOf | src/pages/Community.tsx:19 | `Object.entries` lists each key of the map once, with its count |
| Community.SortedMoods | src/pages/Community.tsx:19-20 | the bars are a permutation of the map's pairs with non-increasing counts |
| Community.MaxCount | src/pages/Community.tsx:23 | the maximum is at least every count and equal to some count, and is absent only for an empty map |
| Community.HeadBoundsCounts | src/pages/Community.tsx:19-23 | the first sorted pair is a pair of the map, and its count bounds every count |
| Community.FirstBarIsLongest | src/pages/Community.tsx:19-23 | for a non-empty map, the maximum is the first bar's count |
| Community.MaxIsHead | src/pages/Community.tsx:23 | a count that bounds all counts and is attained is the maximum |
| Snuggie.TrimStart | src/pages/Snuggie.tsx:71 | what `trimStart` leaves is empty or starts with a non-space, and is empty exactly for white-space-only text |
| Snuggie.TrimStartIsSuffix | src/pages/Snuggie.tsx:71 | what `trimStart` leaves is a suffix of the text, and what it removes is white space only |
| Snuggie.TrimEnd | src/pages/Snuggie.tsx:71 | what `trimEnd` leaves is empty or ends with a non-space, and is empty exactly for white-space-only text |
| Snuggie.TrimEndIsPrefix | src/pages/Snuggie.tsx:71 | what `trimEnd` leaves is a prefix of the text, and what it removes is white space only |
| Snuggie.IsBlank | src/pages/Snuggie.tsx:71 | `!inputText.trim()` holds exactly when the text is empty or white space only |
| Snuggie.ReplyFor | src/pages/Snuggie.tsx:95-102 | the reply is positive above 0.3, negative below -0.3 and neutral otherwise |
| Snuggie.ReplyMonotone | src/pages/Snuggie.tsx:96-102 | a higher score never gets a gloomier reply |
| Snuggie.SentimentEmoji | src/pages/Snuggie.tsx:121-126 | each of the four emojis is shown exactly on its own band of the score |
| Snuggie.AttachSentiment | src/pages/Snuggie.tsx:88-92 | the list keeps its length and every message's id, text and sender; messages with the id get the sentiment and the others are untouched |
| Snuggie.AttachToFreshLast | src/pages/Snuggie.tsx:73-92 | with a fresh id on the newest message, attaching changes that message only |
| Snuggie.AttachIdempotent | src/pages/Snuggie.tsx:88-92 | attaching the same sentiment twice is attaching it once |
| Snuggie.Chat.constructor | src/pages/Snuggie.tsx:35-47 | the chat starts with the one welcome message, an empty input and no typing |
| Snuggie.Chat.HandleSubmit | src/pages/Snuggie.tsx:69-119 | a blank input changes nothing; otherwise one user message is appended and the input cleared, and a score attaches to it and adds the banded reply; typing is off at the end |

## Left out

- **JSON and storage failures.** Stored values are modelled before
  `JSON.stringify`. A failed write is not modelled, and neither is the
  `getOfflineData`/`storeOfflineData` pair (src/utils/helpers.ts:45-61).
- MoodContext.MoodStore.LoadSaved: a malformed saved string makes the whole
  `JSON.parse` throw (src/context/MoodContext.tsx:30). The model has no
  malformed value, so it shows the successful path only.
- **Firebase.** The auth-state listener (src/context/UserContext.tsx:62-88)
  and src/context/AuthContext.tsx are foreign library calls.
- **Randomness, clocks and ids.** `generateId`, `Date.now()` ids, the clock
  reading `new Date()` and the random, delayed mock analysis of the chat page
  (src/pages/Snuggie.tsx:57-67) become parameters: `id`, `now`, `todayMs`
  (the second clock read of `addEntry`), `userId`, `replyId` and `outcome`.
- Snuggie.Chat.HandleSubmit: the mock analysis never rejects. `outcome =
  None` stands for the `catch` path all the same. The asynchronous
  interleaving of the three `setMessages` updaters with other renders is not
  modelled. The updaters run in order on the latest list.
- Snuggie.Chat.HandleSubmit: the `Date.now()` ids of the user message and the
  reply are independent parameters. In the source they can coincide, and
  `AttachToFreshLast` states what holds when the user message's id is fresh.
- **Message timestamps** are display-only and are not modelled.
- **Timezone and DST.** `formatDate` uses UTC, but `calculateStreak`
  normalises to local midnight and steps back with `setDate`
  (src/context/MoodContext.tsx:141-159). Both are modelled by the one UTC
  day number, which assumes a UTC local time zone.
- MoodContext.CivilFromDays: `getFullYear` and `getMonth` use local time. The
  model computes the UTC civil date of the day number.
- **Floating point.** The catalog and keyword scores are exact tenths. The
  running average and the page thresholds are exact `real`s. IEEE rounding is
  not modelled.
- Helpers.Lower: `toLowerCase` is modelled for the letters A to Z only. A
  character outside ASCII whose lowercase form holds an ASCII letter is not
  modelled. For example, U+0130 lowercases to "i" followed by U+0307, so the
  source reads "sadİ" as the token "sadi" and the model reads it as "sad".
- MoodContext.FoldsKeepExactMean: states "average times total" through
  `Scaled`, the repeated sum that `ScaledIsProduct` proves equal to the
  product, to keep the proof in linear arithmetic.
- **The streak-sync effect** (src/context/MoodContext.tsx:40-47) is React
  re-render plumbing. It calls `updateUser({ streak })` for a signed-in,
  non-guest user whose stored streak differs from `CalculateStreak`. That
  call is `UpdateUser` with a streak-only patch.
- Community.SortedMoods: `Object.entries` lists keys in insertion order. The
  model takes an arbitrary listing (`EntriesOf`), so it does not pin the order
  of bars with equal counts.
- MockData.GetMockBadgeProgress and MoodContext.CountOf (the `counts[emoji]
  || 0` of MoodContext.MoodStore.UpdateCommunityMood): plain object lookups
  also see inherited `Object.prototype` members. An id such as "toString"
  returns that function instead of `{current: 0, target: 1}`, and such an
  emoji would not start at 0. The model treats these as absent keys. Callers
  pass only the badge ids of the initial badges and catalog emojis, so
  neither case is reached.
- UserContext.Apply: a `Partial<User>` whose field is present but set to
  `undefined` is not modelled. A patch field is either absent or a value.
- Catalog.StreakMessage: takes a natural number. The source accepts any
  number, but every caller passes a streak, which is never negative.
- **Presentation.** Rendering and animation are not modelled: the formatted
  date, the bar widths, the percentage text, scrolling and navigation. The
  Calendar, Profile, MoodCheck, Landing, About and Privacy pages are not part
  of this model, and neither are the layout and shared components.

## Findings

| source | as written | input that shows it | evidently intended | confidence | as-written member | corrected member |
|---|---|---|---|---|---|---|
| src/context/MoodContext.tsx:55-70 | The new entry's `date` and the `todayStr` that filters out today's entries come from two separate `new Date()` calls. | An earlier entry that day at 00:00:01 UTC. A check-in whose entry time is 23:59:59.999 UTC and whose second clock read falls 1 ms later, on the next day. The filter then keeps the earlier entry, and the list holds two entries for one day. | The filter uses the new entry's own day, so exactly one entry remains for that day. | not executed | MoodContext.TwoClockReadsBreakOnePerDay | MoodContext.AddKeepsOnePerDay |
