# mensabot in Dafny

A verified model of the core of **mensabot**, the Telegram bot of the
Passau student union canteens, together with its library **stwno-api**
(the menu and opening-times client), the newer bot **stwno-bot** and the
shared command layer **stwno-cmds**.

The model covers three parts of that system.

- **The menu diff engine.**
  - The bracket scanner that splits a raw dish name into a clean name, dietary labels (`kennz`) and additive codes (`zusatz`). There is one version per engine (`NameScanner`, `Dishes`, `MenuParser`, `MensaMenu`).
  - The CSV text fix-ups made before parsing (`CsvText`).
  - Both change classifiers:
    - the newer greedy fuzzy matching in `FuzzyMatch` and `MenuParser`;
    - the older close-match pairing in `MensaMenu`;
    - the per-date, per-category walk that drives them, in `Menus`.
  - `Change` and its field diff.
  - The storing APIs, which tell their listeners exactly when a fetched week differs from the stored one (`StwnoApi.StoringApi`, `Mensa.MenuStore`).
- **The scheduler and notification rules.**
  - The job queue is a class holding `(time, priority, action)` entries (`Sched.Scheduler`).
  - The notification job's time arithmetic and push window (`Tasks`, `MainBot`).
  - The recurring jobs that re-arm before working.
  - The registry of sent menu messages and its daily reset (`MensaCommand.Registry`).
  - The fan-out of a menu change to chats, with its per-chat dedup (`DiffListener`).
- **Delivery and input handling.**
  - The first-match-wins classification of `send_message` failures and its effects on the chat table and the queue (`Ext`).
  - The argument splitting, location and date parsing, and `/set` validation (`BotUtil`, `Parse`, `CmdParse`, `Config`).
  - Opening-times tables, the next opening and holiday lookup (`Opening`, `Institution`, `Mensa`, `StwnoApi`).
  - The template filters and configuration defaults (`Templates`, `Format`).

Each Dafny module follows one source module.

- **Pure code** is modelled as datatypes and functions, with lemmas.
- **State is modelled as classes.** The chat table, the scheduler, the menu store, the notification registry and the bot object are classes whose methods state their whole new state.
- **Loops in the source are methods.** Each is proved equal to a specification function, and the properties are proved about that function.

Modelling choices:

- **Time.**
  - A moment is an integer number of seconds in naive local time.
  - The day of a moment is `t / 86400` and its time of day `t % 86400`.
  - Day 0 is a Thursday, so the weekday, with Monday as 0, is `(day + 3) % 7`.
- **Prices** are integer cents.
- **Strings** are sequences of characters. Tag collections (`Counter`s) are multisets.
- **Helpers outside the model become parameters:**
  - `fuzz.ratio`, `difflib.get_close_matches`;
  - `dateparser`, `strptime`;
  - the name-suffix regular expression search;
  - the template loader;
  - the holiday and menu lookups of the bot.

## Model

| member | source | states |
|---|---|---|
| NameScanner.ParseName | stwno-api/stwno_api/menu_parser.py:56-101 | the character loop of `__parse_name` computes exactly the functional scan `ScanName` |
| NameScanner.ScanAbortsIff | stwno-api/stwno_api/menu_parser.py:80-96 | the scan returns its abort value exactly when the brackets do not alternate `(`, `)`, `(`, … from the left; an unclosed final `(` does not abort |
| NameScanner.ScanShapes | stwno-api/stwno_api/menu_parser.py:63-78 | every name fragment is bracket-free or a bracketed remark `(text)`; every ingredient and dietary tag is a stripped, comma-free, bracket-free piece |
| NameScanner.ScanWithoutBrackets | stwno-api/stwno_api/menu_parser.py:93-101 | a bracket-free name becomes a single fragment with no ingredient tags, or nothing when it is empty |
| NameScanner.StrippedPieces | stwno-api/stwno_api/menu_parser.py:68 | one stripped piece per comma-separated piece, in order |
| NameScanner.SalatmixName | stwno-api/stwno_api/menu_parser.py:43-44 | the cut name is a prefix of the name: "Salatmix", then a space and the longest run of `I`/`V` when the name has one |
| NameScanner.CollapseRuns | stwno-api/stwno_api/menu_parser.py:57 | each run of the bracket becomes one bracket: the other characters stay in order (`Without`), every run leaves a bracket in its place and no other place gains one (`Marks`), no doubled bracket is left, and the text never grows |
| NameScanner.CollapsedUnique | stwno-api/stwno_api/menu_parser.py:57 | two texts without doubled brackets that agree on the other characters and on where the runs sit are equal |
| NameScanner.CollapseRunsOnly | stwno-api/stwno_api/menu_parser.py:57 | the contract leaves no choice: any text without doubled brackets that keeps the other characters and the places of the runs is the collapsed text |
| NameScanner.CollapseRunsFixed | stwno-api/stwno_api/menu_parser.py:57 | text without doubled brackets is left alone, so collapsing is idempotent |
| NameScanner.CollapseRunsKeepsOthers | stwno-api/stwno_api/menu_parser.py:57 | any other character occurs after collapsing exactly when it occurred before |
| Dishes.DishEquality | stwno-api/stwno_api/menu_parser.py:16-25 | two dishes are equal exactly when all eight fields are |
| Dishes.Diff | stwno-api/stwno_api/menu_parser.py:125-132 | empty when a side is missing; otherwise exactly the fields in which the dishes differ, each with its old and new value |
| Dishes.DiffEmptyIffEqual | stwno-api/stwno_api/menu_parser.py:125-132 | a two-sided diff is empty exactly when the dishes are equal |
| Dishes.ColumnTags | stwno-api/stwno_api/menu_parser.py:35 | an empty column gives no tags; otherwise one tag per comma-separated piece, none holding a comma |
| MenuParser.ParseDish | stwno-api/stwno_api/menu_parser.py:28-53 | date, category and prices are copied; a Salatmix name is cut and keeps only the column's tags; any other name drops empty tags and keeps at least the column's non-empty tags |
| MenuParser.ParseRow | stwno-api/stwno_api/menu_parser.py:28-53 | rewriting the row field by field yields `ParseDish` |
| MenuParser.ParseDishAborts | stwno-api/stwno_api/menu_parser.py:46-91 | after collapsing bracket runs, a misplaced bracket names the dish by the text spelled out with spaces and gives `??` as its only ingredient tag and one of its dietary tags |
| MenuParser.ParseDishTags | stwno-api/stwno_api/menu_parser.py:46-51 | a parsed name's ingredient tags are non-empty tags, and every dietary tag is non-empty and is a column tag or a tag the scan found |
| MenuParser.ParseDishPlain | stwno-api/stwno_api/menu_parser.py:46-99 | a bracket-free name without a tag suffix is only stripped, with no ingredient tags and exactly the column's non-empty tags |
| MenuParser.NewChange | stwno-api/stwno_api/menu_parser.py:115-123 | the constructor fails its assertion exactly when both sides are equal, and otherwise keeps kind, sides and score |
| MenuParser.ChangeDiff | stwno-api/stwno_api/menu_parser.py:125-132 | empty for a one-sided change, else exactly the differing fields |
| MenuParser.ChangeDiffNonEmpty | stwno-api/stwno_api/menu_parser.py:116-132 | a constructed two-sided change always has a non-empty diff |
| MenuParser.ChangeDish | stwno-api/stwno_api/menu_parser.py:134-135 | the new dish when there is one, otherwise the old one |
| MenuParser.SameChangeIgnoresScore | stwno-api/stwno_api/menu_parser.py:137-141 | equality of changes is equality of kind and both sides, whatever the match score |
| MenuParser.Compare | stwno-api/stwno_api/menu_parser.py:217-224 | nothing exactly for equal dishes; ATTR exactly for the same name, RENAME for a different name scoring at least the cutoff, REPLACE below it |
| MenuParser.Classify | stwno-api/stwno_api/menu_parser.py:203-215 | a triple fails the `assert` exactly when both of its names are false (missing or empty) |
| MenuParser.ClassifyAll | stwno-api/stwno_api/menu_parser.py:203-224 | the loop fails exactly when some triple has two false names, and yields at most one change per triple |
| MenuParser.GroupChanges | stwno-api/stwno_api/menu_parser.py:198-224 | every change of a completed group diff is well kinded and takes its sides from the two groups |
| MenuParser.GroupFailsOnlyOnEmptyName | stwno-api/stwno_api/menu_parser.py:204-215 | the `assert` cannot fail when no dish of either group has an empty name |
| MenuParser.GroupSameNamesNothing | stwno-api/stwno_api/menu_parser.py:199-233 | two groups with the same set of names produce no change at all |
| MenuParser.MovedDishUnreported | stwno-api/stwno_api/menu_parser.py:232-233 | as written, a dish that keeps its name but changes any other field is not reported |
| MenuParser.MovedDishReportedIntended | stwno-api/stwno_api/menu_parser.py:217-220 | with the identity pairing for equal name sets, the same dish change is one ATTR change |
| MenuParser.EmptyNameRemovalFails | stwno-api/stwno_api/menu_parser.py:204-215 | as written, dropping a dish whose name parsed to "" fails the `assert` instead of reporting a REMOVE |
| MenuParser.EmptyNameRemovalIntended | stwno-api/stwno_api/menu_parser.py:204-208 | testing names for presence reports that removal |
| MenuParser.DifferentNamesReported | stwno-api/stwno_api/menu_parser.py:203-224 | a triple with one side, or with two different names, is always reported by the corrected loop |
| MenuParser.GroupIntendedChanges | stwno-api/stwno_api/menu_parser.py:198-224 | every change of the corrected group diff is well kinded and drawn from the two groups |
| MenuParser.GroupIntendedComplete | stwno-api/stwno_api/menu_parser.py:198-224 | the corrected group diff is empty exactly when both groups map every name to the same dish |
| MenuParser.WeekDiffChanges | stwno-api/stwno_api/menu_parser.py:172-195 | every change of the week diff is well kinded, takes its old dish from the old menu and its new dish from the new one, and is about one date of the old menu |
| MenuParser.WeekIntendedChanges | stwno-api/stwno_api/menu_parser.py:172-195 | the same for the corrected diff, which moreover never fails |
| FuzzyMatch.DescendingIsTotalPreorder | stwno-api/stwno_api/menu_parser.py:239 | `sorted(..., reverse=True)` on `(score, str1, str2)` tuples orders by a total preorder |
| FuzzyMatch.AllScored | stwno-api/stwno_api/menu_parser.py:239 | holds exactly the triples of an old name, a new name and their ratio |
| FuzzyMatch.Ranked | stwno-api/stwno_api/menu_parser.py:239 | the same triples, sorted in descending order |
| FuzzyMatch.FuzzySetMatch | stwno-api/stwno_api/menu_parser.py:230-250 | the sorted walk with its early exit, then the leftovers, yields `Matching` |
| FuzzyMatch.WalkAccounts | stwno-api/stwno_api/menu_parser.py:240-246 | every name of a side ends up once, either in a pair or among that side's leftovers |
| FuzzyMatch.WalkExhausts | stwno-api/stwno_api/menu_parser.py:240-246 | when the walk ends, one side has no names left |
| FuzzyMatch.WalkGreedy | stwno-api/stwno_api/menu_parser.py:239-246 | each pair taken is the highest-ranked pair of two names still free at its turn |
| FuzzyMatch.EqualSetsYieldNothing | stwno-api/stwno_api/menu_parser.py:232-233 | as written, equal name sets yield nothing: the `return` in the generator ends it |
| FuzzyMatch.MatchingUsesEachNameOnce | stwno-api/stwno_api/menu_parser.py:237-250 | for different name sets, every old name is the left side of exactly one triple and every new name the right side of exactly one |
| FuzzyMatch.MatchingShape | stwno-api/stwno_api/menu_parser.py:237-250 | the yield is the pairs, then old names alone, then new names alone, never both kinds of leftover; pairs are scored by `ratio` and greedy; leftovers score 0 |
| FuzzyMatch.MatchingPairCount | stwno-api/stwno_api/menu_parser.py:240-246 | the number of pairs is the size of the smaller side |
| FuzzyMatch.MatchingSides | stwno-api/stwno_api/menu_parser.py:230-250 | every triple names at least one side and only names of the two input sets |
| FuzzyMatch.MatchingIntendedUsesEachName | stwno-api/stwno_api/menu_parser.py:232-233 | with the identity pairing for equal sets, every name is paired with itself at score 100, and each old and each new name is used |
| FuzzyMatch.MatchingIntendedSides | stwno-api/stwno_api/menu_parser.py:230-250 | the corrected matcher also names only names of the two sets, at least one per triple |
| Menus.Dates | stwno-api/stwno_api/menu_parser.py:176 | the distinct dates of the menu, each once |
| Menus.OnDate | stwno-api/stwno_api/menu_parser.py:177-178 | exactly the menu's dishes of that date |
| Menus.DifferingSlots | stwno-api/stwno_api/menu_parser.py:185-189 | exactly the categories whose slot holds a different dish (or a dish on one side only) in the two category dicts |
| Menus.ChangedGroups | stwno-api/stwno_api/menu_parser.py:185-189 | each digit-stripped differing category, once |
| Menus.InGroup | stwno-api/stwno_api/menu_parser.py:193-194 | exactly the values of the day's category dict whose category starts with the group; each is a dish of the day |
| Menus.GroupNames | stwno-api/stwno_api/menu_parser.py:199-200 | the distinct dish names, exactly the keys of the name dict |
| Menus.SortByCategory | mensabot/mensa_menu.py:182-183 | sorted by category code, a permutation of the group, and stable: dishes with the same code keep their input order |
| Menus.WeekChanges | stwno-api/stwno_api/menu_parser.py:172-195 | every change of the week walk satisfies what the group diff promises, is drawn from the two menus and is about one date of the old menu |
| Menus.WeekQuietWhenDaysAgree | stwno-api/stwno_api/menu_parser.py:173-182 | menus that give every old date the same category dict produce no change |
| Menus.WeekIgnoresNewDates | stwno-api/stwno_api/menu_parser.py:176-180 | a new dish on a date the old menu lacks changes nothing in the walk |
| Menus.WeekTotal | stwno-api/stwno_api/menu_parser.py:172-195 | with a group diff that never fails, the week walk never fails |
| MensaMenu.JoinedName | mensabot/mensa_menu.py:41-86 | an aborted scan's `"??"` string is joined into the name `"? ?"` |
| MensaMenu.ParseDish | mensabot/mensa_menu.py:27-50 | fields copied; the column's tags are kept; an aborted scan gives `"? ?"` and `??` tags; a parsed scan adds its tags, empty ones included; the Salatmix cut is applied to the joined name |
| MensaMenu.ParseRow | mensabot/mensa_menu.py:27-50 | rewriting the row field by field yields `ParseDish` |
| MensaMenu.ParseDishTags | mensabot/mensa_menu.py:41-44 | a parsed name's tags are stripped, comma-free pieces or column tags |
| MensaMenu.ParseDishPlain | mensabot/mensa_menu.py:41-94 | a bracket-free name without a tag suffix is only stripped and keeps exactly the column's tags, empty ones included |
| MensaMenu.NewChange | mensabot/mensa_menu.py:101-122 | the constructor succeeds exactly when the sides differ and a MOVE within one category keeps the name; such a MOVE becomes ATTR with a non-empty diff |
| MensaMenu.CompareChangedGroup | mensabot/mensa_menu.py:189-223 | the two passes and the final concatenation compute `CompareGroup` |
| MensaMenu.ComparePass1 | mensabot/mensa_menu.py:195-205 | the first loop computes `OldLoop` |
| MensaMenu.ComparePass2 | mensabot/mensa_menu.py:207-221 | the second loop computes `NewLoop` |
| MensaMenu.CompareSound | mensabot/mensa_menu.py:189-223 | every change of a completed comparison is well kinded and drawn from the old and the new group |
| MensaMenu.CompareFifo | mensabot/mensa_menu.py:205-223 | REPLACEs take the pending removals first in, first out, the rest stay REMOVEs at the end, and an ADD only happens once no removal is pending |
| MensaMenu.CompareFailsIff | mensabot/mensa_menu.py:207-211 | the comparison fails exactly when some new dish trips the MOVE assertion, and then with `AssertionError` |
| MensaMenu.DistinctNamesCompare | mensabot/mensa_menu.py:207-211 | a new group without repeated names never fails |
| MensaMenu.RepeatedNameFails | mensabot/mensa_menu.py:192-211 | one old dish and a new group naming it twice in two other versions makes the comparison raise |
| MensaMenu.DiffChanges | mensabot/mensa_menu.py:158-186 | every change of `generate_diff` is well kinded, drawn from the two menus and about one date of the old menu |
| MensaMenu.DiffDay | mensabot/mensa_menu.py:178-184 | the loop over the changed groups of one date computes the functional walk |
| MensaMenu.GenerateDiff | mensabot/mensa_menu.py:158-186 | the loop over the dates computes the functional week walk with sorted groups |
| DateUtil.EnsureDate | stwno-api/stwno_api/util.py:5-11 | a datetime becomes its date, a date is kept, anything else is a `ValueError`; the result is always a date |
| DateUtil.DayOfMoment | stwno-api/stwno_api/util.py:5-11 | the day of a datetime or date; fails exactly for anything else |
| DateUtil.OrToday | stwno-api/stwno_api/api.py:67 | `day or today`: a missing day or empty text is today's date, a date, a datetime or other text is passed on, and the result is never falsy |
| DateUtil.EnsureDateIdempotent | stwno-api/stwno_api/util.py:5-11 | converting a converted value again changes nothing |
| DayMenu.Rank | stwno-api/stwno_api/api.py:69 | an empty category is an `IndexError`; the rank exists exactly when the first letter is one of `S`, `H`, `B`, `N`, and is its position there; otherwise a `ValueError` |
| DayMenu.ByRankPreorder | stwno-api/stwno_api/api.py:69 | the `(rank, category)` sort key orders dishes by a total preorder |
| DayMenu.FirstUnranked | stwno-api/stwno_api/api.py:69 | the first dish whose key `sorted` cannot compute, or none exactly when every key exists |
| DayMenu.SortByRank | stwno-api/stwno_api/api.py:69 | sorted by the key, a permutation of the day's dishes, and stable: dishes with equal keys keep their input order |
| DayMenu.DedupByNameCovers | stwno-api/stwno_api/api.py:70 | the de-duplication keeps only dishes of the list, and every name of it |
| DayMenu.DedupByNameDistinct | stwno-api/stwno_api/api.py:70 | no two kept dishes share a name |
| DayMenu.DedupByNameKeepsFirst | stwno-api/stwno_api/api.py:70 | the dish kept for a name is the first dish carrying it |
| DayMenu.DedupByNameReorders | stwno-api/stwno_api/api.py:70 | the kept dishes follow the positions of the LAST occurrences: `[a, b, c]` with `a`, `c` of one name gives `[b, a]` |
| DayMenu.MenuOfDayContents | mensabot/mensa.py:95-99 | the day's menu fails exactly when some dish of the day has no rank, with that dish's error; otherwise it holds only dishes of that day, every name of the day once, each the first of its name in the sorted order |
| StwnoApi.GetMenuOfDay | stwno-api/stwno_api/api.py:60-71 | a missing or empty day is today; a value that is neither a date nor a datetime is a `ValueError`; a result holds only dishes of that date from its ISO week, covers every name of the day and repeats none |
| StwnoApi.NextMensaOpen | stwno-api/stwno_api/api.py:162-188 | the loop runs its body once and yields the next opening with the menu of its day, or nothing |
| StwnoApi.NextMensaOpenNoCutoff | stwno-api/stwno_api/api.py:134-188 | with the real opening search the 31-day cut-off never applies: nothing is found exactly when the search finds nothing, otherwise it is the search's opening, under six days ahead, with its day's menu |
| StwnoApi.StoreAsWrittenNeverStores | stwno-api/stwno_api/api.py:240-258 | as written, a changed non-empty week raises `TypeError`, leaves an empty file and is never reported; the next call fails the same way |
| StwnoApi.StoreCorrectedReportsChanges | stwno-api/stwno_api/api.py:240-258 | with the dishes written as CSV, the listeners run exactly when the week changed, the store then holds the fetched week, and the same fetch again reports nothing |
| StwnoApi.StoringApi.Notify | stwno-api/stwno_api/api.py:256-257 | each listener is called once, in order, with the week and both menus; nothing else changes |
| StwnoApi.StoringApi.GetMenuOfWeekAsWritten | stwno-api/stwno_api/api.py:240-258 | the store file, the result and the listener calls follow `StoreAsWritten` |
| StwnoApi.StoringApi.GetMenuOfWeek | stwno-api/stwno_api/api.py:240-258 | returns the fetched week, which the store then holds; the listeners are called exactly when it changed |
| Opening.TimeOf | stwno-api/stwno_api/api.py:150 | the time of day lies in one day |
| Opening.Weekday | stwno-api/stwno_api/api.py:146 | `isoweekday() - 1` lies between 0 and 6 |
| Opening.DayOfShift | stwno-api/stwno_api/api.py:145 | adding `i` days to a moment adds `i` to its day |
| Opening.WeekdayShift | stwno-api/stwno_api/api.py:145-146 | `i` days on, the weekday moves on by `i` modulo 7 |
| Opening.InitialTable | stwno-api/stwno_api/api.py:89 | every (timeframe, weekday) key is present and closed |
| Opening.Timeframe | stwno-api/stwno_api/api.py:32 | "vorlesungszeit" is term time and "vorlesungsfreie zeit" the holidays; nothing else is a timeframe |
| Opening.Range | stwno-api/stwno_api/api.py:108 | `range(first, last)`: exactly the integers from `first` below `last`, in order |
| Opening.ParseDays | stwno-api/stwno_api/api.py:104-115 | an empty cell is all seven days, a day range is the days from first to last inclusive; the row is skipped exactly when the cell is neither a range, nor empty, nor a day name |
| Opening.ParseOneDay | stwno-api/stwno_api/api.py:111-112 | a cell that is one day's abbreviation (and no range) names that day alone |
| Opening.ParseHours | stwno-api/stwno_api/api.py:117-125 | a time range gives its four numbers, "geschlossen" gives midnight to midnight, anything else skips the row |
| Opening.Clock | stwno-api/stwno_api/api.py:126-127 | `dtm.time(h, m)` succeeds exactly for hours up to 23 and minutes up to 59, else `ValueError` |
| Opening.Assign | stwno-api/stwno_api/api.py:129-130 | the slot is set for exactly the listed days of the timeframe, every other entry unchanged |
| Opening.RowStepShape | stwno-api/stwno_api/api.py:92-102 | a row without three cells is skipped; the heading cell, when not empty, becomes the current timeframe; every key stays present |
| Opening.ApplyRowEffect | stwno-api/stwno_api/api.py:99-130 | a row with a known timeframe, days and hours sets those days' slot (or raises `ValueError` for an invalid time); any other row changes nothing |
| Opening.OpeningTableKeys | stwno-api/stwno_api/api.py:89-132 | a parsed table has every key, and the only failure is a `ValueError` |
| Opening.ParseTable | stwno-api/stwno_api/api.py:89-132 | the loop over the rows computes `OpeningTable` |
| Opening.NextOpenFirst | stwno-api/stwno_api/api.py:134-160 | the answer is the first of the next six days that counts (today only while before closing, later days when opening after midnight), with its slot and day; nothing when none of the six does; a failing holiday test is the failure of one of those days |
| CsvText.CodeRun | stwno-api/stwno_api/api.py:56 | the longest run of code characters `[A-Z0-9,; ]` from a position |
| CsvText.CodeListAt | stwno-api/stwno_api/api.py:56 | a match of `\([A-Z0-9,; ]+\)` at the start: an opening bracket, one or more code characters, a closing bracket |
| CsvText.FixSemicolons | stwno-api/stwno_api/api.py:55-56 | the text keeps its length |
| CsvText.FixSemicolonsPointwise | stwno-api/stwno_api/api.py:55-56 | a character becomes `,` exactly when it is a `;` inside a match of `\([A-Z0-9,; ]+\)` (some `(` before it opens a code list reaching it); every other character is kept in place |
| CsvText.FixSemicolonsIdempotent | stwno-api/stwno_api/api.py:55-56 | fixing fixed text changes nothing |
| CsvText.FixSemicolonsExample | stwno-api/stwno_api/api.py:55 | the code list `(G,A;AA)` of the comment is repaired and the `;` after it kept |
| CsvText.FixNewlinesAt | mensabot/mensa.py:65-67 | a newline not followed by a `dd.mm.yyyy;` date becomes a space; every other character is kept |
| CsvText.DateAheadKept | mensabot/mensa.py:67 | the fix does not change where a date starts |
| CsvText.FixNewlinesMeaning | mensabot/mensa.py:65-67 | afterwards every newline starts a dated row, only newlines were changed (into spaces), and fixing again changes nothing |
| Institution.AliasesOf | stwno-api/stwno_api/institution.py:44-48 | `None` is no alias, a single alias is wrapped in a list, a list is kept |
| Institution.MatcherOf | stwno-api/stwno_api/institution.py:53-60 | a matcher exists for every alias except one of an unknown kind |
| Institution.ParseAliases | stwno-api/stwno_api/institution.py:44-61 | one matcher per alias, in order; fails exactly when some alias is of an unknown kind, with the `ValueError` for the first such alias |
| Institution.FindLocation | stwno-api/stwno_api/institution.py:94-104 | the first location answering to the name by its own name or a matcher; `None` exactly when none does |
| Institution.CurrentSemester | stwno-api/stwno_api/institution.py:126 | the last semester in list order that has started by the day; none exactly when none has |
| Institution.IsHolidayMeaning | stwno-api/stwno_api/institution.py:119-129 | fails its assertion exactly when no semester has started; otherwise a holiday exactly when after that semester's end or inside one of its holiday ranges |
| Institution.IsHolidayIgnoresLaterSemesters | stwno-api/stwno_api/institution.py:126 | semesters appended later that start after the day do not change the verdict |
| Mensa.ParsedRowsSound | mensabot/mensa.py:71-72 | every dish read back is the parse of some row whose date cell is not blank |
| Mensa.ParsedRowsComplete | mensabot/mensa.py:71-72 | the parse of every row whose date cell is not blank is read back |
| Mensa.MenuStore.Notify | mensabot/mensa.py:83-84 | each listener is called once, in order, with the week and both menus; nothing else changes |
| Mensa.MenuStore.FetchMenuWeek | mensabot/mensa.py:56-85 | returns the fetched dishes; an unchanged week leaves the store alone and tells nobody; a changed one is stored and every listener is called once; afterwards the store parses to the fetched dishes |
| Mensa.MenuStore.GetMenuWeek | mensabot/mensa.py:39-53 | a cache entry younger than five minutes is returned unchanged; otherwise the week is fetched and cached, and stays fresh for the next five minutes |
| Mensa.MensaTable | mensabot/mensa.py:119-123 | the mensa's hard-coded table has every key |
| Mensa.MensaTimes | mensabot/mensa.py:119-123 | the loop fills Monday to Friday of both timeframes with 11:00 to 14:15 and leaves the rest closed |
| Mensa.OpeningTimes | mensabot/mensa.py:108-173 | the mensa's fixed table for the mensa, any other location's table parsed from its page |
| Mensa.MensaNextOpen | mensabot/mensa.py:179-202 | the shared search, with an `AssertionError` exactly where it finds nothing or the holiday test fails its assertion |
| Mensa.WorkdayAhead | mensabot/mensa.py:188-197 | from any weekday, one to three days ahead is a day from Monday to Friday |
| Mensa.MensaAlwaysOpens | mensabot/mensa.py:119-202 | with the mensa's own table and a holiday test that answers, an opening is always found within three days |
| Mensa.NextMensaOpen | mensabot/mensa.py:205-218 | the loop runs its body once and yields the next opening with its day's menu |
| Mensa.MensaOpenOnceSucceeds | mensabot/mensa.py:205-218 | with the mensa's table, a holiday test that answers and menus that can be fetched, the next opening with its menu is always found, at most three days ahead |
| Mensa.Head | mensabot/mensa.py:239 | a cleaned heading has no space, tab or soft hyphen, and only characters of the original |
| Mensa.HeadIsFirstWord | mensabot/mensa.py:239 | the heading is the text with soft hyphens and tabs removed, up to and without its first space, or all of it when it has none |
| Mensa.SanitizeHeads | mensabot/mensa.py:238-241 | as many headings as strings with a non-empty heading, but at most four, each one plain non-empty word |
| Mensa.SanitizeHeadsAt | mensabot/mensa.py:238-241 | the heading of each string, when it is not empty and fewer than four non-empty headings come before it, is kept at the place that counts those earlier headings: order, completeness and the cut-off |
| Mensa.SanitizeHeadsIdempotent | mensabot/mensa.py:238-241 | cleaning cleaned headings again changes nothing |
| Sorting.SortStable | stwno-api/stwno_api/api.py:69 | the sort is stable: the elements that tie under the key keep their input order |
| Dicts.LastBy | stwno-api/stwno_api/menu_parser.py:199 | `{key(x): x for x in xs}`: a key is present exactly when some element carries it, and maps to an element of the list carrying it |
| Dicts.LastByIsLast | stwno-api/stwno_api/menu_parser.py:199 | the element a key maps to is the last one carrying it |
| Dicts.ValuesInOrder | stwno-api/stwno_api/api.py:70 | the dict's values in first-insertion order of their keys, each the last element with that key |
| Sched.Scheduler.EnterAbs | mensabot/bot/tasks.py:58-91 | `enterabs` appends exactly one job with the given time, priority and call |
| Sched.Scheduler.Enter | mensabot/bot/tasks.py:77 | `enter` appends one job due the delay after the clock reading |
| Chats.NewChat | stwno-bot/stwno_bot/db.py:12-23 | a row created from its id alone has price category 0, no template, locale or push time, change notices off and menu updates on |
| Chats.ChatTable.Update | mensabot/bot/command/config.py:66-68 | an update touches exactly the row with that id and reports one row changed, or none when the id is absent; a change that keeps the id keeps every row under its own id |
| Chats.ChatTable.Insert | mensabot/bot/command/config.py:69-72 | an insert succeeds exactly when the id is free; a taken id is an integrity error that changes nothing; every row stays under its own id |
| Chats.ChatTable.Delete | stwno-bot/stwno_bot/ext.py:80-82 | exactly the row with that id is gone, and every other row stays under its own id |
| Chats.ChatTable.Rekey | stwno-bot/stwno_bot/ext.py:69-71 | the row moves to its new id, unless that id belongs to another row, which is an integrity error that changes nothing; every row stays under its own id |
| Tasks.FloorToInterval | mensabot/bot/tasks.py:42-45 | the current time cut down to a whole minute of the interval: at most one interval earlier, on the same day |
| Tasks.FloorIdempotent | mensabot/bot/tasks.py:44-45 | cutting down a cut-down time changes nothing |
| Tasks.NotifyNow | mensabot/bot/tasks.py:41-45 | a passed time is used as it is, otherwise the cut-down clock |
| Tasks.Later | mensabot/bot/tasks.py:46-51 | one interval on, or one day before the next close when that is more than a day away; always after `now` |
| Tasks.TableRows | mensabot/bot/tasks.py:60-65 | exactly the table's rows |
| Tasks.ByPushTimePreorder | mensabot/bot/tasks.py:64 | ordering by push time is a total preorder |
| Tasks.Due | mensabot/bot/tasks.py:61-65 | exactly the rows whose push time lies in `[now.time(), later.time())`, in ascending push-time order |
| Tasks.SendJobs | mensabot/bot/tasks.py:66-70 | one send per due chat, in order, at priority 100 and at today's push time, each rendered for its own time |
| Tasks.SendJobsAsWritten | mensabot/bot/tasks.py:66-70 | as written, every send is rendered for the LAST chat's notification time, because the lambda binds `row` but not `notify_time` |
| Tasks.ScheduleNotification | mensabot/bot/tasks.py:41-70 | a failing mensa query raises before anything is queued; otherwise the job re-arms itself at `later` with priority 10 and queues the sends of the due chats as written |
| Tasks.SendsExactlyDue | mensabot/bot/tasks.py:61-70 | a chat gets a send exactly when its push time is in the window; the sends are in time order and, within a day, between `now` and `later` |
| Tasks.WindowIsMinute | mensabot/bot/tasks.py:46-63 | for a minute-aligned `now` before the day's last minute, a chat is due exactly when its push time falls in that minute |
| Tasks.LastMinuteSelectsNobody | mensabot/bot/tasks.py:63 | in the day's last minute `later.time()` is past midnight, so nobody is selected |
| Tasks.LateBindingExample | mensabot/bot/tasks.py:66-70 | with two due chats of different push times, the first send as written is rendered for the other chat's time; with the binding intended it is rendered for its own |
| Tasks.LateBindingSameDay | mensabot/bot/tasks.py:66-70 | the late binding only changes the time a send is rendered for, never its run time, priority, chat or day |
| Tasks.ScheduleUpdateMenu | mensabot/bot/tasks.py:75-78 | re-arms itself five minutes on with priority 11, then fetches the current ISO week past the cache, which then holds it |
| Tasks.NextCacheClear | mensabot/bot/tasks.py:83 | tomorrow at 02:00, after now and at most a day and two hours ahead |
| Tasks.ScheduleClearCache | mensabot/bot/tasks.py:81-85 | queues itself for tomorrow 02:00 with priority 1000 |
| Tasks.ScheduleClearMensaNotifications | mensabot/bot/tasks.py:88-98 | a failing query raises and changes nothing; otherwise re-arms one minute after the next close with priority 1000, and drops the remembered menu messages exactly when the menu day changed |
| Tasks.RunSched | mensabot/bot/tasks.py:27-38 | the loop over the scheduler's rounds computes `Run` |
| Tasks.RunStopsOnlyOnInterrupt | mensabot/bot/tasks.py:29-38 | the loop stops exactly on a keyboard interrupt |
| Tasks.RunSleepsAtMostOne | mensabot/bot/tasks.py:32 | every sleep is between 0 and 1 second |
| Tasks.RunIgnoresAfterInterrupt | mensabot/bot/tasks.py:33-36 | nothing after an interrupt runs |
| Tasks.EmptyQueueSpins | mensabot/bot/tasks.py:31-38 | an empty queue makes `min(None, 1)` raise, which is logged, and the loop goes on without sleeping |
| MensaCommand.PriceCategoryOf | mensabot/bot/command/mensa.py:41 | no chat is the students' prices; a chat's category is found exactly for indices -3 to 2 (Python's negative indices), else `IndexError` |
| MensaCommand.SendMenuMessage | mensabot/bot/command/mensa.py:34-45 | the menu is sent exactly when the price category exists, and the message is remembered exactly when the menu is today's |
| MensaCommand.MenuMoment | mensabot/bot/command/mensa.py:18-21 | before 16:00 the current time; from 16:00 on the same time tomorrow |
| MensaCommand.Respond | mensabot/bot/command/mensa.py:15-31 | a parsed date is shown; no date shows the next menu day from `MenuMoment`; a location, or a `ValueError` from the parser, is answered with a hint; any other error escapes |
| MensaCommand.MenuUpdate | mensabot/bot/command/mensa.py:48-55 | the update is sent exactly when its text holds a non-space character, and as it is |
| Parse.RewriteDate | mensabot/parse.py:74-77 | a leading `+` becomes "in ", a leading `-` "vor "; the result never starts with either |
| Parse.RewriteDateIdempotent | mensabot/parse.py:74-77 | rewriting a rewritten text changes nothing |
| Parse.ParseDate | mensabot/parse.py:69-82 | no words is no date; otherwise the joined, rewritten text is parsed, and a text the parser rejects is the `ValueError` "Could not parse date '…'" |
| Parse.Alias | mensabot/parse.py:55-64 | an alias only ever names one of the five locations |
| Parse.ParseLoc | mensabot/parse.py:48-66 | the empty word is no location; a result is one of the five locations |
| Parse.ParseLocIgnoresCase | mensabot/parse.py:53 | lower-casing the word first changes nothing |
| Parse.ParseLocName | mensabot/parse.py:55-64 | every location's own name is an alias of itself |
| Parse.ParseLocCanonical | mensabot/parse.py:48-66 | a found location parses back to itself |
| Parse.ParseLocMensaIsCafete | mensabot/parse.py:57-63 | "mensa" names the mensa cafeteria, while "essen" names the mensa itself |
| Parse.ParseLocDate | mensabot/parse.py:34-45 | a location in the first word wins and the other words are the date; failing that, a location in the last word, with the words before it as the date; failing both, every word is the date; a found location is one of the five |
| Parse.DispatchCases | mensabot/parse.py:36-45 | on a non-empty word list, the same three cases in order: first word a location, else last word a location, else no location with all words as the date |
| Parse.ParseLocDateTrailingLocation | mensabot/parse.py:40-43 | a text ending in a location word, whose first word is no location, takes the words before it as the date |
| Parse.ParseLocDateEmpty | mensabot/parse.py:34-71 | an empty argument is neither a location nor a date |
| Parse.ParseLocDateLeadingLocation | mensabot/parse.py:37-39 | a location in the first word takes the rest as the date |
| Parse.ParseLocDateLocationOnly | mensabot/parse.py:37-39 | a lone location word has no date |
| CmdParse.ParseLocation | stwno-cmds/stwno_cmds/parse.py:45-51 | the empty word is no location; otherwise the lower-cased word is looked up |
| CmdParse.Words | stwno-cmds/stwno_cmds/parse.py:26-27 | a single token holding spaces is split into words; any other list is kept |
| CmdParse.ParseLocationDate | stwno-cmds/stwno_cmds/parse.py:24-42 | no words is neither location nor date; a location in the first word wins with the rest as the date; failing that and with several words, a location in the last word with the words before it as the date; otherwise every word is the date |
| CmdParse.WordsOfSentence | stwno-cmds/stwno_cmds/parse.py:26-27 | a sentence gives the same words whether it arrives whole or split |
| CmdParse.SentenceAsOneToken | stwno-cmds/stwno_cmds/parse.py:24-42 | a whole sentence as one token reads exactly like its words passed separately |
| CmdParse.AgreesWithBotParser | mensabot/parse.py:34-45 | the older bot's `parse_loc_date` is this dispatch with its alias table as the institution |
| Config.CheckPriceCategory | mensabot/bot/command/config.py:11-15 | accepted exactly for "stud", "bed" and "gast", giving the index that names the input; anything else is the `ValueError` of `list.index`, never the unreachable `idx < 0` message |
| Config.CheckLocale | mensabot/bot/command/config.py:18-22 | accepted exactly for "de" and "en", returning the input unchanged; anything else is the `ValueError` of `list.index` |
| Config.CheckNotificationTime | mensabot/bot/command/config.py:25-32 | the "%H:%M:%S" reading wins; "%H:%M" is tried only when it fails; the result is an error exactly when both fail, quoting the input and the second failure's reason |
| Config.Validate | mensabot/bot/command/config.py:35-40 | an option outside the four known ones is a `KeyError` and only then; the other failures are `ValueError`s; price category and locale succeed exactly for their listed values and carry the value that names them; a template succeeds exactly when its menu, opening-times and diff templates all exist; a notification time succeeds exactly when the `%H:%M:%S` or the `%H:%M` format reads it, and carries the time the first format that fits gives |
| Config.Apply | mensabot/bot/command/config.py:63-72 | writing one setting changes exactly that column of the chat row and keeps the id and every other column |
| Config.ApplyIdempotent | mensabot/bot/command/config.py:63-72 | setting the same option twice is the same as once, and settings of different options commute |
| Config.Upsert | mensabot/bot/command/config.py:63-72 | an existing chat gets the setting on its own row; a chat without a row gets a fresh default row with the setting; no other row changes |
| Config.SetConfig | mensabot/bot/command/config.py:43-73 | not exactly two words: a "Could not parse args" reply and no change; unknown option: the "not a valid config option" reply; a rejected value: the validator's message and no change; otherwise "Updated …" and the chat's row upserted with the validated value |
| Config.SetStoresValidated | mensabot/bot/command/config.py:52-72 | after a successful `/set`, the stored locale and template are the words the user typed, and the stored price index names the typed category; the stored push time is the time the validator read |
| Config.BotSetConfig | mensabot/bot.py:181-206 | the older `/set` reads the text with every "/set" removed, stripped and split on spaces; a wrong word count replies with the list's repr; an unknown option escapes as a `KeyError` with no change; a rejected value changes nothing; otherwise the row is upserted and "Updated …" replied |
| MainBot.NextCheck | mensabot/bot.py:214-217 | with a menu the next run is one interval on; without one it is on the day after `later`, keeping only the seconds; either way strictly after `now` |
| MainBot.NoMenuWakesAtMidnight | mensabot/bot.py:216-217 | for a minute-aligned `now` without a menu the next run is at midnight: the next day, or the day after next from the day's last minute |
| MainBot.NoMenuNoSends | mensabot/bot.py:224-230 | without a menu the selection window `[now.time(), later.time())` is empty, so no chat is notified |
| MainBot.BotScheduleNotification | mensabot/bot.py:209-234 | a failing menu query queues nothing; otherwise the job re-arms at `later` with priority 10, followed by one priority-100 send per due chat, in ascending push-time order, at today's date and the chat's push time |
| MainBot.EnterSends | mensabot/bot.py:231-234 | the loop appends exactly the send jobs of the due chats, in order |
| MainBot.BotSendsOwnTime | mensabot/bot.py:232-234 | each queued send is given, as its argument, the very time it is queued for |
| MainBot.NextMondayOneAm | mensabot/bot.py:239 | the re-arm time is a Monday, 01:00, strictly after today and at most a week ahead |
| MainBot.ClearCacheWeekly | mensabot/bot.py:237-241 | from a Monday 01:00 the next clean-up is exactly seven days later |
| MainBot.BotScheduleClearCache | mensabot/bot.py:237-241 | exactly one job is queued: the cache clean-up at the next Monday 01:00 with priority 1000 |
| MainBot.BotMensa | mensabot/bot.py:70-88 | a menu is shown only when the text, with "/mensa" removed and stripped, reads as no location |
| MainBot.BareMensaShowsNextMenu | mensabot/bot.py:72-79 | a bare "/mensa" shows the menu of the next menu day, counted from now or, after 15:59, from tomorrow |
| BotUtil.ChatId | mensabot/bot/util.py:15-20 | a message and an update give their chat's id, an int is itself, and anything else is a `ValueError` quoting it |
| BotUtil.ChatRecord | mensabot/bot/util.py:13-24 | the row of the referenced chat, `None` exactly when the table has no row with that id; a non-int reference is a `ValueError` |
| BotUtil.ChatRecordOfMessage | mensabot/bot/util.py:15-18 | a message, an update carrying it and its chat id all find the same row |
| BotUtil.Cut | mensabot/bot/util.py:31 | removing `text[offset:offset+length]` with Python's slice clamping keeps the prefix before the offset and shifts the rest down; an offset past the end or a zero length changes nothing |
| BotUtil.WithoutCommandsShortens | mensabot/bot/util.py:29-31 | cutting the command entities never lengthens the text |
| BotUtil.WithoutCommandsIgnoresOthers | mensabot/bot/util.py:30 | entities that are not bot commands leave the text unchanged |
| BotUtil.GetArgs | stwno-bot/stwno_bot/util.py:9-14 | the loop cuts each command entity at its original offset, in order, and the result is the stripped text split on single spaces, never an empty list |
| BotUtil.CommandThenWords | mensabot/bot/util.py:27-32 | for a message that starts with its command, the text left is exactly what follows the command |
| BotUtil.WrapCommand | stwno-bot/stwno_bot/util.py:23-35 | a command that returns sends nothing; one that raises gets exactly one apology in its own chat, the network one exactly for `ConnectionError` and `Timeout`, and the same exception is raised again |
| DiffListener.DishOf | stwno-api/stwno_api/menu_parser.py:134-135 | the dish a change is about is its new dish, or its old one when the change is a removal |
| DiffListener.OfDay | mensabot/bot/diff_listener.py:29-33 | a change is kept exactly when its dish is dated on the tracked day; nothing is kept when there is no tracked day; no change is added or duplicated |
| DiffListener.InMenuOrder | mensabot/bot/diff_listener.py:34 | the changes come out as a permutation sorted by (rank of the category's first letter in "S", "H", "B", "N", category code); a category with any other first letter makes the whole call fail; the sort is stable, so changes with equal keys keep their order |
| DiffListener.LePreorder | stwno-bot/stwno_bot/diff_listener.py:32 | the sort key order is total and transitive, so sorting by it is well defined |
| DiffListener.Visit | mensabot/bot/diff_listener.py:38-42 | one registered message sends the diff exactly when its chat wants change notices and has not had one this call, and edits the menu exactly when the chat wants menu updates; the chat joins the dedup set exactly when it was sent the diff |
| DiffListener.Notified | mensabot/bot/diff_listener.py:38-40 | lists exactly the chats that were sent a diff message |
| DiffListener.NotifiedConcat | mensabot/bot/diff_listener.py:36-40 | the chats notified by two runs of deliveries are those of the first followed by those of the second |
| DiffListener.Edits | mensabot/bot/diff_listener.py:41-42 | keeps exactly the menu edits of a run of deliveries |
| DiffListener.OneNoticePerChat | mensabot/bot/diff_listener.py:30-40 | no chat is sent more than one diff message per call, and none that was already in the dedup set |
| DiffListener.NoticeIffWanted | stwno-bot/stwno_bot/diff_listener.py:34-40 | a chat is sent the diff exactly when it has a registered message, a stored row and change notices switched on |
| DiffListener.EditsFor | stwno-bot/stwno_bot/diff_listener.py:41-42 | every edit is for one of the registered messages |
| DiffListener.EditsIndependentOfNotices | mensabot/bot/diff_listener.py:41-42 | the menu edits do not depend on the dedup set: each registered message whose chat wants updates is edited |
| DiffListener.FailsIffChatMissing | mensabot/bot/diff_listener.py:37-38 | the older listener fails with an `AttributeError` exactly when some registered message has no stored chat; when none is missing it delivers what the newer one, which skips such chats, delivers |
| DiffListener.NotifyDiff | stwno-bot/stwno_bot/diff_listener.py:27-42 | a failing diff is passed on; otherwise the reported changes are the tracked day's changes in menu order and the deliveries are the fan-out over all registered messages starting from an empty dedup set |
| DiffListener.FanOutVisit | stwno-bot/stwno_bot/diff_listener.py:34-42 | the fan-out over the remaining messages is the visit of the next one followed by the fan-out of the rest with the updated dedup set |
| DiffListener.Deliver | stwno-bot/stwno_bot/diff_listener.py:34-42 | the loop delivers exactly the fan-out of the registered messages from an empty dedup set |
| DiffListener.OnChange | mensabot/bot/diff_listener.py:45-47 | each menu change queues exactly two jobs, the diff notification and the commit, both due now with priority 150, in that order |
| DiffListener.FanOut | mensabot/bot/diff_listener.py:36-42 | only the older loop, which does not skip a message whose chat has no row, can fail, and then with an `AttributeError` |
| Ext.Pow2 | stwno-bot/stwno_bot/ext.py:59 | the backoff delay `2 ** retries` is at least one second |
| Ext.Classify | stwno-bot/stwno_bot/ext.py:39-84 | first match wins: success and only success succeeds; `Unauthorized` alone deletes the chat before re-raising; only an error outside the handled kinds skips the callback; only `ChatMigrated` switches the chat, retrying after 1 s with the counter dropped; every other retry adds one to the counter; a network error retries after `2 ** retries` s exactly while `retries <= 8` |
| Ext.RateLimitAlwaysRetried | stwno-bot/stwno_bot/ext.py:50-54 | a rate limit is retried after the server's delay with the counter plus one, however many retries came before |
| Ext.BackoffFollowsClassify | stwno-bot/stwno_bot/ext.py:56-65 | a message that keeps failing on the network is retried after each delay of the backoff schedule in turn, each time with the counter one higher, and after the last one the error is passed to the callback and raised |
| Ext.BackoffTotal | stwno-bot/stwno_bot/ext.py:57-59 | from `retries` on there are `9 - retries` backoff retries, and their delays add up to `2 ** 9 - 2 ** retries` seconds |
| Ext.BackoffFromZero | stwno-bot/stwno_bot/ext.py:57-59 | a fresh message is retried at most nine times on network errors, waiting 511 seconds in all |
| Ext.MensaBot.GetUpdates | mensabot/bot/ext.py:20-30 | the last-update time becomes now after a successful poll and, in the older bot, also after a timed-out one; every other failure leaves it |
| Ext.MensaBot.Callback | mensabot/bot/ext.py:38-40 | a given callback is called once with the argument; a missing one is the no-op |
| Ext.MensaBot.SendMessage | stwno-bot/stwno_bot/ext.py:31-84 | carries out the classification: success calls the callback and returns the message; a re-raise calls the callback unless the error is unhandled and deletes the chat row exactly for `Unauthorized`; a retry never calls the callback and appends one priority-120 job after the delay carrying only the chat, the text and the counter, with the chat row moved to the new id on migration |
| Ext.MensaBot.NetworkFailure | stwno-bot/stwno_bot/ext.py:56-65 | while `retries <= 8` one resend is queued after `2 ** retries` s with the counter plus one and no callback; after that the callback gets the error and it is raised with nothing queued |
| Ext.OlderHandlerAsWritten | mensabot/bot/ext.py:5-49 | every failed send ends in a `NameError` with no callback, because `BadRequest` is not imported and the first except clause names it |
| Ext.OlderRateLimitLost | mensabot/bot/ext.py:49-57 | a rate-limited message is lost in the older bot, where the intended classification retries it |
| Ext.NewerHandlerAsWritten | stwno-bot/stwno_bot/ext.py:50-84 | every branch that logs through the undefined `logger` ends in a `NameError` with no callback: all retries and `Unauthorized`; the other branches behave as intended |
| Ext.NewerUnauthorizedKeepsChat | stwno-bot/stwno_bot/ext.py:77-84 | a user who blocked the newer bot keeps their chat row and no callback runs, and a first network timeout is not retried, where the intended handling deletes the row and retries after one second |
| Templates.Args | stwno-cmds/stwno_cmds/template.py:31-32 | a string argument is split on commas, never into an empty list; a list is used as it is |
| Templates.FilterWarengruppe | stwno-cmds/stwno_cmds/template.py:29-33 | keeps exactly the dishes whose category code starts with one of the given prefixes, none more often than the input holds it |
| Templates.WarengruppeInOrder | stwno-cmds/stwno_cmds/template.py:29-33 | keeps the input order: the filter of a concatenation is the concatenation of the filters, and a single dish is kept exactly when it passes the test |
| Templates.FilterWarengruppeNot | stwno-cmds/stwno_cmds/template.py:36-40 | keeps exactly the dishes whose category code starts with none of the given prefixes, none more often than the input holds it |
| Templates.WarengruppeNotInOrder | stwno-cmds/stwno_cmds/template.py:36-40 | keeps the input order: the filter of a concatenation is the concatenation of the filters, and a single dish is kept exactly when it passes the test |
| Templates.FilterKennz | mensabot/format.py:27-31 | keeps exactly the dishes that carry at least one of the given labels, none more often than the input holds it |
| Templates.KennzInOrder | mensabot/format.py:27-31 | keeps the input order: the filter of a concatenation is the concatenation of the filters, and a single dish is kept exactly when it passes the test |
| Templates.FilterKennzNot | mensabot/format.py:34-38 | keeps exactly the dishes that carry none of the given labels, none more often than the input holds it |
| Templates.KennzNotInOrder | mensabot/format.py:34-38 | keeps the input order: the filter of a concatenation is the concatenation of the filters, and a single dish is kept exactly when it passes the test |
| Templates.FilterZusatz | stwno-cmds/stwno_cmds/template.py:57-61 | keeps exactly the dishes that carry at least one of the given additive codes, none more often than the input holds it |
| Templates.ZusatzInOrder | stwno-cmds/stwno_cmds/template.py:57-61 | keeps the input order: the filter of a concatenation is the concatenation of the filters, and a single dish is kept exactly when it passes the test |
| Templates.FilterZusatzNot | stwno-cmds/stwno_cmds/template.py:64-68 | keeps exactly the dishes that carry none of the given additive codes, none more often than the input holds it |
| Templates.ZusatzNotInOrder | stwno-cmds/stwno_cmds/template.py:64-68 | keeps the input order: the filter of a concatenation is the concatenation of the filters, and a single dish is kept exactly when it passes the test |
| Templates.FilterKetchup | stwno-cmds/stwno_cmds/template.py:71-73 | keeps exactly the dishes whose lower-cased name contains one of the ketchup words, none more often than the input holds it |
| Templates.KetchupInOrder | stwno-cmds/stwno_cmds/template.py:71-73 | keeps the input order: the filter of a concatenation is the concatenation of the filters, and a single dish is kept exactly when it passes the test |
| Templates.WarengruppePartition | stwno-cmds/stwno_cmds/template.py:29-40 | a filter and its negation split the dishes: together they hold every dish exactly as often as the input |
| Templates.KennzPartition | stwno-cmds/stwno_cmds/template.py:43-54 | the label filter and its negation split the dishes between them |
| Templates.ZusatzPartition | stwno-cmds/stwno_cmds/template.py:57-68 | the additive filter and its negation split the dishes between them |
| Templates.EmptyGroupKeepsAll | stwno-cmds/stwno_cmds/template.py:31-33 | an empty category argument splits to the empty prefix, which every code starts with, so it keeps every dish and its negation none |
| Templates.RoestiMissedAsWritten | mensabot/format.py:9 | with the older bot's list as written a dish called "Rösti" gets no ketchup |
| Templates.RoestiFound | stwno-cmds/stwno_cmds/template.py:18 | with "rösti" spelt as intended, and in the newer list, a dish called "Rösti" is kept by the ketchup filter |
| Templates.BotListsDifferInOneWord | mensabot/format.py:9 | the corrected list differs from the one as written in the sixth word only |
| Templates.CheckLegalTemplate | stwno-cmds/stwno_cmds/template.py:76-86 | no directory is accepted as none; a directory is accepted, unchanged, exactly when its menu, opening-times and diff templates all exist, and is otherwise a `ValueError` naming it |
| Format.TemplateFor | mensabot/format.py:60-62 | a non-empty template wins; a missing or empty one falls back to the locale |
| Format.SetDefault | stwno-cmds/stwno_cmds/format.py:15-18 | `setdefault` returns an existing value and leaves the map alone, or stores and returns the default |
| Format.ConfigDefaults | stwno-cmds/stwno_cmds/format.py:14-19 | the keys given are kept with their values; exactly locale, template, price category and now are added when missing: "de", the locale, "stud" and the current time |
| Format.ConfigDefaultsIdempotent | stwno-cmds/stwno_cmds/format.py:14-19 | filling in defaults twice, even at a later time, changes nothing the first time did not |
| Format.UserConfigDefaults | stwno-cmds/stwno_cmds/format.py:14-19 | the four `setdefault` steps in turn give exactly the defaulted map |
| Format.MenuArgs | stwno-cmds/stwno_cmds/format.py:24-25 | a missing or empty day is today, a date is kept, a datetime gives its own date, and a missing location is the default canteen; any other day that is neither a date nor a datetime is an error |
| Format.OpeningArgs | stwno-cmds/stwno_cmds/format.py:41-42 | a missing moment is now and a missing location the default cafeteria |
| Format.WeekDays | stwno-cmds/stwno_cmds/format.py:51 | seven moments, the i-th shifted by `i - weekday` days from the given one |
| Format.WeekDaysAreTheWeek | mensabot/format.py:79 | the seven days are Monday to Sunday of the given moment's week, one day apart, at its time of day, and include the moment itself at its weekday |
| Format.WeekSchedule | stwno-cmds/stwno_cmds/format.py:49-51 | one entry per day, holding that day's opening slot for its holiday state and weekday; a failing holiday lookup for any day fails the whole schedule |
| Format.WeekScheduleInOrder | mensabot/format.py:78-79 | for the week of a moment, entry i is the slot of weekday i |

## Left out

- Telegram, HTTP and HTML. Fetching pages and the CSV, BeautifulSoup and the Telegram API itself are not modelled. A table row is given as its list of cell texts, and a send or poll as its outcome.
- Jinja template rendering, babel date formatting and the `get_*_formatted` functions. Only their inputs are modelled: the filters, the defaults, the template choice and the seven days of the week schedule.
- Helpers whose behaviour is given as a parameter:
  - `fuzz.ratio`, `difflib.get_close_matches`, `dateparser.parse`, `strptime`;
  - the `kennz` suffix regular expression search;
  - the template loader.
- Lower-casing is ASCII only. No Unicode case folding is modelled.
- `%r`/`repr` escaping of quotes inside quoted names in messages is not modelled.
- Python set iteration order is modelled as order of first appearance. This covers the set of menu dates, the changed category groups and the fuzzy-match leftovers.
- Database row order is given as a list of ids, where SQL returns rows without an `ORDER BY`.
- The `lru_cache`s and `CachedStwnoApi.clear_cache` are not modelled. The clear-cache jobs are modelled only as queue entries.
- `commit_diff`'s git calls, logging and warnings are not modelled.
- The initial value of `mensa_notification_date`, set at import from a network call, is not modelled. The model starts from any date.
- The order in which Python's `sched` runs jobs is not modelled. The queue is the sequence of entries in enqueue order, and its runs are given as a finite list of outcomes.
- Microseconds, time zones and daylight saving are not modelled. `time.time()` stands for naive local time.
- Floating-point prices are modelled as integer cents.
- The older engine's `Change` has no `dish()` method, so the model uses the newer `dish()` rule: the new dish, else the old one.
- `default_menu_date`, `mensa_cmd.notifications` and `mensa_cmd.notifications_date` are not defined in the source shown. The day whose changes are pushed is therefore a parameter.
- `get_next_menu_date` is imported from `mensabot/mensa.py`, which does not define it, so it is a parameter.
- `check_legal_template` is imported from `mensabot/format.py`, which does not define it. The model uses the stwno-cmds one, with its loader as a parameter.
- The newer `/mensa` hands `get_args`' list to `parse_loc_date`, which splits a string. The model passes the words joined by spaces.
- `send_menu_message` passes `price_category=` to a formatter that takes `price_cat`. Only the price-category lookup and the registry update are modelled.
- `ComHandlerFunc` tests the exception's exact class, so a subclass of `ConnectionError` or `Timeout` falls under the general apology.
  - Handler registration through `dispatcher`, which stwno-bot's `util.py` does not import, is not modelled.
- The older bot's `start`, `cafete`, `abbr` and `version` commands and its main loop are not modelled. They only format text or block in `SCHED.run`.
- Scraping of semester dates and the Easter computation are not modelled. Semesters and holiday ranges are given.
- MainBot.BotMensa: its own contract states only when a menu is shown. The full answer is `MensaCommand.Respond`'s, and the bare command is covered by `MainBot.BareMensaShowsNextMenu`.
- CsvText.FixSemicolons: its own contract states only that the length is kept. The replacement rule is stated by `FixSemicolonsPointwise`.
- The chat table has the columns of stwno-bot's `db.py` for both bots. mensabot's `db.py` has no `push_time`, `notify_change` or `update_menu` column and no `connection`, yet its `bot/tasks.py`, `bot/util.py`, `bot/ext.py` and `bot/diff_listener.py` use them.
- DiffListener.FanOut: its own contract states only when it fails. Its meaning is stated by `OneNoticePerChat`, `NoticeIffWanted`, `EditsIndependentOfNotices` and `FailsIffChatMissing`.

## Findings

| source | as written | input that shows it | evidently intended | confidence | as-written member | corrected member |
|---|---|---|---|---|---|---|
| stwno-api/stwno_api/menu_parser.py:232-233 | `fuzzy_set_match` is a generator, so its early `return` for equal name sets yields nothing | a dish that keeps its name but changes category within the group, or changes price | equal name sets are paired name with name, so the differing dish is reported as ATTR | not executed | FuzzyMatch.EqualSetsYieldNothing, MenuParser.MovedDishUnreported | FuzzyMatch.MatchingIntendedUsesEachName, MenuParser.MovedDishReportedIntended |
| stwno-api/stwno_api/menu_parser.py:204-215 | names are checked for truthiness, so a REMOVE of a dish whose parsed name is empty reaches the final `assert` | an old dish with raw name "(2,3)" that is gone from the new menu | an empty name is a name like any other, and its removal is reported | not executed | MenuParser.EmptyNameRemovalFails | MenuParser.EmptyNameRemovalIntended |
| stwno-api/stwno_api/api.py:253 | `writelines` is given `Dish` tuples, which raises `TypeError` before any listener is called | any fetched week that differs from the stored one | the new week is stored and every listener is told | not executed | StwnoApi.StoreAsWrittenNeverStores, StwnoApi.StoringApi.GetMenuOfWeekAsWritten | StwnoApi.StoreCorrectedReportsChanges, StwnoApi.StoringApi.GetMenuOfWeek |
| mensabot/bot/tasks.py:66-70 | the queued lambda reads `notify_time` when it runs, so every send of one wave is rendered for the last chat's time | two chats due in one window with push times 11:00 and 11:05 | each send is rendered for its own chat's time | not executed | Tasks.SendJobsAsWritten, Tasks.LateBindingExample | Tasks.SendJobs, Tasks.SendsExactlyDue |
| mensabot/format.py:9 | the ketchup word "rösti" is stored as the mis-encoded "r√∂sti" | a dish called "Rösti" | "Rösti" counts as a ketchup dish, as in the newer list | not executed | Templates.RoestiMissedAsWritten | Templates.RoestiFound |
| mensabot/bot/ext.py:5-49 | `BadRequest`, `NetworkError` and `ChatMigrated` are not imported, so evaluating the first except clause raises `NameError` for every failed send | a rate-limited send | the classification: retry after the server's delay | not executed | Ext.OlderHandlerAsWritten, Ext.OlderRateLimitLost | Ext.Classify, Ext.MensaBot.SendMessage |
| stwno-bot/stwno_bot/ext.py:52-78 | `logger`, `SCHED` and `updater` are not defined in the module, so every retry branch and the `Unauthorized` branch raise `NameError` | a user who blocked the bot; a first network timeout | delete the chat's row and re-raise; retry after one second | not executed | Ext.NewerHandlerAsWritten, Ext.NewerUnauthorizedKeepsChat | Ext.Classify, Ext.MensaBot.SendMessage |
