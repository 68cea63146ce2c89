# Exam planner: a verified model of its planning core

The application is a Streamlit page. A student enters their exams, each with a name, an
importance from 1 to 10 and up to five candidate exam dates typed in Italian ("12 luglio
2025"). They also enter the first and last day of the exam session and a minimum number
of days between two exams. When they press "Calcola combinazione ottimale", the page
does the following:

- It parses the two session bounds with `parse_date`.
- For every exam, it parses the non-blank date texts and keeps the dates inside the
  session. It overwrites the exam's `dates` entry with the result.
- It forms every combination of one date per exam with `itertools.product`.
- It keeps the combinations whose dates, once put in ascending order, are at least the
  minimum distance apart from one to the next (`is_valid_combination`).
- It scores each kept combination by summing importances.
- It sorts the scored combinations by descending score and shows the first.

This project models that core in Dafny, module by module. The comment at the head of each
file that models app.py says which of its lines the file follows; results.dfy holds only
the `Option` and `Result` values the other modules share.

- `Calendar` (calendar.dfy) models dates as `datetime` sees them. A `Day` is a real day
  between year 1 and 9999, with leap years. `Ordinal` plays the part of `toordinal()`,
  and `DaysBetween` is `(b - a).days`. `Le` is the field-by-field comparison `<=`, which
  is proved to agree with the ordinal.
- `PyText` (text.dfy) models `str.lower`, `str.strip`, `str.split` and `str.isspace` on
  strings. Several facts are proved, for example that `strip()` never changes a split and
  that leading or trailing whitespace never changes the tokens.
- `DateParser` (date_parser.dfy) models `mesi_italiani` and `parse_date`.
  - `datetime.strptime(s, "%d-%m-%Y")` is modelled as the regular expression that
    Python's `_strptime` module compiles for that format. It is matched with the same
    backtracking order and followed by the "unconverted data remains" check and the range
    checks of the date constructor.
  - Every exception `parse_date` can raise is an error value of `ParseError`.
- `Sequences` (sequences.dfy) holds list comprehensions with an `if` (`Filter`) and a
  comprehension whose element expression can raise (`MapAll`: the first exception stops
  it).
- `CartesianProduct` (product.dfy) models `list(itertools.product(*lists))`, in the order
  `product` yields.
- `Spacing` (spacing.dfy) models `sorted` on dates and `is_valid_combination`. The latter
  is both a predicate and the loop with its early `return False`.
- `Ranking` (ranking.dfy) models `list.sort(key=score, reverse=True)` as a stable sort by
  non-increasing score. It is specified by a function and performed in place on an
  array by an insertion sort.
- `Loading` (loading.dfy) models lines 45-47 on one exam. `Exam` is a class whose
  `dates` field its `LoadDates` method overwrites.
- `Planner` (planner.dfy) holds the rest of the button's code:
  - `LoadExams` is the loop over the exams, built from `LoadUntilFailure` and `LoadNext`.
  - `KeepValid` is the validity filter.
  - `RankCombinations` builds the product, filters it, scores it and sorts it.
  - `Plan` is the whole button, proved equal to the specification function `PlanSpec`.

Some consequences of the code are proved:

- The sum at line 64 runs over `range(len(combo))`, and every combination has one date
  per exam, so every combination gets the same score: the total importance of all exams.
  The sort therefore leaves the valid combinations in product order. The combination
  shown as optimal is the first valid one in product order.
- `parse_date` raises `KeyError` rather than `IndexError` for a two-token text whose
  second token is not a month name, because the month is looked up before the year is
  read.
- `parse_date` reads only `parts[0]`, `parts[1]` and `parts[2]`, so a text with more
  than three tokens is accepted and the extra tokens are ignored
  (`DateParser.ParseDateIgnoresExtraTokens`).

## Model

| member | source | states |
|---|---|---|
| Calendar.IsValidDate | app.py:19 | the triples `date(year, month, day)` accepts: a year from 1 to 9999, a month from 1 to 12 and a day within that month (`DaysInMonth`) |
| Calendar.Le | app.py:47 | `a <= b` on dates, year first, then month, then day; a total order (`LeTotalOrder`) that agrees with the day numbers (`LeIffOrdinalLe`) |
| Calendar.Ordinal | app.py:55 | the day number `toordinal()` gives; strictly increasing (`OrdinalStrictlyMonotone`), injective (`OrdinalInjective`) and one more on the next day (`DaysBetweenNextDay`) |
| Calendar.DaysBetween | app.py:55 | `(b - a).days`, the difference of the day numbers: 1 from a day to the next (`DaysBetweenNextDay`), 0 only between equal days (`OrdinalInjective`) |
| Calendar.LeTotalOrder | app.py:47 | `<=` on dates is reflexive, antisymmetric, transitive and total |
| Calendar.LeIffOrdinalLe | app.py:47 | for real days, `a <= b` exactly when `a`'s day number is at most `b`'s |
| Calendar.OrdinalStrictlyMonotone | app.py:47 | an earlier day has a smaller day number |
| Calendar.OrdinalInjective | app.py:55 | two days with the same day number are the same day |
| Calendar.DaysBetweenNextDay | app.py:55 | the day after a day (next day of the month, or first of the next month or year) is exactly one day later |
| Calendar.DaysBeforeYearStep | app.py:55 | the days before year y+1 are those before y plus the length of y (365, or 366 in a leap year) |
| Calendar.DaysInMonth | app.py:19 | every month has between 28 and 31 days |
| PyText.IsSpace | app.py:15 | the characters `str.isspace()` accepts, which `strip()` cuts and `split()` splits on |
| PyText.Lower | app.py:15 | `lower()` keeps the length and lower-cases each character on its own (ASCII letters); it distributes over concatenation (`LowerConcat`) and leaves text without capitals as it is (`LowerWithoutCapitals`) |
| PyText.Split | app.py:15 | `split()` with no separator: a text starting with a non-blank character gives a first token starting with it; the tokens are non-empty and blank-free (`SplitTokensAreWords`), leading and trailing whitespace change nothing (`SplitAfterSpace`, `SplitBeforeSpace`), blank-joined words come back (`SplitThreeWords`) |
| PyText.Strip | app.py:15 | `strip()` is a slice of the text with only whitespace cut on either side, and it starts and ends with non-whitespace; it is empty exactly when the text is all whitespace |
| PyText.SkipSpace | app.py:15 | the first non-whitespace position at or after `i`, with only whitespace skipped |
| PyText.SkipSpaceBack | app.py:15 | the end of the text before the trailing whitespace, with only whitespace skipped |
| PyText.SplitTokensAreWords | app.py:15 | every token of `split()` is non-empty and holds no whitespace |
| PyText.SplitAfterSpace | app.py:15 | leading whitespace does not change `split()` |
| PyText.SplitBeforeSpace | app.py:15 | trailing whitespace does not change `split()` |
| PyText.SplitJoin | app.py:15 | splitting where whitespace starts splits the two sides apart |
| PyText.SplitOfStrip | app.py:15 | `strip().split()` is `split()` |
| PyText.SplitThreeWords | app.py:15 | three words joined by blanks split back into those three words |
| PyText.LowerWithoutCapitals | app.py:15 | `lower()` leaves text without capitals as it is |
| PyText.LowerConcat | app.py:15 | `lower()` distributes over concatenation |
| DateParser.Tokens | app.py:15 | `lower().strip().split()`: the same tokens whatever whitespace surrounds the text (`TokensIgnoreSurroundingSpace`) and whatever the letter case (`ParseDateIgnoresCase`) |
| DateParser.ParseTokens | app.py:16-19 | the tokens read in the source's order: `parts[0]`, then the month looked up at once, then `parts[2]`, then strptime on `day-code-year`; only three tokens are read (`ParseTokensReadsThree`) and the strptime step is `StrptimeOfPieces` |
| DateParser.Strptime | app.py:19 | `datetime.strptime(s, "%d-%m-%Y")`: the backtracking search, the unconverted-data check, then year and day range checks; characterised by `MatchFacts`, `StrptimeOfPieces` and `BadPiecesRejected` |
| DateParser.ParseDate | app.py:14-19 | `parse_date`: when it succeeds and with what, in both directions (`ParseDateSucceeds`); each error and when it is raised (`ParseDateFailures`); a formatted day parses back to itself (`ParseFormatDate`) |
| DateParser.MonthCodeFacts | app.py:8-12 | each value of `mesi_italiani` is two digits that `%m` matches, reading as a month number 1-12 whose name is the key |
| DateParser.MonthNumber | app.py:17 | the month number of a table key is in 1..12 and names that key |
| DateParser.MonthNameRoundTrip | app.py:8-12 | every month number has a lower-case, blank-free name in the table that maps back to it |
| DateParser.Search | app.py:19 | a successful regular-expression match gives one text per group; each text is matched by its group; together they are the prefix of the input at the match position |
| DateParser.SearchFinds | app.py:19 | a backtracking match exists whenever some choice of group texts spells a prefix of the input |
| DateParser.MatchFacts | app.py:19 | a match of `%d-%m-%Y` reads a day 1-31, a month 1-12 and a four-digit year, separated by dashes |
| DateParser.StrptimeOfPieces | app.py:19 | strptime on `day-code-year` succeeds exactly when day and year are a `%d` and a `%Y` text and the numbers form a real date, and then returns that date |
| DateParser.BadPiecesRejected | app.py:19 | a day or year text that `%d` or `%Y` does not match as a whole is rejected |
| DateParser.ParseDateSucceeds | app.py:14-19 | `parse_date` returns a day exactly when there are at least three tokens, the second a month name, and the first and third a day and year forming a real date; that day is the one returned, and its month is the table's number for the second token |
| DateParser.ParseDateFailures | app.py:15-19 | fewer than two tokens raise IndexError; an unknown month raises KeyError even with the year missing; two tokens with a known month raise IndexError; year 0 and a day past the month's end raise ValueError |
| DateParser.ParseDateIgnoresSurroundingSpace | app.py:15 | whitespace around the text does not change the result |
| DateParser.ParseDateIgnoresCase | app.py:15 | texts that differ only in letter case give the same result |
| DateParser.ParseDateIgnoresExtraTokens | app.py:15-18 | text after the third token that starts with whitespace does not change the result |
| DateParser.ParseTokensReadsThree | app.py:16-18 | no token after the third is read |
| DateParser.ParseFormatDate | app.py:14-19 | every real day written as "dd monthname yyyy" parses back to itself |
| DateParser.ParseDateExampleLuglio | app.py:32 | "12 luglio 2025" is 12 July 2025 |
| DateParser.ParseDateExampleAprile | app.py:19 | "31 aprile 2025" fails: day out of range |
| DateParser.ParseDateExampleFebbraio | app.py:19 | "29 febbraio 2025" fails: day out of range |
| DateParser.ParseDateExampleLeapDay | app.py:19 | "29 febbraio 2024" is 29 February 2024 |
| DateParser.ParseDateExampleMisspelt | app.py:17 | "12 luglie 2025" raises KeyError for "luglie" |
| DateParser.ParseDateExampleNoYear | app.py:18 | "12 luglio" raises IndexError |
| Sequences.Filter | app.py:62 | a comprehension with `if` never yields more than it reads |
| Sequences.FilterMembers | app.py:62 | an element is kept exactly when it is in the list and passes the test |
| Sequences.FilterIsSubsequence | app.py:62 | the kept elements keep their relative order |
| Sequences.FilterCounts | app.py:62 | each kept element is kept as often as it occurs |
| Sequences.FilterFirst | app.py:62 | the first kept element is the first element that passes |
| Sequences.FilterNone | app.py:62 | nothing is kept exactly when nothing passes |
| Sequences.MapAll | app.py:46 | a comprehension that does not raise yields one value per element |
| Sequences.MapAllOk | app.py:46 | it does not raise exactly when no element raises, and then yields each element's value |
| Sequences.MapAllFirstFailure | app.py:46 | otherwise it raises the exception of the first element that raises |
| Sequences.MapAllPrefix | app.py:45 | an exception in a prefix is the exception of the whole; a success of the whole is a success of each prefix |
| Sequences.CountOk | app.py:45 | the number of leading elements that do not raise: all before it succeed, the one at it raises |
| Sequences.MapAllCount | app.py:45 | the whole succeeds exactly when that count is the length; otherwise it raises the error at the count |
| Loading.NotBlank | app.py:46 | the test `d.strip()`: the text is not all whitespace (`PyText.Strip`) |
| Loading.ParseEntries | app.py:46 | `[parse_date(d) for d in ... if d.strip()]`: the non-blank texts parsed in order, or the first error (`ParseEntriesOk`, `ParseEntriesFirstFailure`) |
| Loading.Window | app.py:47 | `[d for d in ... if start_date <= d <= end_date]`: exactly the dates in the session, in order (`WindowMembers`, `WindowOrder`, `WindowBounds`) |
| Loading.Loaded | app.py:46-47 | what lines 46-47 leave in `exam['dates']` or the error they raise: the window of the parsed texts |
| Loading.LoadAll | app.py:45-47 | the loop over all exams: every exam's list or the first exam's error (`LoadAllOk`, `LoadAllFirstFailure`, `LoadAllCount`) |
| Loading.ParseEntriesOk | app.py:46 | blank texts are skipped and nothing else is; the dates are those of the non-blank texts, in order, when all of those parse |
| Loading.ParseEntriesFirstFailure | app.py:46 | a failure is the error of the first non-blank text that does not parse |
| Loading.WindowMembers | app.py:47 | a date is kept exactly when it was parsed and lies between start and end inclusive |
| Loading.WindowOrder | app.py:47 | kept dates keep their order |
| Loading.WindowBounds | app.py:47 | every kept date is no earlier than the start and no later than the end |
| Loading.WindowEmptySession | app.py:47 | a session that ends before it starts keeps nothing |
| Loading.LoadAllOk | app.py:45-47 | loading all exams succeeds exactly when each does, and yields each exam's list |
| Loading.LoadAllFirstFailure | app.py:45-47 | otherwise it fails with the first failing exam's error |
| Loading.LoadedCount | app.py:45-47 | the number of exams loaded before the first that fails |
| Loading.LoadedCountAt | app.py:45-47 | that number is the position of the first failing exam |
| Loading.LoadAllCount | app.py:45-47 | loading all exams succeeds exactly when that number is the number of exams, and otherwise fails with the error at that number |
| Loading.Exam.constructor | app.py:34 | an exam holds its name, importance and date texts, and no dates yet |
| Loading.Exam.LoadDates | app.py:46-47 | on a parse error `dates` is unchanged and the error is returned; otherwise `dates` becomes the in-session parsed dates |
| CartesianProduct.Product | app.py:50 | `list(product(*lists))`: its members (`ProductMembers`), their number (`ProductLength`) and their order (`ProductIndex`, `ProductFirst`) |
| CartesianProduct.ProductLength | app.py:50 | there are as many combinations as the product of the list lengths |
| CartesianProduct.ProductEmpty | app.py:50 | there is no combination exactly when some list is empty |
| CartesianProduct.ProductMembers | app.py:50 | a sequence is a combination exactly when it has one element per list, the i-th from the i-th list |
| CartesianProduct.ProductLengths | app.py:49-50 | every combination has one element per exam |
| CartesianProduct.ProductIndex | app.py:50 | the combinations come in blocks by first element, in the first list's order; inside a block they follow the product of the remaining lists |
| CartesianProduct.ProductFirst | app.py:50 | the first combination takes the first element of every list |
| CartesianProduct.CountZero | app.py:50 | the product of the lengths is 0 exactly when some list is empty |
| Spacing.SortDates | app.py:53 | `sorted(combo)`: ascending and the same dates, each as often (`SortDatesSorts`); the only such arrangement (`SortedUnique`) |
| Spacing.ValidCombination | app.py:52-57 | what `is_valid_combination` returns: consecutive sorted dates at least `min_distance` days apart, which holds exactly when every two dates are (`ValidIffPairwiseApart`) |
| Spacing.SortDatesSorts | app.py:53 | `sorted` returns the same dates, each as often, in ascending order |
| Spacing.SortedUnique | app.py:53 | two ascending sequences with the same dates are equal |
| Spacing.SortDatesOrderFree | app.py:53 | `sorted` depends only on which dates there are |
| Spacing.InsertSorted | app.py:53 | inserting into an ascending sequence keeps it ascending |
| Spacing.IsValidCombination | app.py:52-57 | the loop with early return gives exactly the verdict that the consecutive sorted dates are `min_distance` apart |
| Spacing.ValidIffPairwiseApart | app.py:52-57 | the verdict is true exactly when every two dates of the combination are at least `min_distance` days apart |
| Spacing.SortedSpacedIffApart | app.py:54-56 | along ascending dates, consecutive gaps of at least k hold exactly when all gaps do |
| Spacing.SortDatesApart | app.py:53 | sorting changes no distance between two dates |
| Spacing.ValidOrderFree | app.py:52-57 | the verdict does not depend on the order of the combination |
| Spacing.ValidTrivially | app.py:52-57 | with `min_distance` at most 0, or at most one exam, every combination is valid |
| Ranking.SortByScore | app.py:67 | the stable sort by descending score: non-increasing and a permutation (`SortByScoreSorts`), equal scores in their old order (`SortByScoreStable`) |
| Ranking.InsertByScoreMultiset | app.py:67 | inserting adds exactly the one entry |
| Ranking.InsertByScoreOrdered | app.py:67 | inserting into a non-increasing list keeps it non-increasing |
| Ranking.InsertByScoreStable | app.py:67 | inserting keeps the order of the entries with any one score and puts the new one last |
| Ranking.SortByScoreSorts | app.py:67 | the sort is by non-increasing score and loses or adds no entry |
| Ranking.SortByScoreStable | app.py:67 | entries with the same score keep their relative order |
| Ranking.SortByScoreEqualScores | app.py:67 | when all scores are equal the sort changes nothing |
| Ranking.InsertInPlace | app.py:67 | one insertion step on the array: the prefix becomes the insertion of the next entry, the rest is untouched |
| Ranking.SortByScoreInPlace | app.py:67 | the array is sorted in place into the stable sort by descending score |
| Planner.Describe | app.py:59-60 | each exam's name paired with its date in the combination, in exam order |
| Planner.Score | app.py:63-66 | the sum of the importances of the first `len(combo)` exams; the total importance for every combination (`ScoresAllEqual`) |
| Planner.ScoreAll | app.py:63-66 | `scored_combinations` before the sort: one entry per valid combination, in order, with its description and score |
| Planner.Ranked | app.py:62-67 | `scored_combinations` after the sort: sorted and a permutation (`RankedSorted`), in fact in product order (`RankedInProductOrder`) |
| Planner.PlanSpec | app.py:42-67 | the first error among the session bounds and the exams' texts, or the ranking; `Plan` computes it |
| Planner.ValidCombinations | app.py:62 | each valid combination has one date per exam |
| Planner.ValidCombinationsMembers | app.py:62 | a combination is valid exactly when it takes each exam's date from that exam's list and every two of its dates are `min_distance` apart |
| Planner.ValidCombinationsInOrder | app.py:62 | the valid combinations keep the order of `product` |
| Planner.ScoresAllEqual | app.py:63-66 | every score is the total importance of all exams |
| Planner.RankedInProductOrder | app.py:63-67 | the sort leaves the scored valid combinations in product order |
| Planner.RankedSorted | app.py:67 | the ranking is non-increasing and a permutation of the scored combinations |
| Planner.RankedFirst | app.py:62-67 | the first ranked entry is the first valid combination in product order, with the total importance |
| Planner.RankedEmpty | app.py:62-67 | nothing is ranked exactly when no combination is valid, and so whenever some exam keeps no date |
| Planner.KeepValid | app.py:62 | the loop calling `is_valid_combination` keeps exactly the valid combinations, in order |
| Planner.RankedExample | app.py:62-67 | Math (9) on 12 July, Physics (7) on 20 or 25 July 2025, 3 days apart: both combinations are ranked, both with 16, Physics on 20 July first |
| Planner.RankedExampleTooClose | app.py:52-67 | two exams one day apart with 3 days wanted: nothing is ranked |
| Planner.LoadExams | app.py:45-47 | the loop over the exams returns the loaded lists or the first error; the exams before the failing one have their in-session dates; the failing one and those after it are unchanged |
| Planner.LoadUntilFailure | app.py:45-47 | exams are loaded in turn until one fails: its position, the lists so far, and the dates of each exam |
| Planner.LoadNext | app.py:46-47 | one pass of the loop changes only the current exam's dates |
| Planner.LoadStep | app.py:45-47 | loading one more exam appends its list or fails with its error |
| Planner.LoadedPrefix | app.py:45-47 | each list loaded so far is that of its exam |
| Planner.RankCombinations | app.py:49-67 | product, validity filter, scores and in-place sort give the ranking |
| Planner.Plan | app.py:42-67 | the button returns the error of the first failing parse or the ranking; on a bad session bound no exam changes; otherwise exams before the first bad one hold their in-session dates and the rest are unchanged |

## Left out

- The Streamlit widgets, page set-up and messages (app.py:6, 21-38, 69-77) are user interface. The exams, texts and minimum distance are parameters of `Plan`.
- The `try/except` at app.py:41 and 76-77 is left out. Every exception `parse_date` raises is instead an error value that `Plan` returns.
- The TXT and PDF export (app.py:78-112) is file and library I/O.
- `describe_combination` formats each date with `strftime("%d %B %Y")`, which depends on the locale. `Describe` pairs each exam name with the date itself.
- The result page re-sorts the optimal combination by parsing those texts back (app.py:71). That is display only.
- `lower()` and `isspace()` are modelled on ASCII letters and Python's whitespace characters. Python's full Unicode case mapping is not modelled.
- In strptime's pattern, `\d` is limited to ASCII digits. Python accepts every Unicode decimal digit there.
- The dates are `datetime` values at midnight. The time of day, time zones and `datetime`'s other fields play no part and are not modelled.
- `list.sort` is Timsort. The model's sort is an insertion sort. Both are stable sorts by non-increasing score, and those two properties fix the result.
- Plan: the source keeps an exam's texts and, after line 46, its dates under the same `'dates'` key. The model keeps them in two fields, `entries` and `dates`. Pressing the button again re-runs the whole script with fresh dictionaries, so nothing depends on the shared key.
- Plan, Planner.LoadExams, Planner.LoadUntilFailure, Planner.LoadNext: these require the exams to be distinct objects. The form builds a new dictionary for every exam, so aliasing between exams is not modelled.
- The widgets restrict inputs: importance 1-10, minimum distance at least 0, one to ten exams, one to five dates each. The model accepts any integers and any number of exams and dates.

## Findings

None. The one-score-for-all fact above (`Planner.ScoresAllEqual`) follows from the code as written. Whether the authors meant it cannot be read from the source, so it is stated as a property, not as a defect.
