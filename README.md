# Most active cookie

A model of `most_active_cookie.py`. The program reads a cookie log, one line per
cookie visit written `<cookie>,<YYYY-MM-DD>T<time>`, and prints the cookies that
occur most often on a given day. It has two ways of doing this:

- `most_active_cookie` (the full scan) counts every (cookie, day) pair of the whole log
  in a dict. It keeps the largest count of a pair on the asked day beside it. Then it
  prints the cookies of that day whose count is that largest value. Days are compared
  as text.
- `most_active_cookie_binary_search` assumes the log is sorted newest first. It turns
  each day into an integer key (`int("20181209")`). A binary search finds one line of
  the asked day. Two linear scans, one to the left and one to the right of that line,
  count the cookies of that day. Then it prints the cookies with the largest count.

The log is a sequence of strings: the first CSV field of each row after the header.
Python exceptions are the `Err` case of a `Result`. `IndexError` is raised for a line
without a comma and for the read past the end at line 87. `ValueError` is raised for a
day that `int` cannot convert. A Python dict with its insertion order is a `Counter`:
its keys in insertion order plus a map to the counts.

Modules:

- `LineFormat`: reading one line (the name, the day, the integer key of the day).
- `Counting`: the dict with `max_freq` beside it.
- `CookieLog`: what "most active" means over a whole log, and what "sorted newest
  first" means.
- `BinarySearch`: the binary search, the two scans and the final output loop. Each is a
  method with loops, proved against a recursive specification function.
- `FullScan`: the full scan, proved against two folds over the log.
- `Agreement`: the two searches compared on sorted logs.
- `Fixtures`: the test log of the program and the outputs its test suite expects.

Where the code and the program's stated intent disagree, the model follows the code:

- The intent, stated by the test suite, is that dates like `2018-1-09` are rejected
  with ValueError. The code does no such check: `int('2018109')` succeeds, the binary
  search goes on with that short key, and the full scan compares the text unchanged
  (see Findings). `BinarySearch.MostActiveCookieBinarySearch` models the code;
  `BinarySearch.MostActiveCookieBinarySearchChecked` adds the intended check.
- The intent is that a day not in the log outputs nothing. The binary search
  does raise IndexError when the day is older than every line (see Findings).

## Model

| member | source | states |
|---|---|---|
| LineFormat.BeforeSpec | most_active_cookie.py:35-36 | `Before` (`s.split(c)[0]`): the part before the first separator is a prefix without the separator, ending at the separator or at the end of the string |
| LineFormat.BeforeUnique | most_active_cookie.py:35-36 | that part is the only prefix with this property |
| LineFormat.ParseLine | most_active_cookie.py:34-39 | reading a line raises IndexError exactly when it has no comma (`separated_contents[1]`) |
| LineFormat.ParseLineSpec | most_active_cookie.py:35-39 | a line that reads gives the text before the first comma as the cookie and, as the day, the text after that comma up to the next ',' or 'T' or the end of the line |
| LineFormat.ParseLineOf | most_active_cookie_test.py:175-177 | a line `name,dayTtime` whose name has no comma and whose day has no comma or 'T' reads back as exactly that name and day |
| LineFormat.StripDashesSpec | most_active_cookie.py:53 | `StripDashes` (`''.join(day.split('-'))`) has no dash, is no longer than the day, and leaves a dash-free day unchanged |
| LineFormat.StripDashesAppend | most_active_cookie.py:53 | removing dashes distributes over concatenation |
| LineFormat.Pow10 | most_active_cookie.py:53 | the powers of ten are positive |
| LineFormat.DigitValue | most_active_cookie.py:53 | a digit character denotes a value below 10 (helper for `DigitsValue`) |
| LineFormat.DigitsValue | most_active_cookie.py:53 | the integer a digit string denotes is below 10 to its length |
| LineFormat.AllDigitsAppend | most_active_cookie.py:53 | two digit strings joined are a digit string |
| LineFormat.DigitsValueAppend | most_active_cookie.py:53 | the value of two joined digit strings is the first value shifted by the length of the second, plus the second value |
| LineFormat.DigitsValueInjective | most_active_cookie.py:53 | two digit strings of the same length with the same value are equal |
| LineFormat.DayKey | most_active_cookie.py:53 | `int(''.join(date.split('-')))`: the only error converting a day raises is ValueError |
| LineFormat.CanonicalDigits | most_active_cookie.py:53 | a `YYYY-MM-DD` day without its dashes is year, month and day digits joined |
| LineFormat.CanonicalDayKey | most_active_cookie.py:53 | a `YYYY-MM-DD` day converts, and its key is year*10000 + month*100 + day, so keys compare as dates do |
| LineFormat.DashedDigits | most_active_cookie.py:53 | taking the dashes out of `y-m-d` with digit runs y, m, d leaves y, m and d joined |
| LineFormat.DigitsKeptWhole | most_active_cookie.py:53 | helper: a digit string has no dash to take out |
| LineFormat.Pow10Monotone | most_active_cookie.py:53 | helper: a power of ten grows with its exponent |
| LineFormat.ShortDayKey | most_active_cookie.py:53 | a date `y-m-d` with fewer than eight digits in all (`2018-1-09`, `2018-12-`) still converts without error, to a key below 10000000 |
| LineFormat.DateKey | most_active_cookie_test.py:70-93 | the intended date check: it succeeds exactly on `YYYY-MM-DD` dates, then with the key `DayKey` gives, below 10^8; otherwise it raises ValueError |
| LineFormat.DayKeyInjective | most_active_cookie.py:53 | on `YYYY-MM-DD` days, equal keys mean equal day strings: the integer comparison of the binary search agrees with the string comparison of the full scan |
| LineFormat.ParseEntry | most_active_cookie.py:66-69 | when reading a line as the binary search does raises, the error is IndexError exactly when the line has no comma (ValueError otherwise, from the day) |
| LineFormat.ParseEntryOf | most_active_cookie.py:66-69 | a line `name,dayTtime` whose name has no comma, whose day has no ',' or 'T' and converts, reads back as that name and that day's key |
| Counting.Counter.Bump | most_active_cookie.py:96 | `counter[k] = 1 + counter.get(k, 0)` keeps every listed key counted and every counted key listed |
| Counting.BumpSpec | most_active_cookie.py:96 | after the bump, k's count (`Get`, `d.get(k, 0)`) is one more, every other count is unchanged, k is appended to the keys only when new, and keys stay without repeats |
| Counting.Counter.Select | most_active_cookie.py:128-130 | the selected keys are exactly those with the given count, without repeats when the keys have none |
| Counting.MaxOfSpec | most_active_cookie.py:98-99 | the maximum over a list of keys bounds every count in it and is 0 or attained |
| Counting.MaxCountSpec | most_active_cookie.py:98-99 | the largest value of the dict bounds every count, is 0 or held by a key, and is 0 for the empty dict |
| Counting.Empty | most_active_cookie.py:82-83 | the empty dict counts nothing and its largest value is 0 |
| Counting.MaxCountAfterBump | most_active_cookie.py:96-99 | after a bump the largest value is the old one, or the bumped key's new count when that is larger: this is the `max_freq` update |
| Counting.CountOne | most_active_cookie.py:96-99 | one counting step keeps `max_freq` equal to the largest value of the dict |
| Counting.MaxCountGrows | most_active_cookie.py:98-99 | `max_freq` never falls and is at least the bumped key's count |
| Counting.MaxCountNoMore | most_active_cookie.py:98-99 | `max_freq` rises only to the bumped key's count |
| Counting.AtMaxCount | most_active_cookie.py:128-130 | a key is at the largest value exactly when it is counted and no key is counted more |
| Counting.BumpSequenceExample | most_active_cookie_test.py:148-164 | bump P, P, L: counts {P:1} max 1, then {P:2} max 2, then {P:2, L:1} max 2, keys in insertion order |
| CookieLog.Entries | most_active_cookie.py:58 | the log read line by line has one entry per line |
| CookieLog.EntriesAt | most_active_cookie.py:66-69 | entry i is line i read as the binary search reads it |
| CookieLog.ReadEntry | most_active_cookie.py:66-69 | reading line i gives entry i |
| CookieLog.CanonicalIsWellFormed | most_active_cookie.py:66-69 | a log of `YYYY-MM-DD` lines reads without error |
| CookieLog.KeyCountAppend | most_active_cookie.py:96 | counts of a cookie on a day add up over two halves of the log |
| CookieLog.KeyCountSlice | most_active_cookie.py:82-126 | a part of the log has no more lines of a cookie than the whole |
| CookieLog.KeyCountNone | most_active_cookie.py:92 | a log with no line of the day counts 0 for every cookie |
| CookieLog.SortedAt | most_active_cookie.py:61-79 | helper: in a newest-first log a later line is never newer |
| CookieLog.KeyCountOfRun | most_active_cookie.py:82-126 | when no line of the day lies outside `[lo, hi)`, counting that run counts the whole log |
| CookieLog.DayCountIsKeyCount | most_active_cookie.py:43 | on `YYYY-MM-DD` logs and days, counting by day text (full scan) equals counting by day key (binary search) |
| CookieLog.MostActiveAgree | most_active_cookie.py:43 | on such logs the most active cookies by text and by key are the same |
| BinarySearch.Search | most_active_cookie.py:61-79 | the loop of lines 61-79 as recursion over `[l, r]`: when it raises nothing, it leaves `l` inside `[l, r + 1]` |
| BinarySearch.SearchSpec | most_active_cookie.py:61-79 | the search stops on a line of the target day inside `[l, r]`, or crosses with `l == r + 1` inside `[l, r + 1]`, or raises the error of a line in `[l, r]` |
| BinarySearch.SearchStep | most_active_cookie.py:64-79 | helper: one loop iteration is one step of the recursive search |
| BinarySearch.SearchSorted | most_active_cookie.py:61-79 | on a sorted log the search raises nothing; when the pointers cross, every line before `l` is newer than the day and every line after `r` is older |
| BinarySearch.FindAnchor | most_active_cookie.py:59-79 | the loop ends where the recursive search ends, or raises its error |
| BinarySearch.CountBackward | most_active_cookie.py:86-104 | the dict the left scan builds from a run of lines is a valid dict |
| BinarySearch.CountForward | most_active_cookie.py:107-126 | the dict the right scan extends stays valid |
| BinarySearch.CountBackwardCounts | most_active_cookie.py:86-104 | the left scan's dict counts each cookie once per line of the day in its run, listed once |
| BinarySearch.CountForwardCounts | most_active_cookie.py:107-126 | the right scan adds to each count the cookie's lines of the day in its run, keeps the old keys first, and adds no repeats |
| BinarySearch.RunGrowsLeft | most_active_cookie.py:92-101 | helper: moving `l` left over a line of the day extends the run of the day |
| BinarySearch.RunGrowsRight | most_active_cookie.py:114-123 | helper: moving `r` right over a line of the day extends the run of the day |
| BinarySearch.CountBackwardStep | most_active_cookie.py:92-101 | helper: one left step bumps the cookie of the line just read |
| BinarySearch.CountForwardStep | most_active_cookie.py:114-123 | helper: one right step bumps the cookie of the line just read |
| BinarySearch.ScanLeft | most_active_cookie.py:86-104 | the left scan stops before a line of another day or at the start; it holds the counts of the run `[pos + 1, l]` and `max_freq` as their maximum; or it walked left over lines of the day down to a line whose reading raised, and that line's error is the one raised |
| BinarySearch.LeftFails | most_active_cookie.py:86-90 | a left walk over lines of the day that reaches a line that raises is a failure of the left scan with that line's error |
| BinarySearch.RightFails | most_active_cookie.py:108-112 | a right walk over lines of the day that reaches a line that raises is a failure of the right scan with that line's error |
| BinarySearch.LeftScanCannotFail | most_active_cookie.py:86-104 | a left scan whose first line reads and has another day raises no error |
| BinarySearch.RightScanCannotFail | most_active_cookie.py:107-126 | a right scan whose first line reads and has another day raises no error |
| BinarySearch.LeftScanDone | most_active_cookie.py:86-104 | where the left loop ends, its invariant gives the scan's outcome |
| BinarySearch.RightScanDone | most_active_cookie.py:107-126 | where the right loop ends, its invariant gives the scan's outcome |
| BinarySearch.ScanRight | most_active_cookie.py:107-126 | the right scan from `r + 1` stops at a line of another day or at the end; it adds the counts of that run to the dict and keeps `max_freq` its maximum; or it walked right over lines of the day up to a line whose reading raised, and that line's error is the one raised |
| BinarySearch.EmitTies | most_active_cookie.py:128-130 | the output is the dict's keys at `max_freq` in insertion order: exactly those keys, without repeats |
| BinarySearch.AnchorPastEnd | most_active_cookie.py:59-87 | on a sorted log the search leaves `l` past the last line exactly when every line is newer than the day |
| BinarySearch.RunIsWhole | most_active_cookie.py:92-126 | on a sorted log no line of the day lies before or after a maximal run of it |
| BinarySearch.CountedOccurs | most_active_cookie.py:82-126 | a cookie counted by either scan occurs on the day in the log |
| BinarySearch.RunCountsAreExact | most_active_cookie.py:82-126 | around a found anchor the two scanned runs count each cookie as often as the whole log does |
| BinarySearch.AbsentCountsAreExact | most_active_cookie.py:82-126 | when the day is absent the two scanned runs count 0 like the whole log |
| BinarySearch.CrossedLineIsOlder | most_active_cookie.py:61-79 | on any log, when the search crosses with `l` inside the log, the line at `l` was read and is older than the day |
| BinarySearch.CrossedStopsAtOnce | most_active_cookie.py:61-87 | on any log, after a crossed search the line at `l` (the first read of both scans) reads and has another day |
| BinarySearch.CrossedCountsNothing | most_active_cookie.py:82-126 | on any log, after a crossed search both scans stop at once and every count stays 0 |
| BinarySearch.NothingCounted | most_active_cookie.py:128-130 | a dict that counts nothing outputs nothing |
| BinarySearch.EmitOutcome | most_active_cookie.py:128-130 | after both scans the output cookies occur on the day; none is output after a crossed search; on a sorted log they are exactly the most active cookies |
| BinarySearch.CrossedMeansAbsent | most_active_cookie.py:61-79 | on a sorted log crossed pointers mean no line has the day |
| BinarySearch.SortedScanCounts | most_active_cookie.py:82-126 | on a sorted log the left run `[lo, l]` and the right run `[r + 1, hi)` count each cookie exactly as the whole log does |
| BinarySearch.ScanOutcome | most_active_cookie.py:82-126 | on any log, every cookie with a count after both scans occurs on the day |
| BinarySearch.SortedScanOutcome | most_active_cookie.py:82-126 | on a sorted log, after both scans each cookie's count is its number of lines of the day |
| BinarySearch.TiesAreMostActive | most_active_cookie.py:128-130 | when the dict holds the exact counts, its keys at the largest value are exactly the most active cookies |
| BinarySearch.LeftScanExcludesFailure | most_active_cookie.py:86-104 | a left scan that ended normally did not walk to a line that raises |
| BinarySearch.RightScanExcludesFailure | most_active_cookie.py:107-126 | a right scan that ended normally did not walk to a line that raises |
| BinarySearch.RightScanRaised | most_active_cookie.py:61-126 | when the right scan raises, the log is not sorted and the search did not cross |
| BinarySearch.RightScanQuiet | most_active_cookie.py:107-126 | a right scan that ended normally matches the failure condition: no right walk over lines of the day reaches a line that raises |
| BinarySearch.FailedLeftUnique | most_active_cookie.py:86-90 | a left walk over lines of the day can fail with one error only |
| BinarySearch.FailedRightUnique | most_active_cookie.py:108-112 | a failing right walk fails with one error only |
| BinarySearch.ScanRaisesUnique | most_active_cookie.py:86-126 | the two scans together raise at most one error: the left walk's if it fails, else the right walk's |
| BinarySearch.LeftRaises | most_active_cookie.py:86-90 | a left scan raising is the scans raising, with that error |
| BinarySearch.RightRaises | most_active_cookie.py:107-126 | after a left scan that did not raise, the scans raise exactly when the right scan does, with its error |
| BinarySearch.WellFormedSearchOk | most_active_cookie.py:61-79 | on a log whose lines all read, the search raises nothing |
| BinarySearch.WellFormedScansQuiet | most_active_cookie.py:82-126 | on a log whose lines all read, neither scan raises |
| BinarySearch.EmitAfterScans | most_active_cookie.py:128-130 | after both scans the output has no repeats and only cookies of the day, is empty after a crossed search, and on a sorted log is exactly the most active cookies |
| BinarySearch.CountAroundAnchor | most_active_cookie.py:82-130 | the first left read raises IndexError when `l` is the length of the log; on any log, with `l` inside the log it raises exactly when the left walk, or else the right walk, over lines of the day reaches a line that raises, and with that line's error; a crossed search with `l` inside the log outputs nothing; the output has no repeats and only cookies of the day; on a sorted log it fails exactly when `l` is past the end and otherwise outputs exactly the most active cookies |
| BinarySearch.CountRightAndEmit | most_active_cookie.py:106-130 | after the left scan, the right scan raises exactly when its walk over lines of the day reaches a line that raises, with that line's error; otherwise the output loop outputs nothing when the search crossed (on any log), only cookies of the day without repeats, and the most active cookies on a sorted log |
| BinarySearch.MostActiveCookieBinarySearch | most_active_cookie.py:52-130 | a day that does not convert raises ValueError; a search that reads a line that raises raises that error; otherwise, on any log, it raises IndexError when `l` ends past the last line, and with `l` inside the log raises exactly when a scan walks over lines of the day to a line that raises, with that line's error; a crossed search with `l` inside the log outputs nothing; on a log whose lines all read it raises exactly when `l` ends past the last line; the output has no repeats and only cookies of the day; on a sorted log it raises (IndexError) exactly when every line is newer than the day, and otherwise outputs exactly the most active cookies |
| BinarySearch.AllNewerCountsNothing | most_active_cookie.py:82-87 | a log whose lines are all newer than the day counts 0 for every cookie on it |
| BinarySearch.MostActiveCookieBinarySearchChecked | most_active_cookie.py:52-130 | with the intended date check, a date not written `YYYY-MM-DD` raises ValueError; with the read past the end guarded, `l` past the end or a crossed search outputs nothing on any log; the search's and the scans' errors are raised exactly as in the code; a log whose lines all read never raises; on a sorted log the output is exactly the most active cookies of the day |
| FullScan.Tabulate | most_active_cookie.py:33-41 | the dict after counting a log is a valid dict |
| FullScan.TabulateCount | most_active_cookie.py:41 | the dict counts each (cookie, day) pair once per line that reads as that pair |
| FullScan.TabulateDistinct | most_active_cookie.py:41 | the dict lists each pair once |
| FullScan.DayMaxBound | most_active_cookie.py:43-44 | `DayMax`, the `max_freq` of lines 43-44 as a fold over the log: no cookie has more lines on the asked day than `max_freq` |
| FullScan.DayMaxAttained | most_active_cookie.py:43-44 | `max_freq` is 0 or the number of lines some cookie has on the asked day |
| FullScan.CountedDone | most_active_cookie.py:33-44 | the two folds give the counts, the single listing and the maximum of the day |
| FullScan.TabulateStep | most_active_cookie.py:41-44 | helper: one loop iteration extends both folds by one line |
| FullScan.CountPairs | most_active_cookie.py:33-44 | the counting loop raises IndexError exactly when some line has no comma; otherwise the dict holds every pair's number of lines, listed once, and `max_freq` is the largest count on the day, attained or 0 |
| FullScan.DayTies | most_active_cookie.py:47-49 | the output names are exactly the cookies of pairs of the day at the given count, without repeats |
| FullScan.EmitDay | most_active_cookie.py:47-49 | the output loop gives the pairs of the day at `max_freq` in insertion order |
| FullScan.DayTiesAreMostActive | most_active_cookie.py:43-49 | once the log is counted, the output names are exactly the most active cookies of the day |
| FullScan.MostActiveCookie | most_active_cookie.py:25-49 | raises IndexError exactly when some line has no comma; otherwise outputs each most active cookie of the day once and nothing else, on any log, sorted or not |
| Agreement.SearchesAgree | most_active_cookie.py:25-130 | on a sorted `YYYY-MM-DD` log and day, the full scan succeeds; the binary search outputs the same cookies, or raises IndexError only when the full scan outputs nothing |
| Agreement.CheckedSearchesAgree | most_active_cookie.py:25-130 | with the guard, the binary search and the full scan output the same cookies on every sorted log whose days, and the asked date, are written `YYYY-MM-DD` |
| Fixtures.TwoDigits | most_active_cookie.py:53 | a two-digit string has the value its digits denote |
| Fixtures.FourDigits | most_active_cookie.py:53 | a four-digit string has the value its digits denote |
| Fixtures.DayKeyDigits | most_active_cookie.py:53 | the key of a `YYYY-MM-DD` day computed digit by digit |
| Fixtures.Day9 | most_active_cookie.py:53 | "2018-12-09" is a `YYYY-MM-DD` day with key 20181209 |
| Fixtures.Day8 | most_active_cookie.py:53 | "2018-12-08" has key 20181208 |
| Fixtures.Day7 | most_active_cookie.py:53 | "2018-12-07" has key 20181207 |
| Fixtures.Day1 | most_active_cookie.py:53 | "2018-12-01" has key 20181201 |
| Fixtures.Day23 | most_active_cookie.py:53 | "2023-01-01" has key 20230101 |
| Fixtures.FixtureAnchors | most_active_cookie.py:59-79 | on the test log the search stops on line 3 for 2018-12-09 and on line 5 for 2018-12-08, and crosses before line 0 for 2023-01-01 |
| Fixtures.KeyCountPrefix | most_active_cookie.py:96 | helper: counting one more line of the log adds that line's hit |
| Fixtures.KeyCountOfEight | most_active_cookie.py:5-15 | the count over the eight test lines is the sum of their hits |
| Fixtures.CookiesDiffer | most_active_cookie.py:5-15 | the five cookies of the test log are different names |
| Fixtures.FixtureMostActive | most_active_cookie_test.py:201-217 | on the test log the most active cookie of 2018-12-09 is only AtY0laUfhglK3lC7; those of 2018-12-08 are the three tied cookies; 2023-01-01 has none |
| Fixtures.LineReads | most_active_cookie_test.py:175-177 | a generator-shaped line reads as its name, its day and the day's key |
| Fixtures.NamesWithoutCommaAS | most_active_cookie.py:5-15 | two of the test cookies contain no comma |
| Fixtures.NamesWithoutCommaUMF | most_active_cookie.py:5-15 | the other three test cookies contain no comma |
| Fixtures.LineAt | most_active_cookie.py:5-15 | a test line reads as its entry and has a `YYYY-MM-DD` day |
| Fixtures.FixtureSorted | most_active_cookie.py:5-15 | the test log is sorted newest first |
| Fixtures.FixtureLog | most_active_cookie.py:5-15 | the test log reads as the expected eight entries, is `YYYY-MM-DD` throughout, and is sorted newest first |
| Fixtures.OnlyMember | most_active_cookie_test.py:203 | a list without repeats whose only member is a is `[a]` |
| Fixtures.FixtureDay9 | most_active_cookie_test.py:266-269 | both searches print exactly `AtY0laUfhglK3lC7` for 2018-12-09 on the test log |
| Fixtures.FixtureDay8 | most_active_cookie_test.py:271-278 | both searches print exactly the three tied cookies for 2018-12-08, in some order |
| Fixtures.FixtureDay23 | most_active_cookie.py:52-130 | both searches print nothing for 2023-01-01, newer than every test line |
| Fixtures.FixtureNewerThan | most_active_cookie.py:5-15 | every test line is newer than any key below 20181207, the oldest day of the log |
| Fixtures.FixtureOlder | most_active_cookie.py:5-15 | every test line is newer than 2018-12-01, so no cookie is active that day |
| Fixtures.FixtureOlderDay | most_active_cookie.py:82-87 | for 2018-12-01 the binary search as written raises IndexError, while the full scan and the guarded search print nothing |
| Fixtures.MalformedDay | most_active_cookie_test.py:75-93 | each of the four malformed test dates converts with `DayKey` to a key below 10000000, while the intended `DateKey` raises ValueError on it |
| Fixtures.FixtureMalformedDay | most_active_cookie_test.py:75-93 | on the test log, for each of the four malformed test dates the binary search as written raises IndexError (not the ValueError the test expects), and the search with the intended date check raises ValueError |

## Findings

| source | as written | input that shows it | evidently intended | confidence | as-written member | corrected member |
|---|---|---|---|---|---|---|
| most_active_cookie.py:82-87 | when the asked day is older than every line, the search loop ends with `l == len(csv_data)`, and the left scan's first read `csv_data[l]` raises IndexError | the test log of lines 7-14 with `-d 2018-12-01` | print nothing, as the full scan does and as for a day newer than every line | high, by proof; not executed | Fixtures.FixtureOlderDay | BinarySearch.MostActiveCookieBinarySearchChecked |
| most_active_cookie.py:53 | the date is converted with `int(''.join(date.split('-')))` and never checked, so `2018-12-0`, `2018-12-`, `201-12-09` and `2018-1-09` give keys 2018120, 201812, 2011209 and 2018109, older than every line; the search then leaves `l` past the end and line 87 raises IndexError | the test log of lines 7-14 with any of those four dates (most_active_cookie_test.py:75-93 expects ValueError) | raise ValueError for a date not written `YYYY-MM-DD` | medium, by proof, assuming the test's `cookie_log.csv` holds the lines 7-14; not executed | Fixtures.FixtureMalformedDay | LineFormat.DateKey |

The read past the end at line 87 also happens on an empty log. There the search loop
does not run, `l` is 0, and `csv_data[0]` raises. `BinarySearch.MostActiveCookieBinarySearch`
models the code as written, and `Agreement.SearchesAgree` states the exception.
`BinarySearch.MostActiveCookieBinarySearchChecked` returns an empty output in that case.
`Agreement.CheckedSearchesAgree` proves that it then agrees with the full scan on every
sorted log whose days, and the asked date, are written `YYYY-MM-DD`.

## Left out

- File I/O, `csv.reader` and the header skip (`next(csv_reader)`): the log is given as
  the sequence of first CSV fields after the header. On an unquoted two-column file that
  field has no comma, and reading it raises IndexError, which the model covers.
- Printing: each search returns its output list instead of printing it. The order is
  stated in `BinarySearch.EmitTies` and `FullScan.EmitDay` as the dict's insertion order.
- `main`, `argparse`, `create_csv_file` and the `data` table: command-line handling and
  writing the test file. The `data` table appears only as the `Fixtures` test log.
- `cookie_log_generator.py` is not part of this model. It produces the generator-shaped
  lines that `Fixtures.Line` writes out.
- The `Cookie_Finder` class that the test suite exercises (`frequency_update`,
  `find_cookie_name_and_date`, `binary_search` returning `(left, right)` or `(-1, -1)`)
  is not in the modelled file. Its tests are cited only where the program's own
  functions behave the same way.
- The `more_cookie_log.csv` test case (2023-10-05): that file is not part of this model.
- LineFormat.DayKey: Python's `int` also accepts a leading sign, surrounding whitespace,
  underscores between digits and non-ASCII digits. The model converts only non-empty
  ASCII digit strings and treats every other string as ValueError. In the other
  direction, Python's limit on integer string conversion (4300 digits by default)
  makes `int` raise ValueError on a longer digit string, which `DayKey` converts.
- BinarySearch.MostActiveCookieBinarySearch: states its output as a set without repeats.
  The order (dict insertion order) is stated only in `BinarySearch.EmitTies`.
- BinarySearch.MostActiveCookieBinarySearch: on an unsorted log where the search stops on
  a line of the day and nothing raises, states only that every output cookie occurs on
  the day. The exact output then depends on where the search lands and which runs of the
  day the scans reach. A crossed search is stated exactly on any log, and when the call
  raises, and with which error, is stated exactly on any log.
- FullScan.MostActiveCookie: states its output as a set without repeats. The order is
  stated only in `FullScan.EmitDay`.
- Agreement.SearchesAgree: holds only on logs and days of the `YYYY-MM-DD` shape. On
  other shapes the two searches can disagree: the full scan compares text and the binary
  search compares integer keys, so `2018-12-09` and `20181209` share a key.
- Agreement.CheckedSearchesAgree: holds only on logs and dates of the `YYYY-MM-DD` shape
  too. The date check does not cover the log: on the one-line log
  `name,20181209T<time>` with the date `2018-12-09`, the guarded search outputs `name`
  and the full scan outputs nothing.
- The comment at lines 62-64 about integer overflow: Python integers do not overflow, and
  the model's midpoint `l + (r - l) / 2` uses unbounded integers too.
