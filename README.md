# Korean national-park lodge monitor, modelled in Dafny

`monitor_all.py` watches the reservation calendar of the Korea National Park
Service's eco-lodges (생활관). For each of nine parks, it reads the September and
October 2025 calendar pages as plain text. From that text it picks out the
Friday and Saturday nights that still have rooms left. Then, unless no park
could be checked, it sends one Telegram report: either a short status message, or a detailed list of the parks, their
months and the free dates. The class `ComprehensiveParkMonitor` holds the
configuration and these operations.

This project models the part of that class that turns text into decisions:

- **the page parser** `parse_weekend_availability`. This is `re.findall` with
  its fixed pattern. Each match is read with `int()`, checked with
  `datetime(...)` and `weekday()`, filtered to the monitored weekdays with
  lodging left, labelled, and formatted as `YYYY-MM-DD`;
- **the report** `send_comprehensive_report`. This covers which parks are
  listed, which message is chosen, and the exact text of the message;
- **the month arithmetic of `navigate_to_month`**. This covers which month the
  calendar header is taken to show, and how many "next" or "previous" presses
  are made;
- **the configuration** set by the constructor.

Modules:

- `Decimal` models `int()` on digit strings, `str()` of a natural number and
  the `:02d` format.
- `Calendar` models `datetime`'s proleptic Gregorian calendar: valid dates,
  ordinals and `weekday()`.
- `Pattern` models `re.findall` for the parser's pattern.
- `Availability` models what the parser makes of the matches.
- `Report` models the report's filter and message text.
- `Navigation` models the month detection and the number of button presses.
- `Monitor` is the class itself. Its two state-free methods mirror the
  source's loops and are proved equal to the functions above.

Python dictionaries are sequences of (key, value) pairs in insertion order,
which is the order Python iterates them in. The check time
(`datetime.now().strftime(...)`) is a string parameter.

## Model

| member | source | states |
|---|---|---|
| Monitor.ComprehensiveParkMonitor.constructor | monitor_all.py:22-39 | the page URL, target year 2025, target months 9 and 10, monitored weekdays Friday (4) and Saturday (5), and the nine parks with their codes in listing order |
| Monitor.ComprehensiveParkMonitor.ParseWeekendAvailability | monitor_all.py:114-141 | the parser returns exactly the records of the matches `findall` finds, in page order; every record is a weekend record of the target year and month with lodging left; there is at most one record per match; every match's groups are numeric, so `int()` succeeds |
| Monitor.ReadMatches | monitor_all.py:122-139 | the loop over the matches builds the same list as `WeekendRecords`, one match at a time |
| Monitor.ComprehensiveParkMonitor.SendComprehensiveReport | monitor_all.py:209-263 | the message handed to the sender is `ReportMessage`: none for empty results, the status message when no park has a date, otherwise the detailed report |
| Monitor.SelectAvailableParks | monitor_all.py:214-224 | the filtering loop with its early `break` selects exactly `AvailableParks` |
| Monitor.AppendParkSection | monitor_all.py:245-255 | one pass of the park loop appends the park's heading, its months and a blank line |
| Monitor.AppendMonths | monitor_all.py:248-254 | the month loop appends every month's block in order |
| Monitor.AppendMonthBlock | monitor_all.py:249-254 | a month with dates appends its count line and one line per date in order; a month without dates appends "주말 예약 불가" |
| Pattern.MatchAt | monitor_all.py:119 | one attempt of the pattern at a position: a match, if any, starts there and ends within the text |
| Pattern.FindAll | monitor_all.py:120 | `re.findall` from a position: there are at most as many matches as characters left |
| Pattern.MatchAtSound | monitor_all.py:119 | whatever the matcher returns at a position is a match of the pattern there |
| Pattern.MatchAtComplete | monitor_all.py:119 | whenever the pattern matches at a position, the matcher finds exactly that match; the day group is unique because `\d{1,2}` is followed by a newline |
| Pattern.MatchesAtRendered | monitor_all.py:119 | the pattern matches at `i` with given groups exactly when the text there is the day, newline, glyph, "\n생활관 : 잔여 ", count and " 개" |
| Pattern.FindAllSound | monitor_all.py:120 | every match `findall` returns is a match of the pattern at its start |
| Pattern.ScanInOrder | monitor_all.py:120 | matches lie inside the text, come in order and do not overlap |
| Pattern.ScanFromAttempts | monitor_all.py:120 | each returned match is the match attempted at its own start position |
| Pattern.ScanResumes | monitor_all.py:120 | scanning resumes after each match: from any later position, either that position lies inside a returned match or the rest of the results is the scan from there |
| Pattern.FindAllLeftmost | monitor_all.py:120 | no cell is missed: any place where the pattern matches lies within some returned match |
| Pattern.CellRoundTrip | monitor_all.py:119-120 | a single calendar cell's text yields exactly one match, which carries back its day, glyph and count |
| Pattern.UnanchoredDay | monitor_all.py:119-120 | a digit right before a two-digit day is not absorbed: the match starts at the day, one character in |
| Pattern.DigitRunExact | monitor_all.py:119 | a greedy run of digits stops exactly at the first non-digit or at its bound |
| Decimal.ParseDecimalString | monitor_all.py:123-124 | `int(str(n)) == n` |
| Decimal.ZeroPad2RoundTrip | monitor_all.py:136 | `int(f"{n:02d}") == n`, and the text is two characters exactly when `n < 100` |
| Decimal.DecimalStringLength | monitor_all.py:136 | for every `k >= 2`, `str(n)` has at least `k` digits exactly when `n >= 10^(k-1)` |
| Decimal.ParseDecimal | monitor_all.py:123-124 | `int()` of a non-empty ASCII digit string ("" reads as 0, where `int("")` would raise; both groups of a match are non-empty, so the parser never passes ""); a `k`-digit string reads as less than `10^k` |
| Decimal.DecimalString | monitor_all.py:136 | `str(n)`: a non-empty digit string with no leading zero unless it is "0" |
| Decimal.ZeroPad2 | monitor_all.py:136 | `f"{n:02d}"`: a digit string (its read-back is `ZeroPad2RoundTrip`) |
| Calendar.IsValidDate | monitor_all.py:126-130 | the triples `datetime(year, month, day)` accepts: year 1 to 9999, month 1 to 12, day 1 to the month's length with the Gregorian leap rule; any other triple raises `ValueError` |
| Calendar.Weekday | monitor_all.py:128 | `weekday()`: Monday 0 to Sunday 6, from the day count since 0001-01-01 |
| Calendar.NextDateOrdinal | monitor_all.py:127-128 | the day after a valid date other than 9999-12-31 is valid, and its ordinal is one more |
| Calendar.NextDateWeekday | monitor_all.py:127-128 | consecutive days have consecutive weekdays, modulo 7 |
| Calendar.DaysBeforeYearStep | monitor_all.py:127-128 | the day count of year `y + 1` starts where year `y` ends, for leap years and common years alike |
| Calendar.FirstDayIsMonday | monitor_all.py:128 | 0001-01-01 is a Monday, as in `datetime` |
| Calendar.FirstMonitoredWeekend | monitor_all.py:128 | 2025-09-05 is a Friday, 09-06 a Saturday and 09-07 a Sunday |
| Availability.Classify | monitor_all.py:122-139 | one match gives a record exactly when its day makes a valid date of the month, that date is a monitored weekday, and the remaining count is positive; the record's date reads back as (year, month, day) and its count is the captured count |
| Availability.WeekdayLabel | monitor_all.py:134 | the label is "금요일" exactly for weekday 4, and "토요일" otherwise |
| Availability.DateString | monitor_all.py:136 | `f"{year}-{month:02d}-{day:02d}"` |
| Availability.DateRoundTrip | monitor_all.py:136 | the record's date text reads back as the year, month and day it was written from |
| Availability.DateStringLength | monitor_all.py:136 | in a four-digit year the date text is always ten characters |
| Availability.RecordDateLength | monitor_all.py:136 | every record of a four-digit year carries its date as ten characters, "YYYY-MM-DD" |
| Availability.RecordsStep | monitor_all.py:122-139 | reading one more match appends that match's record, if it has one |
| Availability.RecordsAreWeekendRecords | monitor_all.py:133-139 | every record's date is the "Y-MM-DD" text of a valid day of the month, on a monitored weekday, with the matching label and at least one room left |
| Availability.WeekendRecords | monitor_all.py:122-139 | the records of a run of matches, in match order; never more records than matches |
| Availability.RecordsOfConcat | monitor_all.py:122 | matches are handled one by one and in order: the records of two runs of matches are concatenated, never merged |
| Availability.SkippedMatch | monitor_all.py:126-130 | a match whose date does not exist is skipped with `continue`, and the matches after it are still read |
| Availability.GlyphIgnored | monitor_all.py:122-134 | the weekday glyph on the page never affects the records; the weekday is computed from the date |
| Availability.SaturdayLabelled | monitor_all.py:133-134 | with Friday and Saturday monitored, a record is labelled Saturday exactly when its date is a Saturday, and Friday exactly when it is a Friday |
| Availability.FoundGroupsNumeric | monitor_all.py:119-124 | both groups of every match are digit strings, so neither `int()` call can fail |
| Availability.WrongGlyphCellFound | monitor_all.py:119-120 | a cell for the 5th showing the Wednesday glyph "수" is still matched |
| Availability.WrongGlyphCellIsFriday | monitor_all.py:126-139 | that cell, read for September 2025, gives the record "2025-09-05", Friday, 2 rooms |
| Report.AvailableParksExact | monitor_all.py:214-224 | a park is listed exactly when it is in the results and has a month with at least one date |
| Report.AvailableParksOfConcat | monitor_all.py:216-224 | the filter keeps the parks' order; it distributes over concatenation |
| Report.AvailableParks | monitor_all.py:214-224 | `available_parks`: never more parks than in the results, and each one listed has a month with a date |
| Report.ReportMessage | monitor_all.py:209-263 | the message handed to the sender; nothing is sent exactly when the results are empty |
| Report.DateLine | monitor_all.py:252 | `    • {date} ({weekday}) - 잔여 {remaining}개`, one line per date |
| Report.StatusWhenNothingAvailable | monitor_all.py:226-236 | when there are results but no park has a date, the status message is sent |
| Report.DateListed | monitor_all.py:245-252 | every date of every month of every park in the results appears as its "• date (weekday) - 잔여 n개" line in the message |
| Report.ParkListed | monitor_all.py:245-246 | every park with availability appears with its heading line in the message |
| Report.MonthListed | monitor_all.py:248-254 | every month of such a park appears in the message, as its count line if it has dates and as "주말 예약 불가" if not |
| Report.ConcatMapPiece | monitor_all.py:245-254 | each element's piece stands in the joined text right after the pieces of the elements before it |
| Navigation.CurrentMonth | monitor_all.py:85-93 | the month read from the header is always one of 8 to 11 |
| Navigation.Clicks | monitor_all.py:95-106 | the presses take the calendar from the current month to the target, and never press both buttons |
| Navigation.NavigationClicks | monitor_all.py:85-106 | the presses made for a header and a target: they take the month the header shows to the target, `max(0, target - current)` forward and `max(0, current - target)` back |
| Navigation.ClicksMinimal | monitor_all.py:95-106 | the presses are `max(0, target - current)` forward and `max(0, current - target)` back; no other combination reaching the target uses fewer presses of either button |
| Navigation.CurrentMonthOfHeader | monitor_all.py:85-93 | a header "…MM월" whose text before the marker has no "월" is read as month MM when MM is 8 to 11, and as 9 otherwise |
| Navigation.MarkerFound | monitor_all.py:86-92 | such a header contains the marker "MM월" of month `k` exactly when it shows month `k` |
| Navigation.UnlistedMonthReadAsSeptember | monitor_all.py:85-93 | a header showing July ("2025년 07월") is read as September |

## Left out

- The Selenium work is outside the model: `setup_driver`, `check_park_availability` and `check_all_parks`. They drive a headless browser. The calendar page text and the results dictionary they produce enter the model as parameters.
- `navigate_to_month` is modelled only for its month detection and press counts. Finding the header element, pressing the buttons, the two-second sleeps and the `except` that returns False are browser work.
- `send_telegram_message` is not modelled. It is an HTTP call. `SendComprehensiveReport` returns the message it would send, or None where the source returns False without sending. The boolean result of the send is not modelled.
- The bot token and chat id at `monitor_all.py:42-45` are not part of this model.
- `datetime.now().strftime(...)` is a clock read. The formatted time is the `checkedAt` parameter.
- `run_continuous_monitoring` and `main` are not modelled. They are an endless loop, console input and output, and sleeps.
- Pattern: `\d` is read as the ASCII digits 0-9. Python's `\d` and `int()` also accept other Unicode decimal digits.
- Monitor.ComprehensiveParkMonitor.ParseWeekendAvailability: the broad `except Exception` at `monitor_all.py:143-145` is not modelled. The model proves that every match's groups are digit strings, so `int()` cannot fail. An invalid date is caught by the inner `except ValueError`, which the model handles as a skipped match.
- Availability.WeekdayLabel: any kept weekday other than 4 is labelled "토요일". This is harmless only because the monitored weekdays are Friday and Saturday, which `SaturdayLabelled` states.
- `github_monitor.py` is not part of this model. It is a GitHub Actions workflow, in YAML, that runs `github_actions_monitor_with_state.py` every ten minutes on a cron schedule after installing Chrome and Selenium; it holds no monitor logic of its own.
- `github_actions_monitor_with_state.py`, the monitor that the workflow runs and that reports changes between two checks, is not part of this model.
- Dictionaries are sequences of (key, value) pairs in insertion order. Duplicate keys, which a Python dict cannot hold, are not excluded.
