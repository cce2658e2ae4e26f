# JMA 10-minute weather scraper, modelled in Dafny

The scraper in `get_weather_data_from_JMA.py` downloads the 10-minute
observations of the Japan Meteorological Agency for the Tokyo station
(prefecture number 44, block number 47662). It starts on 2009-01-01 and
runs through today, one day at a time. It writes one `YYYYMM.csv` file for
every month in which at least one day gave observation rows.

This project models the core of that program:

- `fetch_data`:
  - the request URL for a day;
  - the two failure outcomes, a non-200 status and a missing table;
  - the row loop. It skips empty rows and header rows (first cell contains
    "時分"). It keeps rows of at least 11 cells. It turns each kept row into
    a 12-field record whose first field is the date `YYYYMMDD`.
- `main`:
  - the enumeration of years, months and days from 2009-01-01 through
    today, with month lengths under the Gregorian leap rule;
  - the per-month accumulation of the non-empty daily results in day order;
  - the decision to write a month only when it has records;
  - the file name `YYYYMM.csv`.

Modules:

- `Wrappers`: `Option`.
- `Text`: the decimal rendering that Python's f-strings use (`{n}`,
  `{n:02d}`), reading digits back, and the substring test `in`.
- `Calendar`: month lengths, calendar order, the following day, and the day
  number (`date.toordinal`).
- `Fetch`:
  - the URL;
  - the server's answer;
  - the record normaliser;
  - the specification `Filtered` of the row loop;
  - the method `FetchData`, whose loop is proved against `Filtered`.
- `Monthly`:
  - the specification of a month (`MonthOutput`) and of a whole run
    (`FilesFrom`);
  - the methods for the day loop (`CollectMonth`), one pass of the month
    loop (`WriteMonth`), one pass of the year loop (`CollectYear`) and
    `main` (`Run`), each proved against that specification.

The network is a parameter `server: string -> Response`. It maps a URL to
a status code and to the rows of the `data2_s` table, as cell texts, or
None when the page has no such table. Today's date is a parameter `today`.
A written file is a value `MonthFile(name, records)`. The files a run
writes are the sequence `written`, in the order they are written. The days
it requests are the sequence `days`.

Three facts about the code that the model follows:

- A kept row is cut to 12 fields after the date is put in front
  (line 59). It is never padded, and it never needs to be: a kept row has
  at least 11 cells, so the date plus the cells make at least 12 fields.
  `Fetch.Normalise` proves the width is exactly 12.
- The comment on line 55 asks for rows of twelve or more columns, but the
  test on line 56 keeps rows of 11 or more cells. The model keeps rows of
  11 or more cells, as the test does.
- An empty table is not a failure in `fetch_data`: it returns an empty
  frame (`Some([])` here). `main` (line 96) treats that frame like a
  failure, so the day adds nothing to its month.

## Model

| member | source | states |
|---|---|---|
| Text.Decimal | get_weather_data_from_JMA.py:27 | `f"{n}"` is a non-empty run of digits with no leading zero (except for 0 itself) |
| Text.ParseDecimal | get_weather_data_from_JMA.py:58 | reading back the decimal rendering of n gives n |
| Text.DecimalLength | get_weather_data_from_JMA.py:58 | a number with k digits renders as exactly k characters |
| Text.FourDigitYear | get_weather_data_from_JMA.py:58 | years 1000..9999 render as exactly four digits and read back unchanged |
| Text.Pad2 | get_weather_data_from_JMA.py:27 | `{n:02d}` is all digits, and exactly two of them for n < 100 |
| Text.Pad2RoundTrip | get_weather_data_from_JMA.py:27 | `{n:02d}` for n < 100 is exactly two digits and reads back as n |
| Text.Contains | get_weather_data_from_JMA.py:53 | the substring test holds for the empty pattern, and only for patterns no longer than the text |
| Text.ContainsIffOccurs | get_weather_data_from_JMA.py:53 | the substring test holds exactly when the pattern occurs at some position (both directions) |
| Calendar.DaysInMonth | get_weather_data_from_JMA.py:85 | `calendar.monthrange(y, m)[1]` lies in 28..31 |
| Calendar.YearLength | get_weather_data_from_JMA.py:85 | the month lengths of a year add up to 366 in a Gregorian leap year and 365 otherwise |
| Calendar.Next | get_weather_data_from_JMA.py:79-93 | the day after a valid date is valid and comes strictly later |
| Calendar.NextIsLeast | get_weather_data_from_JMA.py:79-93 | no valid date lies strictly between a date and the day after it |
| Calendar.DaysBeforeNextYear | get_weather_data_from_JMA.py:79-85 | the day number of January 1st grows by the length of the year before |
| Calendar.OrdinalNext | get_weather_data_from_JMA.py:79-93 | the day after has exactly the next day number |
| Calendar.ConsecutiveIncreasing | get_weather_data_from_JMA.py:79-93 | a run of consecutive days is strictly increasing, so no day repeats |
| Calendar.ConsecutiveCovers | get_weather_data_from_JMA.py:79-93 | a run of consecutive days contains every valid date between its first and last day |
| Calendar.ConsecutiveOrdinals | get_weather_data_from_JMA.py:79-93 | the k-th day of a consecutive run is k days after the first |
| Fetch.Url | get_weather_data_from_JMA.py:27 | every request URL starts with the address of the 10-minute page followed by `?` |
| Fetch.UrlNamesStation | get_weather_data_from_JMA.py:27 | every request URL contains `prec_no=44` and `block_no=47662` |
| Fetch.UrlInjective | get_weather_data_from_JMA.py:27 | two different days (four-digit year, month and day below 100) never share a URL |
| Fetch.DateString | get_weather_data_from_JMA.py:58 | the date field is all digits, four more than the year's digits when month and day are below 100 |
| Fetch.DateStringRoundTrip | get_weather_data_from_JMA.py:58 | the date field is 8 digits; characters 0-3, 4-5 and 6-7 read back as year, month and day |
| Fetch.DateStringExample | get_weather_data_from_JMA.py:58 | 2023-05-10 is written "20230510" |
| Fetch.Normalise | get_weather_data_from_JMA.py:56-59 | a kept row becomes exactly 12 fields: the date, then the row's first 11 cells |
| Fetch.Filtered | get_weather_data_from_JMA.py:46-59 | a table yields at most one record per row |
| Fetch.FilteredIsSelection | get_weather_data_from_JMA.py:46-59 | the records are the normalised kept rows, in row order; every kept row is selected; a row is kept exactly when it is non-empty, not a header and has at least 11 cells |
| Fetch.RowSelection | get_weather_data_from_JMA.py:53-59 | one more row adds nothing when it is empty or a header row (`IsSkipped`) or has fewer than 11 cells, and adds its normalised record when it is kept (`Keeps`) |
| Fetch.RecordShape | get_weather_data_from_JMA.py:53-59 | every record has 12 fields, starts with the date, and continues with the first 11 cells of some kept row |
| Fetch.HeaderThenDataRows | get_weather_data_from_JMA.py:46-59 | a header row followed by N data rows yields exactly N records, the k-th from the k-th data row |
| Fetch.ExampleDay | get_weather_data_from_JMA.py:46-59 | for 2023-05-10, a header row and N data rows give N records of width 12, each starting "20230510" |
| Fetch.DayResultOutcome | get_weather_data_from_JMA.py:33-59 | a day yields None exactly when the status is not 200 or the table is missing; otherwise at most one record per table row, each of 12 fields and dated that day |
| Fetch.FetchData | get_weather_data_from_JMA.py:26-67 | the result is None exactly when the status is not 200 or the table is missing; otherwise it is the filtered table, and every record has 12 fields and the day's date first |
| Monthly.CsvRows | get_weather_data_from_JMA.py:62-66 | a month's CSV table is the 12-column header plus one 12-field row per record |
| Monthly.Filename | get_weather_data_from_JMA.py:104 | the file name is a run of digits followed by `.csv` |
| Monthly.FilenameRoundTrip | get_weather_data_from_JMA.py:104 | `f"{year}{month:02d}.csv"` has 10 characters and its first six digits read back as the month |
| Monthly.FilenameMatchesDates | get_weather_data_from_JMA.py:58 | every date field of a month begins with the first six characters of the month's file name |
| Monthly.DailyResults | get_weather_data_from_JMA.py:93-95 | a month requests one outcome per day 1..day_end |
| Monthly.Contributions | get_weather_data_from_JMA.py:92-97 | `monthly_data` holds at most one frame per day, and none of its frames is empty |
| Monthly.ContributionsStep | get_weather_data_from_JMA.py:93-97 | fetching one more day appends its frame to `monthly_data` exactly when the frame exists and is non-empty |
| Monthly.Flatten | get_weather_data_from_JMA.py:103 | `pd.concat` of the frames is empty exactly when every frame is empty |
| Monthly.ContributionsFlatten | get_weather_data_from_JMA.py:96-103 | concatenating the kept daily frames gives all days' records in day order; nothing is kept exactly when no day has records |
| Monthly.MonthRecordsNonEmpty | get_weather_data_from_JMA.py:101 | a month has records exactly when at least one of its days has records |
| Monthly.MonthRecordsCount | get_weather_data_from_JMA.py:103 | a month holds as many records as the sum of its daily counts |
| Monthly.MonthRecordsFromDays | get_weather_data_from_JMA.py:103 | every record of a month comes from one of its days |
| Monthly.MonthRecordsDated | get_weather_data_from_JMA.py:92-103 | every record of a month has 12 fields and the date of one of the month's requested days |
| Monthly.MonthOutputDecision | get_weather_data_from_JMA.py:92-105 | a month writes nothing exactly when none of days 1..day_end yields a record; otherwise it writes `YYYYMM.csv` holding the concatenation of the non-empty daily frames, which is non-empty |
| Monthly.CollectMonth | get_weather_data_from_JMA.py:92-108 | the day loop requests days 1..day_end in order and writes exactly the file `MonthOutput` specifies: none when no day has records, else `YYYYMM.csv` holding all days' records in day order |
| Monthly.DayEnd | get_weather_data_from_JMA.py:85-90 | the last day requested lies in 1..DaysInMonth for every month, and is today's day in today's month |
| Monthly.NextMonth | get_weather_data_from_JMA.py:79-83 | the month after is a valid month whose month index is one more |
| Monthly.AppendMonth | get_weather_data_from_JMA.py:83-93 | requesting days 1..n of the month reached next extends the run of requested days without a gap |
| Monthly.WriteMonth | get_weather_data_from_JMA.py:84-108 | one month appends its file when the month has one, which leaves the files of the later months still to be written; its requested days continue the run through today in today's month, and through the month's last day otherwise |
| Monthly.CollectYear | get_weather_data_from_JMA.py:79-108 | one year writes the files of its months through today, in month order, and its days continue the run |
| Monthly.Run | get_weather_data_from_JMA.py:69-108 | the files written are the specified files of every month from 2009-01 through today's month, in order. The days requested run from 2009-01-01 through today: consecutive, strictly increasing, each valid day in range exactly once, and as many as the day numbers say. Before 2009, nothing happens |
| Monthly.FilesFromAtMostOnePerMonth | get_weather_data_from_JMA.py:79-108 | a run writes at most one file per month from its first month through today's month, and none after |
| Monthly.RunCsvRows | get_weather_data_from_JMA.py:62-66 | every file of a run is written as the 12-column header followed by its records, one row each |
| Monthly.MonthOutputWellFormed | get_weather_data_from_JMA.py:101-105 | a written month's file has a 10-character name and is non-empty; every record has 12 fields and an 8-character date in the file's month |
| Monthly.FilesFromWellFormed | get_weather_data_from_JMA.py:79-105 | every file of a run is well formed in that sense |
| Monthly.OutputsNamedByMonth | get_weather_data_from_JMA.py:104 | every file of a run is named after its own month |
| Monthly.FilesFromNamedAfter | get_weather_data_from_JMA.py:79-104 | the files from a month on are named after that month or a later one |
| Monthly.FilesFromOrdered | get_weather_data_from_JMA.py:79-104 | the files are written in strictly increasing month order |
| Monthly.RunFilesDistinct | get_weather_data_from_JMA.py:104-105 | no file name is written twice in a run |

## Left out

- HTTP (`requests.get`, line 33). It is the parameter `server`. A response
  is its status code and the extracted table.
- Exceptions from `requests.get` (a connection error or a timeout, line 33).
  Nothing in the source catches them, so one ends the whole run at that
  day. The model's `server` is total: every request gets a response.
- HTML parsing with BeautifulSoup (lines 38-51). The response carries the
  `data2_s` table's rows as their cell texts (`get_text(strip=True)`), or
  None when the page lacks the table.
- The random 1-3 second sleep before each request (line 31). It has no
  effect on results.
- The log lines printed with `print`.
- The clock (`datetime.date.today()`, line 74). It is the parameter
  `today`: a valid date with a year of at most 9999 (Python's largest year).
- pandas:
  - A DataFrame is a sequence of records.
  - `pd.concat` is sequence concatenation.
  - `to_csv` with `index=False` is the header row followed by the records
    (`CsvRows`).
  - The UTF-8 byte-order mark and CSV quoting are not modelled.
- `start_day` (line 73) is assigned but never used by the source. Every
  month, including the first, starts at day 1.
- The file system. Writing to disk is the returned list of files. A name
  is never written twice in a run (see `Monthly.RunFilesDistinct`), so
  overwriting does not need to be modelled.
