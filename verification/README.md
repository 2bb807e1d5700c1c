# Firefox history report, modelled in Dafny

`firefox_history/main.py` reads the `moz_historyvisits` and `moz_places` tables of a
Firefox profile and writes a plain-text report of every visit since 1 April 2020. The
newest visit comes first. Each visit gets a line with:

- its id and the id of the visit it came from;
- its time as `YYYY-MM-DD HH:MM` (UTC);
- the name of its transition type, meaning how the visit was reached;
- its URL, with Google search and redirect links cut down to their `q=` / `url=` pair.

A YouTube watch URL is followed by a line with the video's title and channel. A visit that
does not continue from the visit numbered just before it is followed by a blank line, which
marks a session break.

This project models the pure core of that script:

| module (file) | what it models |
|---|---|
| `Urls` (`urls.dfy`) | The two URL recognisers, `is_youtube` and `is_google`, written as explicit scanners instead of regular expressions, and the link normaliser `process_link`. The pair `is_google` captures is the rightmost viable `url=`/`q=` occurrence, not the leftmost, because `\S*` is greedy and backtracks from the right. |
| `UrlExamples` (`url_examples.dfy`) | Two worked normalisations on concrete URLs. |
| `Transitions` (`transitions.dfy`) | The `Transition` enumeration. |
| `Calendar` (`calendar.dfy`) | `get_date` as integer arithmetic: microseconds to minutes, minutes to a day number, the day number to a proleptic Gregorian date. That date is checked against an independent day-counting reference. |
| `History` (`history.dfy`) | The query: visits inner-joined to places, from the cut-off on, newest first. |
| `Reporting` (`report.dfy`) | The report: the header, the data line, the optional video line and the optional blank line per row. The video lookup is an injected function. Rendering runs until the first error. |
| `ReportExamples` (`report_examples.dfy`) | A two-visit history worked through the query and the report. |
| `Text` (`text.dfy`) | Digits, integer text, `str.format` centring (`^`), and stripping. |
| `Results` (`results.dfy`) | `Option` and `Result`. |

Three of the script's failures are modelled as `Error` values:

- a visit time outside the years `datetime` supports;
- a transition code outside 1..9;
- a video reply that reports results but has no items.

A failure anywhere means no report at all, and the error reported is that of the first row that fails.

## Model

| member | source | states |
|---|---|---|
| Transitions.FromCode | firefox_history/main.py:18-31 | Codes 1..9 give the member with that value; every other code is the error `Transition(code)` raises. |
| Transitions.CodeRoundTrip | firefox_history/main.py:18-31 | Every member is found again from its own value, and a found member carries the code it was looked up by. |
| Transitions.NameRoundTrip | firefox_history/main.py:21-31 | No two members share a name, so a printed name identifies its member. |
| Transitions.NameWidthIsTight | firefox_history/main.py:127 | The transition column width 13 equals the length of the longest name (`REDIRECT_PERM`). Every name is between 1 and 13 characters long. |
| Urls.IsYoutube | firefox_history/main.py:45-47 | A match means the URL is the watch prefix followed by an 11-character id from `[A-Za-z0-9_-]`, plus possibly one final newline (Python's `$`). The captured group is that id. |
| Urls.IsYoutubeComplete | firefox_history/main.py:45-47 | Conversely, every URL of that shape matches and captures its own id. |
| Urls.YoutubeExamples | firefox_history/main.py:45-47 | An 11-character id is accepted; a 10- or 12-character id is rejected. |
| Urls.GooglePrefix | firefox_history/main.py:51 | Group 1 exists exactly when the URL starts with the search or the redirect prefix, and it is that prefix. |
| Urls.PrefixesDiffer | firefox_history/main.py:51 | At most one of the two prefixes starts any string, so group 1 is determined by the URL. |
| Urls.NonSpaceEnd | firefox_history/main.py:51 | How far `\S*` can reach: every character before the end is non-whitespace, and the character at the end, if any, is whitespace. |
| Urls.ValueEnd | firefox_history/main.py:52 | How far the value class `[a-zA-Z+_\-0-9%\.]+` reaches: a maximal run of value characters. |
| Urls.PairKey | firefox_history/main.py:52 | A pair starts exactly where `url=` or `q=` is followed by a value character, and the key read is the one spelled there. |
| Urls.LastPair | firefox_history/main.py:51-52 | Backtracking from the end of the `\S*` run finds a pair with no pair to its right in the window, or reports that the window holds none. |
| Urls.LastPairIsRightmost | firefox_history/main.py:51-52 | Conversely, a pair with no pair to its right in the window is the one found. |
| Urls.PairText | firefox_history/main.py:52 | Group 2 is the key, `=`, and a maximal non-empty run of value characters taken from the URL in place. |
| Urls.IsGoogle | firefox_history/main.py:50-53 | A match consists of the URL's prefix and a pair reachable through non-whitespace. That pair starts at or right of every position where the pattern could place group 2, and there is a match whenever such a position exists. |
| Urls.ProcessLink | firefox_history/main.py:56-62 | A URL the Google pattern misses is returned unchanged. A matched URL becomes its prefix followed by exactly one bare `url=`/`q=` pair. |
| Urls.MatchIsNormal | firefox_history/main.py:59-60 | The rewrite keeps the URL's first characters up to the prefix's end, followed by the characters of the captured pair; everything else is dropped. |
| Urls.BarePairIsOnlyCandidate | firefox_history/main.py:51-52 | After a prefix followed by one bare pair, the only place a pair can start is that pair's key. |
| Urls.BarePairIsCandidate | firefox_history/main.py:51-52 | A bare pair right after the prefix is reachable and is a pair of its key. |
| Urls.NormalGoogleIsFixed | firefox_history/main.py:50-62 | A prefix followed by one bare pair matches and is left as it is. |
| Urls.ProcessLinkFixedPoints | firefox_history/main.py:56-62 | A URL is left unchanged exactly when the Google pattern misses it or it is already a prefix followed by one bare pair. |
| Urls.ProcessLinkIdempotent | firefox_history/main.py:50-62 | Normalising twice gives the same result as normalising once. |
| Urls.NotBothPrefixes | firefox_history/main.py:45-51 | No URL starting with a Google prefix is a watch URL. |
| Urls.ProcessLinkKeepsYoutube | firefox_history/main.py:120-129 | Watch URLs pass through the normaliser unchanged. The watch test after normalisation gives the same answer as on the raw URL. |
| UrlExamples.TrackingExample | firefox_history/main.py:56-62 | `https://www.google.com/search?q=cats&ved=xyz` becomes `https://www.google.com/search?q=cats`. |
| UrlExamples.RightmostExample | firefox_history/main.py:50-60 | In `...search?q=cats&oq=dogs` the rightmost viable pair wins, even though it is the tail of `oq=`. The result is `...search?q=dogs`. |
| Text.Center | firefox_history/main.py:111 | `^` centring never truncates: the field is the text's own length when that exceeds the width, and exactly the width otherwise. |
| Text.CenterLayout | firefox_history/main.py:111 | The text sits whole at offset (padding div 2) with only spaces on either side, so an odd padding space goes on the right. |
| Text.CenterStrip | firefox_history/main.py:127 | Stripping a centred field gives back the text whenever the text has no space at either end. |
| Text.IntToString | firefox_history/main.py:127 | The decimal text of an integer is non-empty, contains no space, and reads back to the same integer. |
| Text.IntToStringShortest | firefox_history/main.py:127 | The text is `str(n)`'s shortest form: a minus sign exactly for negative numbers, then digits with no leading zero other than `0` itself. With the read-back, this determines the text. |
| Text.FixedDigits | firefox_history/main.py:69 | A zero-filled field is exactly `width` digits long and denotes the number. |
| Text.IntToStringFits4 | firefox_history/main.py:127 | The integers from -999 to 9999 take at most four characters, so they fill their column without widening it. |
| Calendar.CivilFromDays | firefox_history/main.py:67 | The date computed from the 400/100/4/1-year cycles is a valid calendar date. Its day number under the year-by-year reference count is the input. |
| Calendar.CivilRoundTrip | firefox_history/main.py:67 | Every valid date is the computed date of its own day number, so the two are inverse bijections. |
| Calendar.EpochDayInjective | firefox_history/main.py:67 | Distinct valid dates have distinct day numbers. |
| Calendar.YearRange | firefox_history/main.py:67 | A minute's year lies in 1..9999 exactly when the minute lies between 0001-01-01 00:00 and 10000-01-01 00:00. |
| Calendar.Stamp | firefox_history/main.py:69 | `isoformat(' ', 'minutes')` is always 16 characters. |
| Calendar.MinuteStamp | firefox_history/main.py:65-69 | A minute has text exactly when its year is representable, and that text reads back to the same minute. |
| Calendar.GetDate | firefox_history/main.py:65-69 | A timestamp renders exactly when it lies in `datetime`'s range. The text is 16 characters and reads back to the timestamp's floor minute. |
| Calendar.GetDateSameMinute | firefox_history/main.py:65-69 | Two timestamps render alike exactly when they fall in the same minute: only `ts div 60000000` matters. |
| Calendar.CutoffDate | firefox_history/main.py:97 | The cut-off `1_585_699_200_000_000` renders as `2020-04-01 00:00`. |
| History.VisitRows | firefox_history/main.py:104 | A visit from the cut-off on joins to exactly the places with its place id; an earlier visit joins to none. |
| History.JoinRowCount | firefox_history/main.py:104 | A visit yields one row per place it joins to: as many rows as there are places with its place id when it is from the cut-off on, and none before. |
| History.JoinWhere | firefox_history/main.py:101-104 | A row is in the filtered join exactly when some visit from the cut-off on and some place with that visit's place id combine into it. |
| History.JoinWhereCount | firefox_history/main.py:101-104 | The filtered join has exactly one row per (visit, place) position pair that meets the `ON` and `WHERE` conditions, Together with the membership clause, this means no pair is dropped or repeated, provided distinct pairs give distinct rows. The tables' primary keys on `id` ensure that; the model does not assume them. |
| History.Insert | firefox_history/main.py:105 | Inserting into a newest-first sequence keeps it newest-first and adds exactly the one row. |
| History.SortNewestFirst | firefox_history/main.py:105 | The result is ordered by descending visit date and is a permutation of the input. |
| History.Extract | firefox_history/main.py:97-105 | The query result is in non-increasing visit-date order, is a permutation of the filtered join, and every row is dated at or after the cut-off. |
| History.ExtractMembers | firefox_history/main.py:97-105 | A row is in the query result exactly when some visit from the cut-off on and some place with its place id combine into it. |
| History.ExtractCount | firefox_history/main.py:97-105 | The query result has exactly one row per (visit, place) position pair that meets the `ON` and `WHERE` conditions. |
| Reporting.DataLine | firefox_history/main.py:126-127 | A data line is never blank. |
| Reporting.VideoLine | firefox_history/main.py:133-134 | A video line is never blank. |
| Reporting.RowErrors | firefox_history/main.py:120-134 | The errors come in the script's order. A row stops with `DateOutOfRange` exactly when its time does not render, and with `UnknownTransition` exactly when the time renders but the code names no member. It stops with `MissingVideoItem` for its video id exactly when both succeed, its normalised URL is a watch URL, and the reply counts results but lists no items. A row with none of these goes through. |
| Reporting.RowVideoLine | firefox_history/main.py:76-83 | A watch URL's line carries the first item's title and channel when the reply counts any result, and two empty strings when it counts none. |
| Reporting.RowLineCount | firefox_history/main.py:126-137 | A row adds one entry to `lines`, plus one if its normalised URL is a watch URL, plus one if it breaks the session. |
| Reporting.RowDataLine | firefox_history/main.py:126-134 | A row's first line is built from the rendered time, the transition's name and the normalised URL. For a watch URL the video line comes next. |
| Reporting.RowBreakLine | firefox_history/main.py:136-137 | A row's last line is blank exactly when the row breaks the session. |
| Reporting.RowLinesOk | firefox_history/main.py:121-123 | A row that goes through has a rendered time and a known transition. |
| Reporting.Body | firefox_history/main.py:113-137 | The rows' lines go through exactly when every row's lines do. Otherwise the error is that of the first row that fails. |
| Reporting.BodyLineCount | firefox_history/main.py:113-137 | The entries of `lines` after the header number rows + watch-URL rows + session-break rows. |
| Reporting.BodyPrefix | firefox_history/main.py:113-137 | The report grows only by appending: the lines of the first n rows are a prefix of the lines of all rows. |
| Reporting.BodyStep | firefox_history/main.py:113-137 | The lines of the first i+1 rows are those of the first i rows followed by row i's lines. |
| Reporting.BodyAround | firefox_history/main.py:113-137 | Row i's lines follow exactly the lines of the rows before it, in input order. |
| Reporting.BodyDataLineAt | firefox_history/main.py:113-127 | Row i's data line sits right after the lines of the rows before it. |
| Reporting.RowBlankLines | firefox_history/main.py:126-137 | A row adds a blank line only as its session break. |
| Reporting.BodyBlankLines | firefox_history/main.py:113-137 | Exactly one entry of `lines` per session break is the blank `"\n"`, and no other entry is. Entries are counted, not physical lines: a URL or a title holding a newline adds physical lines to the file. |
| Reporting.HeaderText | firefox_history/main.py:110-111 | The header is the five titles, ID, TIME and TRANSITION centred in widths 4, 16 and 13, PREV and URL as they are, separated as in every data line and ended by a newline, character for character. |
| Reporting.Report | firefox_history/main.py:109-137 | The report exists exactly when every row goes through, and otherwise carries the first failing row's error. It has 1 + rows + watch-URL rows + session-break rows entries in `lines`, and the header comes first. |
| Reporting.ReportIsHeaderAndBody | firefox_history/main.py:109-111 | The report is the header followed by the rows' lines. |
| Reporting.FirstBar | firefox_history/main.py:127 | The position found holds the first vertical bar at or after the start, or is the end of the text when there is none. |
| Reporting.SplitLine | firefox_history/main.py:127 | A line that splits is exactly the id text, a bar and a space, the previous-id text, a space-bar-space separator and the rest, with no bar in either id text. |
| Reporting.HeadLayout | firefox_history/main.py:127 | Conversely, a line joined that way from id texts without a bar splits back into exactly those three parts. |
| Reporting.TailLayout | firefox_history/main.py:127 | After the second separator, a 16-character time, a 13-character transition column and the URL read back as the time, the stripped column and the URL, whatever the URL holds. |
| Reporting.ParseLaidOut | firefox_history/main.py:126-127 | Parsing a line joined from id texts without a bar reads the ids from those texts and the remaining fields from the rest. |
| Reporting.CenterNoBar | firefox_history/main.py:127 | Centring a text without a vertical bar brings in none. |
| Reporting.CenteredIdReads | firefox_history/main.py:127 | Every id's centred column holds no vertical bar and reads back as the id, however wide. An id from -999 to 9999 fills the four-character column exactly. |
| Reporting.CenteredNameReads | firefox_history/main.py:127 | Every transition name fills the 13-character column exactly and reads back from it. |
| Reporting.DataLineRoundTrip | firefox_history/main.py:126-127 | Parsing any data line gives back the ids, the time, the transition name and the URL it was built from, for ids of every width and URLs of any content. |
| Reporting.ReportDataLine | firefox_history/main.py:109-127 | For any renderer of 16-character times, row i's data line in the report reads back as that row's ids, rendered time, transition name and normalised URL. |
| Reporting.Run | firefox_history/main.py:97-137 | The script's run over the two tables succeeds exactly when every selected row renders. It has 1 + rows + watch-URL rows + session-break rows entries in `lines`, and the header comes first. |
| Reporting.RunDataLine | firefox_history/main.py:97-127 | In the script's run, the i-th newest selected visit's data line reads back as that visit's data: its ids, its minute as `YYYY-MM-DD HH:MM`, its transition's name and its normalised URL. The visit is dated at or after the cut-off. |
| ReportExamples.TwoVisitsNewestFirst | firefox_history/main.py:101-105 | Two visits to one place come out of the query later one first. |
| ReportExamples.TwoRowReport | firefox_history/main.py:113-137 | Visit 10 from 9 (a watch URL), then visit 9 from 0, give the header, a data line and a video line, a data line, and one closing blank line. |

## Left out

- Database access, meaning `get_table`, the pragmas and opening the store (main.py:34-42, 87-95), is foreign library I/O. The tables are sequences of records.
- The HTTP request and the JSON decoding of `get_video_data` (main.py:72-78) are network I/O. The reply is an injected function from a video id to a record holding `totalResults` and the items' snippets. A reply without the keys the script indexes (a `KeyError`) is not modelled.
- Writing the `final_result` file (main.py:139-140) and the command line (main.py:143-149) are I/O plumbing. The model stops at the list of lines.
- The `isinstance` assertions on the ids (main.py:117-118) hold by the integer typing of `Row`.
- Calendar.GetDate: the float division by 10^6 and `utcfromtimestamp` are replaced by floor division of the integer microseconds by 60,000,000. Within 2^32 seconds of the epoch (about 1834 to 2106) the float quotient is within half a microsecond and rounds back to the same microsecond, so the two agree exactly. Further out the float error grows to several microseconds near year 9999, and a timestamp that close to a minute boundary may render as the adjacent minute. This rounding and the platform limits on negative timestamps are not modelled.
- Urls.NonSpaceEnd: `\S` is the complement of Python's `str.isspace` table (tab to carriage return, 0x1C-0x1F, space, 0x85, 0xA0, 0x1680, 0x2000-0x200A, 0x2028, 0x2029, 0x202F, 0x205F, 0x3000). The `re` module's exact Unicode whitespace class is approximated by this fixed set.
- History.SortNewestFirst: SQL leaves the order of rows with equal visit dates unspecified. The model breaks ties with a stable insertion sort but promises only the ordering and the permutation.
- Reporting.Report: the time renderer is a parameter, so the report's structure is proved for any renderer. `Reporting.Run` instantiates it with `Calendar.GetDate`.
- Reporting.ReadVideoData: an empty `items` list with a positive result count is the `IndexError` the script raises, as an error value; other malformed replies are not modelled.
