# GitHub repository analyzer: data-shaping core in Dafny

The dashboard in `app.py` fetches a repository's metadata, weekly commit
activity, contributors and README from the GitHub API and renders them as
charts and a downloadable text report. This project models the part of it that
is not I/O or UI:

- reading the owner and repository name off a repository URL (`get_repo_info`);
- the commit-activity timeframe selector (`timeframe_mapping`) and
  `filter_commits_by_timeframe`;
- the case-insensitive username filter `filter_contributors`;
- the plain-text report `generate_report`, built line by line and joined with
  newlines;
- the README preview, cut at 1000 characters.

The Python string operations these rely on (`strip`, `split`, `join`, `lower`,
`in`, `str(int)`, `"-" * 20`, `strftime('%Y-%m-%d')`) are modelled in
`strings.dfy` and `report.dfy`, with the properties the core uses proved about
them.

Files and modules:

| file | module | models |
|---|---|---|
| `common.dfy` | `Common` | `Option`, `Min` |
| `strings.dfy` | `Strings` | the Python string operations above |
| `repo_url.dfy` | `RepoUrl` | owner and repository name from a URL |
| `timeframe.dfy` | `Timeframe` | timeframe table and commit window |
| `contributors.dfy` | `Contributors` | contributor filter |
| `report.dfy` | `Report` | the text report |
| `readme.dfy` | `Readme` | the README preview |

`generate_report` appends to a list in two loops, so it is modelled as the
method `Report.GenerateReport`. Its two `enumerate` loops are the generic loop
`Report.AppendNumbered`, called once per section. The method is proved equal to
`Join(ReportLines(...), "\n")`. `ReportLines` is a specification function that
builds the same line list the same way, by appending to what came before. The
properties of the report are lemmas about `ReportLines`, and they count and
number entries of that list, not lines of the joined text. Entries 2, 3, 14 and
`16 + n` (the clock line and the three section headings, `n` the number of
contributors shown) begin with `"\n"` (app.py:94, 95, 108, 114), so the text
shows a blank line before each of them. Everything else in the core is
expression code and is modelled as functions.

Three behaviours of the code worth knowing:

- **Malformed URLs.** A URL with no inner `/` makes `parts[-2]` raise;
  `get_repo_info` catches it (app.py:73-75) and returns `None`, so
  `RepoUrl.OwnerAndRepo` returns `None`.
- **License.** The report does not print the license. The only optional field
  it renders with a placeholder is the description (app.py:99).
- **Weekly heading.** The weekly section's heading says "Last 52 weeks", but the
  loop renders every week it is given (app.py:114-117). The model renders every
  week, and `Report.ReportWeekly` states it.

## Model

| member | source | states |
|---|---|---|
| Strings.Lower | app.py:246 | `lower()`: same length, each character lower-cased. |
| Strings.LowerIdempotent | app.py:246 | Lower-casing twice is the same as once. |
| Strings.LowerOfLower | app.py:246 | A string with no upper-case letters is its own lower-case form. |
| Strings.ContainsIff | app.py:246 | `p in s` holds exactly when `p` occurs in `s` at some index. |
| Strings.ContainsChar | app.py:246 | A one-character pattern is contained exactly when the character occurs. |
| Strings.Split | app.py:42 | `split('/')` always gives at least one piece, exactly one when there is no separator, and no piece holds the separator. |
| Strings.JoinSplit | app.py:42 | Joining the split pieces with the separator gives the string back. |
| Strings.SplitWithoutSeparator | app.py:42 | A string without the separator splits into itself alone. |
| Strings.SplitAppend | app.py:42 | Splitting at a separator between two strings splits each side on its own and concatenates the pieces. |
| Strings.TrimLeft | app.py:42 | `lstrip`: a suffix of the input that does not start with the character; everything removed was that character. |
| Strings.TrimRight | app.py:42 | `rstrip`: a prefix of the input that does not end with the character; everything removed was that character. |
| Strings.StripEnds | app.py:42 | The result of `strip('/')` neither starts nor ends with `/`. |
| Strings.StripShape | app.py:42 | The result of `strip('/')` sits inside the input with only `/` around it. |
| Strings.StripUnpadded | app.py:42 | A string that neither starts nor ends with `/` is unchanged by `strip('/')`. |
| Strings.StripTrailing | app.py:42 | A trailing `/` does not change `strip('/')`. |
| Strings.StripLeading | app.py:42 | A leading `/` does not change `strip('/')`. |
| Strings.JoinAppend | app.py:119 | `sep.join(a + b)` is `sep.join(a) + sep + sep.join(b)` for non-empty `a` and `b`. |
| Strings.JoinAfterThree | app.py:119 | Joining three leading lines and a non-empty rest puts the separator after each of the three. |
| Strings.Repeat | app.py:93 | `"=" * 50` and `"-" * 20`: that many copies of the character. |
| Strings.NatToString | app.py:100-103 | `str(n)` for `n >= 0`: all digits, no leading zero. |
| Strings.IntToStringRoundTrip | app.py:100-103 | The decimal rendering of an integer in the report reads back as that integer. |
| Strings.PaddedDigitsOfParse | app.py:104-105 | Reading a zero-padded digit group and printing it at the same width gives it back. |
| RepoUrl.LastTwo | app.py:43 | `parts[-2], parts[-1]`: nothing when there are fewer than two pieces, else the last two. |
| RepoUrl.OwnerAndRepo | app.py:42-43 | No owner and repository exactly when the stripped URL has no inner `/` (the caught `IndexError`, app.py:73-75). Otherwise neither name holds a `/`. |
| RepoUrl.TrailingSlashIgnored | app.py:42 | A trailing slash on the URL does not change the result. |
| RepoUrl.LeadingSlashIgnored | app.py:42 | A leading slash on the URL does not change the result. |
| RepoUrl.OwnerAndRepoIsSuffix | app.py:42-43 | The stripped URL ends with `owner/repo`, and the owner is a whole segment: either it starts the stripped URL or a `/` precedes it. |
| RepoUrl.OwnerAndRepoOfPath | app.py:42-43 | A URL `<site>/<owner>/<repo>` yields exactly that owner and repository, when the site does not start with `/`, the names hold no `/` and the repository name is not empty. |
| Timeframe.SliceFrom | app.py:146 | Python's `s[k:]`: a suffix of `s`; a negative `k` keeps the last `min(-k, |s|)` entries. |
| Timeframe.FilterByTimeframe | app.py:142-146 | For a window of `W >= 1` weeks, exactly the last `min(W, |commits|)` entries, in order. A window of `-n <= 0` weeks gives `commits[n:]`, so zero weeks keeps the whole series. |
| Timeframe.FilterIdentity | app.py:144-145 | An empty series, or a window covering the series, comes back unchanged. |
| Timeframe.WeeksToShow | app.py:152-159 | The window is always one of 1, 4, 12, 26, 52 weeks. |
| Timeframe.WeeksToShowTable | app.py:152-159 | The five labels map to 1, 4, 12, 26 and 52 weeks; any other label falls back to 52. |
| Timeframe.CommitWindow | app.py:152-162 | The series a chart shows for a label is the last `min(W, |commits|)` weeks, `W` the label's window. |
| Timeframe.LastMonthOfYear | app.py:152-162 | "Last Month" over 52 weeks shows exactly the last four weeks, in order. |
| Contributors.Matching | app.py:246 | The comprehension keeps only contributors whose lower-cased login contains the lower-cased filter, and never more than it was given. |
| Contributors.MatchingAppend | app.py:246 | The comprehension distributes over concatenation. |
| Contributors.MatchingIsSubsequence | app.py:246 | The comprehension keeps the input order: it is a subsequence of the input. |
| Contributors.MatchingAt | app.py:246 | Every matching contributor is kept, at the position given by the number of matches before it. |
| Contributors.FilterContributors | app.py:241-247 | At most ten results. Without a filter (`None` or `""`), exactly the first `min(10, |cs|)` contributors. With a filter, only matching contributors. |
| Contributors.FilterPreservesOrder | app.py:241-247 | The result is a subsequence of the input: no re-sorting. |
| Contributors.FilterKeepsEarlyMatches | app.py:246-247 | With a filter, a matching contributor is in the result at the position given by the earlier matches, unless ten earlier contributors matched. |
| Contributors.FilterLength | app.py:246-247 | With a filter, the result has `min(10, m)` entries, `m` the number of matches. |
| Contributors.LoginMatchesChar | app.py:246 | A one-letter lower-case filter matches exactly the logins whose lower-case form holds that letter. |
| Contributors.MatchingSameLower | app.py:246 | Filters with the same lower-case form select the same contributors. |
| Contributors.FilterCaseInsensitive | app.py:246 | Filtering by a string and by its lower-case form gives the same result. |
| Report.WellFormedTimestamp | app.py:104-105 | The timestamps the model renders: `YYYY-MM-DDTHH:MM:SSZ` with zero-padded fields, upper-case `T` and `Z`, a year from 1000 to 9999 and calendar-valid fields, so always twenty characters. |
| Report.FormatDate | app.py:104-105 | `strftime('%Y-%m-%d')`: ten characters with dashes at positions 4 and 7. |
| Report.FormatDateOfDigits | app.py:104-105 | Formatting parsed year, month and day digit groups gives the groups back, joined by dashes. |
| Report.FormatDateOfParse | app.py:104-105 | Parsing a timestamp and formatting its date gives the timestamp's first ten characters. |
| Report.DateTextFormatsParsedDate | app.py:104-105 | On a well-formed timestamp, the date the report prints is the parsed date formatted. |
| Report.AppendNumbered | app.py:110-111 | One `enumerate(xs, 1)` append loop: the lines grow by exactly the numbered rendering of `xs`. |
| Report.GenerateReport | app.py:87-119 | The report is the newline-join of `ReportLines`, the lines in source order. |
| Report.NumberedAt | app.py:116-117 | A numbered section has one line per element, and line `i` renders element `i` as number `i + 1`. |
| Report.MetadataAt | app.py:95-105 | The metadata block is eleven lines: heading, rule, name, owner, description or placeholder, four counts in decimal, and both dates. |
| Report.MetadataAfter | app.py:95-105 | The metadata block does not depend on the lines before it. |
| Report.SectionsAfter | app.py:107-117 | The two sections do not depend on the entries before them. |
| Report.BodyAfter | app.py:95-117 | Every entry after the clock entry does not depend on the entries before it. |
| Report.SectionsFrame | app.py:107-117 | Entries of the line list: the contributor heading and its `"-" * 20` rule, exactly `min(10, |contributors|)` ranked entries, the activity heading and its rule, and one entry per week. |
| Report.SectionsRanked | app.py:110-111 | Within the sections, the `i`-th ranked entry is `"{i+1}. {login}: {count} contributions"` for the `i`-th contributor. |
| Report.SectionsWeekly | app.py:116-117 | Within the sections, the `j`-th weekly entry is `"Week {j+1}: {total} commits"` for week `j`. |
| Report.ReportSplit | app.py:92-105 | The line list is fourteen entries of preamble and metadata, then the two sections. |
| Report.ReportFrame | app.py:92-117 | The line list has `18 + min(10, |contributors|) + |commits|` entries: the title at entry 0, the `"=" * 50` rule at 1, the clock at 2, the contributor heading at 14 with its `"-" * 20` rule at 15, and the activity heading at `16 + n` with its rule at `17 + n`. |
| Report.ReportRanked | app.py:108-111 | Entry `16 + i` of the line list ranks the `i`-th contributor as number `i + 1`, for each of the first ten. |
| Report.ReportWeekly | app.py:114-117 | Entry `18 + n + j` of the line list renders week `j` of the unfiltered series as number `j + 1`: every week, in order. |
| Report.ReportMetadata | app.py:97-105 | Entries 5 to 13 of the line list: name, owner, description or placeholder, stars, forks, open issues, watchers, and both dates as `YYYY-MM-DD`. |
| Report.DescriptionFallback | app.py:99 | A missing or empty description prints as "No description provided"; any other is printed as is. |
| Report.NoContributorsReport | app.py:108-114 | With no contributors, the activity heading is the entry right after the contributor heading's rule. |
| Report.ReportLinesSplit | app.py:92-94 | The line list is its three preamble entries followed by a non-empty body that does not depend on the clock. |
| Report.ReportDeterministic | app.py:92-119 | The report text is the title, the rule and the clock line, then a body that depends only on the repository, the commits and the contributors. |
| Report.SameExceptAt | app.py:94 | Replacing one entry of a prefix changes only that entry. |
| Report.ReportDiffersOnlyInClock | app.py:94 | Two clock readings give line lists of the same length that agree on every entry except entry 2. The joined texts need not have the same number of lines, since a reading may itself hold a newline. |
| Readme.PreviewOf | app.py:365-373 | The first 1000 characters always lead the shown text. A README of at most 1000 characters is shown whole. A longer one is cut to 1000 characters plus `...`, with the full text in the expander. Nothing is lost. |
| Readme.ShowReadme | app.py:362-373 | A missing or empty README shows no preview section. |

## Left out

- HTTP calls to the GitHub API, status-code handling and `st.error` messages are left out: they are I/O. The data they return enters the model as parameters.
- Base64 decoding of the README is left out: it is a library call. The README enters as already-decoded text.
- Plotting with Plotly, Streamlit layout, inputs and tabs are left out: they are UI.
- The Plotly figure building in `plot_commit_activity` and `plot_top_contributors` is left out: it is UI. The label table and the filter call of `plot_commit_activity` are modelled (`Timeframe.WeeksToShow`, `Timeframe.CommitWindow`). The README guard of `analyze_single_repo` (app.py:362) is `Readme.ShowReadme`.
- The language-share pie charts are left out: they are computed by Plotly in floating point.
- `display_repo_details` is left out. It is UI text with its own `%B %d, %Y` date format.
- Reading the GitHub token from the environment or a text input is left out: it is environment I/O.
- Report.GenerateReport: the clock reading `datetime.now().strftime(...)` is the parameter `generatedOn`, so its format is not modelled.
- Report.GenerateReport: `strptime` raising on a malformed date is modelled as the precondition `WellFormedTimestamp`. Timestamps outside it are not modelled, whether `strptime` would accept them or raise.
- Report.WellFormedTimestamp: narrower than what `strptime` accepts with `%Y-%m-%dT%H:%M:%SZ`. It leaves out unpadded fields such as `2020-1-5T1:2:3Z`, a lower-case `t` or `z` (the pattern matches without regard to case), and the years 0001 to 0999. Those years are left out because for them `strftime('%Y')` does not reliably give the timestamp's first four characters. GitHub's timestamps are all zero-padded, upper-case and after the year 1000.
- Report.GenerateReport: `is_comparison` is accepted and ignored, as in the source.
- Strings.Lower: Python's Unicode `lower()` is modelled on ASCII letters only.
- Contributors.FilterContributors and Timeframe.FilterByTimeframe: `None` passed for the list is not modelled. The callers only pass lists.
- Report.GenerateReport: dictionary lookups that raise `KeyError` on a missing field are not modelled. The record types always have every field.
