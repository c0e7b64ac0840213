/** `generate_report`: the downloadable plain-text analysis of one repository. The
    report is a list of lines, built by appending, and joined with newlines. */
module Report {
  import opened Common
  import opened Strings
  import opened Contributors

  /** One entry of the weekly commit-activity series. */
  datatype Week = Week(total: int)

  /** The fields of the repository metadata response that the report reads. */
  datatype Repository = Repository(
    name: string,
    ownerLogin: string,
    description: Option<string>,
    stars: int,
    forks: int,
    openIssues: int,
    watchers: int,
    createdAt: string,
    updatedAt: string)

  // ---------------------------------------------------------------- dates

  /** A calendar date and time of day, as `datetime.strptime` builds it. */
  datatype DateTime = DateTime(year: nat, month: nat, day: nat, hour: nat, minute: nat, second: nat)

  predicate IsLeapYear(y: nat)
  {
    y % 4 == 0 && (y % 100 != 0 || y % 400 == 0)
  }

  function DaysInMonth(y: nat, m: nat): nat
    requires 1 <= m <= 12
  {
    if m == 2 then (if IsLeapYear(y) then 29 else 28)
    else if m in {4, 6, 9, 11} then 30
    else 31
  }

  /** Calendar-valid fields, with the years restricted to 1000-9999. */
  predicate ValidDateTime(d: DateTime)
  {
    1000 <= d.year <= 9999 && 1 <= d.month <= 12 && 1 <= d.day <= DaysInMonth(d.year, d.month)
    && d.hour < 24 && d.minute < 60 && d.second < 60
  }

  /** The layout `YYYY-MM-DDTHH:MM:SSZ`: zero-padded digit groups where the format
      has numbers, and an upper-case `T` and `Z`. */
  predicate HasTimestampShape(s: string)
  {
    |s| == 20
    && AllDigits(s[0..4]) && s[4] == '-' && AllDigits(s[5..7]) && s[7] == '-' && AllDigits(s[8..10])
    && s[10] == 'T' && AllDigits(s[11..13]) && s[13] == ':' && AllDigits(s[14..16]) && s[16] == ':'
    && AllDigits(s[17..19]) && s[19] == 'Z'
  }

  /** `datetime.strptime(s, '%Y-%m-%dT%H:%M:%SZ')` on a string of that layout. */
  function ParseTimestamp(s: string): DateTime
    requires HasTimestampShape(s)
  {
    DateTime(ParseDigits(s[0..4]), ParseDigits(s[5..7]), ParseDigits(s[8..10]),
             ParseDigits(s[11..13]), ParseDigits(s[14..16]), ParseDigits(s[17..19]))
  }

  /** The timestamps the model renders: zero-padded, upper-case `T` and `Z`, and a
      four-digit year of at least 1000. */
  predicate WellFormedTimestamp(s: string)
    ensures WellFormedTimestamp(s) ==> |s| == 20
  {
    HasTimestampShape(s) && ValidDateTime(ParseTimestamp(s))
  }

  /** `.strftime('%Y-%m-%d')`. */
  function FormatDate(d: DateTime): (r: string)
    ensures |r| == 10 && r[4] == '-' && r[7] == '-'
  {
    PaddedDigits(d.year, 4) + "-" + PaddedDigits(d.month, 2) + "-" + PaddedDigits(d.day, 2)
  }

  /** Formatting parsed digit strings gives the strings back, joined by dashes. */
  lemma FormatDateOfDigits(y: string, m: string, d: string, rest: DateTime)
    requires |y| == 4 && |m| == 2 && |d| == 2 && AllDigits(y) && AllDigits(m) && AllDigits(d)
    ensures FormatDate(DateTime(ParseDigits(y), ParseDigits(m), ParseDigits(d), rest.hour, rest.minute, rest.second))
      == y + "-" + m + "-" + d
  {
    PaddedDigitsOfParse(y);
    PaddedDigitsOfParse(m);
    PaddedDigitsOfParse(d);
  }

  /** Parsing a timestamp and rendering its date gives its first ten characters. */
  lemma FormatDateOfParse(s: string)
    requires HasTimestampShape(s)
    ensures FormatDate(ParseTimestamp(s)) == s[..10]
  {
    var t := ParseTimestamp(s);
    var y, m, d := s[0..4], s[5..7], s[8..10];
    FormatDateOfDigits(y, m, d, t);
    assert s[..10] == y + [s[4]] + m + [s[7]] + d;
  }

  /** `datetime.strptime(stamp, '%Y-%m-%dT%H:%M:%SZ').strftime('%Y-%m-%d')`: on a
      well-formed timestamp, its first ten characters. */
  function DateText(stamp: string): string
    requires |stamp| >= 10
  {
    stamp[..10]
  }

  /** The ten-character prefix is what parsing the timestamp and formatting its date gives. */
  lemma DateTextFormatsParsedDate(stamp: string)
    requires WellFormedTimestamp(stamp)
    ensures DateText(stamp) == FormatDate(ParseTimestamp(stamp))
  {
    FormatDateOfParse(stamp);
  }

  // ---------------------------------------------------------------- lines

  /** What rendering the report needs of the two timestamps: a date prefix. Every
      well-formed timestamp has one. */
  predicate DatesRenderable(repo: Repository)
  {
    |repo.createdAt| >= 10 && |repo.updatedAt| >= 10
  }

  const DescriptionPlaceholder := "No description provided"

  /** `repo_data['description'] or 'No description provided'`. */
  function DescriptionText(description: Option<string>): string
  {
    if description.None? || description.value == "" then DescriptionPlaceholder
    else description.value
  }

  // The report's lines are specified the way the source builds them: each section
  // appends its lines, one at a time, to the lines before it (`acc`).

  /** Title, rule and the clock reading: the only lines that depend on the time. */
  function AppendPreamble(acc: seq<string>, repo: Repository, generatedOn: string): seq<string>
  {
    acc
    + ["Repository Analysis Report for " + repo.name]
    + [Repeat('=', 50)]
    + ["\nGenerated on: " + generatedOn]
  }

  /** The metadata block. */
  function AppendMetadata(acc: seq<string>, repo: Repository): seq<string>
    requires DatesRenderable(repo)
  {
    acc
    + ["\nRepository Metadata:"]
    + [Repeat('-', 20)]
    + ["Name: " + repo.name]
    + ["Owner: " + repo.ownerLogin]
    + ["Description: " + DescriptionText(repo.description)]
    + ["Stars: " + IntToString(repo.stars)]
    + ["Forks: " + IntToString(repo.forks)]
    + ["Open Issues: " + IntToString(repo.openIssues)]
    + ["Watchers: " + IntToString(repo.watchers)]
    + ["Created: " + DateText(repo.createdAt)]
    + ["Last Updated: " + DateText(repo.updatedAt)]
  }

  const ContributorsHeading := "\nTop Contributors:"
  const ActivityHeading := "\nWeekly Commit Activity (Last 52 weeks):"

  /** A section heading and its rule of twenty dashes. */
  function AppendHeading(acc: seq<string>, heading: string): seq<string>
  {
    acc + [heading] + [Repeat('-', 20)]
  }

  function ContributorLine(rank: int, c: Contributor): string
  {
    IntToString(rank) + ". " + c.login + ": " + IntToString(c.contributions) + " contributions"
  }

  function WeekLine(number: int, w: Week): string
  {
    "Week " + IntToString(number) + ": " + IntToString(w.total) + " commits"
  }

  /** `enumerate(xs, 1)` rendered line by line: the `i`-th line renders the `i`-th
      element with number `i`. Both sections of the report are built this way. */
  function Numbered<T>(xs: seq<T>, line: (int, T) -> string): seq<string>
  {
    if xs == [] then []
    else Numbered(xs[..|xs| - 1], line) + [line(|xs|, xs[|xs| - 1])]
  }

  /** The two numbered sections after `acc`: the top ten contributors, and the
      weekly activity of the whole (unfiltered) series. */
  function AppendSections(acc: seq<string>, commits: seq<Week>, contributors: seq<Contributor>): seq<string>
  {
    var head := AppendHeading(acc, ContributorsHeading);
    var ranked := head + Numbered(contributors[..Min(MaxShown, |contributors|)], ContributorLine);
    AppendHeading(ranked, ActivityHeading) + Numbered(commits, WeekLine)
  }

  /** Everything after the clock reading: metadata, then the two sections. */
  function AppendBody(acc: seq<string>, repo: Repository, commits: seq<Week>,
                      contributors: seq<Contributor>): seq<string>
    requires DatesRenderable(repo)
  {
    AppendSections(AppendMetadata(acc, repo), commits, contributors)
  }

  /** The lines of the report, before joining. */
  function ReportLines(repo: Repository, commits: seq<Week>, contributors: seq<Contributor>,
                       generatedOn: string): seq<string>
    requires DatesRenderable(repo)
  {
    AppendBody(AppendPreamble([], repo, generatedOn), repo, commits, contributors)
  }

  /** One `for i, x in enumerate(xs, 1): lines.append(line(i, x))` loop: the lines
      after `lines` are the numbered rendering of `xs`. */
  method AppendNumbered<T>(lines: seq<string>, xs: seq<T>, line: (int, T) -> string)
    returns (result: seq<string>)
    ensures result == lines + Numbered(xs, line)
  {
    result := lines;
    var i := 0;
    while i < |xs|
      invariant 0 <= i <= |xs|
      invariant result == lines + Numbered(xs[..i], line)
    {
      assert xs[..i + 1][..i] == xs[..i];
      result := result + [line(i + 1, xs[i])];
      i := i + 1;
    }
    assert xs[..|xs|] == xs;
  }

  /** `generate_report(repo_data, commits_data, contributors_data, is_comparison)`
      with the clock reading passed in as `generatedOn`; `isComparison` is unused,
      as in the source. */
  method GenerateReport(repo: Repository, commits: seq<Week>, contributors: seq<Contributor>,
                        generatedOn: string, isComparison: bool) returns (report: string)
    requires WellFormedTimestamp(repo.createdAt) && WellFormedTimestamp(repo.updatedAt)
    ensures report == Join(ReportLines(repo, commits, contributors, generatedOn), "\n")
  {
    var lines: seq<string> := [];
    lines := lines + ["Repository Analysis Report for " + repo.name];
    lines := lines + [Repeat('=', 50)];
    lines := lines + ["\nGenerated on: " + generatedOn];
    ghost var preamble := lines;
    assert preamble == AppendPreamble([], repo, generatedOn);

    lines := lines + ["\nRepository Metadata:"];
    lines := lines + [Repeat('-', 20)];
    lines := lines + ["Name: " + repo.name];
    lines := lines + ["Owner: " + repo.ownerLogin];
    lines := lines + ["Description: " + DescriptionText(repo.description)];
    lines := lines + ["Stars: " + IntToString(repo.stars)];
    lines := lines + ["Forks: " + IntToString(repo.forks)];
    lines := lines + ["Open Issues: " + IntToString(repo.openIssues)];
    lines := lines + ["Watchers: " + IntToString(repo.watchers)];
    lines := lines + ["Created: " + DateText(repo.createdAt)];
    lines := lines + ["Last Updated: " + DateText(repo.updatedAt)];

    lines := lines + [ContributorsHeading];
    lines := lines + [Repeat('-', 20)];
    assert lines == AppendHeading(AppendMetadata(preamble, repo), ContributorsHeading);
    lines := AppendNumbered(lines, contributors[..Min(MaxShown, |contributors|)], ContributorLine);

    lines := lines + [ActivityHeading];
    lines := lines + [Repeat('-', 20)];
    lines := AppendNumbered(lines, commits, WeekLine);

    report := Join(lines, "\n");
  }

  // ---------------------------------------------------------------- properties

  /** There is one line per element, and line `i` renders element `i` with number `i + 1`. */
  lemma {:induction false} NumberedAt<T>(xs: seq<T>, line: (int, T) -> string)
    ensures |Numbered(xs, line)| == |xs|
    ensures forall i :: 0 <= i < |xs| ==> Numbered(xs, line)[i] == line(i + 1, xs[i])
  {
    if xs != [] {
      NumberedAt(xs[..|xs| - 1], line);
    }
  }

  /** The metadata block is eleven lines after `acc`: heading and rule, name,
      owner, the description or its placeholder, the four counts in decimal, and
      both dates as their `YYYY-MM-DD` prefixes. */
  lemma MetadataAt(acc: seq<string>, repo: Repository)
    requires DatesRenderable(repo)
    ensures var m := AppendMetadata(acc, repo);
      var k := |acc|;
      |m| == k + 11 && m[..k] == acc
      && m[k] == "\nRepository Metadata:"
      && m[k + 1] == Repeat('-', 20)
      && m[k + 2] == "Name: " + repo.name
      && m[k + 3] == "Owner: " + repo.ownerLogin
      && m[k + 4] == "Description: " + DescriptionText(repo.description)
      && m[k + 5] == "Stars: " + IntToString(repo.stars)
      && m[k + 6] == "Forks: " + IntToString(repo.forks)
      && m[k + 7] == "Open Issues: " + IntToString(repo.openIssues)
      && m[k + 8] == "Watchers: " + IntToString(repo.watchers)
      && m[k + 9] == "Created: " + repo.createdAt[..10]
      && m[k + 10] == "Last Updated: " + repo.updatedAt[..10]
  {
    MetadataAfter(acc, repo);
    var m0 := AppendMetadata([], repo);
    assert m0 == ["\nRepository Metadata:", Repeat('-', 20), "Name: " + repo.name, "Owner: " + repo.ownerLogin,
                  "Description: " + DescriptionText(repo.description), "Stars: " + IntToString(repo.stars),
                  "Forks: " + IntToString(repo.forks), "Open Issues: " + IntToString(repo.openIssues),
                  "Watchers: " + IntToString(repo.watchers), "Created: " + DateText(repo.createdAt),
                  "Last Updated: " + DateText(repo.updatedAt)];
  }

  /** Building the metadata on `acc` is the same as building it on nothing and
      putting `acc` in front. */
  lemma MetadataAfter(acc: seq<string>, repo: Repository)
    requires DatesRenderable(repo)
    ensures AppendMetadata(acc, repo) == acc + AppendMetadata([], repo)
  {
  }

  /** Likewise for the two sections. */
  lemma SectionsAfter(acc: seq<string>, rest: seq<string>, commits: seq<Week>, contributors: seq<Contributor>)
    ensures AppendSections(acc + rest, commits, contributors) == acc + AppendSections(rest, commits, contributors)
  {
    var ranked := Numbered(contributors[..Min(MaxShown, |contributors|)], ContributorLine);
    var weekly := Numbered(commits, WeekLine);
    assert AppendHeading(acc + rest, ContributorsHeading) == acc + AppendHeading(rest, ContributorsHeading);
    var r1 := AppendHeading(rest, ContributorsHeading) + ranked;
    assert AppendHeading(acc + rest, ContributorsHeading) + ranked == acc + r1;
    assert AppendHeading(acc + r1, ActivityHeading) == acc + AppendHeading(r1, ActivityHeading);
  }

  /** Building the body on `acc` is the same as building it on nothing and putting
      `acc` in front, so the body does not depend on what came before it. */
  lemma BodyAfter(acc: seq<string>, repo: Repository, commits: seq<Week>, contributors: seq<Contributor>)
    requires DatesRenderable(repo)
    ensures AppendBody(acc, repo, commits, contributors) == acc + AppendBody([], repo, commits, contributors)
  {
    MetadataAfter(acc, repo);
    SectionsAfter(acc, AppendMetadata([], repo), commits, contributors);
  }

  /** The frame of the sections after `acc`: the contributor heading and its rule,
      exactly `min(10, |contributors|)` ranked lines, the activity heading and its
      rule, and one line per week. */
  lemma SectionsFrame(acc: seq<string>, commits: seq<Week>, contributors: seq<Contributor>)
    ensures var b := AppendSections(acc, commits, contributors);
      var k := |acc|;
      var n := Min(MaxShown, |contributors|);
      |b| == k + 4 + n + |commits|
      && b[..k] == acc
      && b[k] == ContributorsHeading
      && b[k + 1] == Repeat('-', 20)
      && b[k + 2 + n] == ActivityHeading
      && b[k + 3 + n] == Repeat('-', 20)
  {
    var k := |acc|;
    var n := Min(MaxShown, |contributors|);
    var head := AppendHeading(acc, ContributorsHeading);
    var front := AppendHeading(head + Numbered(contributors[..n], ContributorLine), ActivityHeading);
    NumberedAt(contributors[..n], ContributorLine);
    NumberedAt(commits, WeekLine);
    var b := front + Numbered(commits, WeekLine);
    assert b == AppendSections(acc, commits, contributors);
    assert b[..k] == head[..k];
    assert b[k] == head[k] && b[k + 1] == head[k + 1];
    assert b[k + 2 + n] == front[k + 2 + n] && b[k + 3 + n] == front[k + 3 + n];
  }

  /** In the sections after `acc`, line `|acc| + 2 + i` ranks the `i`-th
      contributor as number `i + 1`, for each of the first ten. */
  lemma SectionsRanked(acc: seq<string>, commits: seq<Week>, contributors: seq<Contributor>, i: int)
    requires 0 <= i < Min(MaxShown, |contributors|)
    ensures var b := AppendSections(acc, commits, contributors);
      |acc| + 2 + i < |b| && b[|acc| + 2 + i] == ContributorLine(i + 1, contributors[i])
  {
    var n := Min(MaxShown, |contributors|);
    var top := contributors[..n];
    var head := AppendHeading(acc, ContributorsHeading);
    var ranked := Numbered(top, ContributorLine);
    NumberedAt(top, ContributorLine);
    var front := AppendHeading(head + ranked, ActivityHeading);
    var b := front + Numbered(commits, WeekLine);
    assert b == AppendSections(acc, commits, contributors);
    assert b[|head| + i] == front[|head| + i] == ranked[i];
    assert top[i] == contributors[i];
  }

  /** In the sections after `acc`, line `|acc| + 4 + n + j`, where `n` is the
      number of contributors shown, renders week `j` as number `j + 1`. */
  lemma SectionsWeekly(acc: seq<string>, commits: seq<Week>, contributors: seq<Contributor>, j: int)
    requires 0 <= j < |commits|
    ensures var b := AppendSections(acc, commits, contributors);
      var n := Min(MaxShown, |contributors|);
      |b| == |acc| + 4 + n + |commits| && b[|acc| + 4 + n + j] == WeekLine(j + 1, commits[j])
  {
    var n := Min(MaxShown, |contributors|);
    NumberedAt(contributors[..n], ContributorLine);
    NumberedAt(commits, WeekLine);
    var front := AppendHeading(AppendHeading(acc, ContributorsHeading)
      + Numbered(contributors[..n], ContributorLine), ActivityHeading);
    var weekly := Numbered(commits, WeekLine);
    var b := front + weekly;
    assert b == AppendSections(acc, commits, contributors);
    assert |front| == |acc| + 4 + n;
    assert b[|front| + j] == weekly[j];
  }

  /** The report's lines are the fourteen lines of preamble and metadata followed
      by the sections. */
  lemma ReportSplit(repo: Repository, commits: seq<Week>, contributors: seq<Contributor>,
                    generatedOn: string)
    requires DatesRenderable(repo)
    ensures var m := AppendMetadata(AppendPreamble([], repo, generatedOn), repo);
      |m| == 14
      && ReportLines(repo, commits, contributors, generatedOn) == AppendSections(m, commits, contributors)
  {
    MetadataAt(AppendPreamble([], repo, generatedOn), repo);
  }

  /** The frame of the report: title, rule and clock reading, the eleven metadata
      lines, the contributor heading, exactly `min(10, |contributors|)` ranked
      contributors, the activity heading, and exactly one line per week of the
      unfiltered series. */
  lemma ReportFrame(repo: Repository, commits: seq<Week>, contributors: seq<Contributor>,
                    generatedOn: string)
    requires DatesRenderable(repo)
    ensures var lines := ReportLines(repo, commits, contributors, generatedOn);
      var n := Min(MaxShown, |contributors|);
      |lines| == 18 + n + |commits|
      && lines[0] == "Repository Analysis Report for " + repo.name
      && lines[1] == Repeat('=', 50)
      && lines[2] == "\nGenerated on: " + generatedOn
      && lines[14] == ContributorsHeading
      && lines[15] == Repeat('-', 20)
      && lines[16 + n] == ActivityHeading
      && lines[17 + n] == Repeat('-', 20)
  {
    var pre := AppendPreamble([], repo, generatedOn);
    var m := AppendMetadata(pre, repo);
    MetadataAt(pre, repo);
    ReportSplit(repo, commits, contributors, generatedOn);
    SectionsFrame(m, commits, contributors);
    var lines := ReportLines(repo, commits, contributors, generatedOn);
    assert lines[..14] == m;
    assert lines[0] == m[0] && lines[1] == m[1] && lines[2] == m[2];
  }

  /** Line `16 + i` of the report ranks the `i`-th contributor as number `i + 1`,
      for each of the first ten. */
  lemma ReportRanked(repo: Repository, commits: seq<Week>, contributors: seq<Contributor>,
                     generatedOn: string, i: int)
    requires DatesRenderable(repo)
    requires 0 <= i < Min(MaxShown, |contributors|)
    ensures var lines := ReportLines(repo, commits, contributors, generatedOn);
      16 + i < |lines| && lines[16 + i] == ContributorLine(i + 1, contributors[i])
  {
    var m := AppendMetadata(AppendPreamble([], repo, generatedOn), repo);
    ReportSplit(repo, commits, contributors, generatedOn);
    SectionsRanked(m, commits, contributors, i);
  }

  /** Line `18 + n + j` of the report, where `n` is the number of contributors
      shown, renders week `j` of the unfiltered series as number `j + 1`: every
      week is reported, in order. */
  lemma ReportWeekly(repo: Repository, commits: seq<Week>, contributors: seq<Contributor>,
                     generatedOn: string, j: int)
    requires DatesRenderable(repo)
    requires 0 <= j < |commits|
    ensures var lines := ReportLines(repo, commits, contributors, generatedOn);
      var n := Min(MaxShown, |contributors|);
      |lines| == 18 + n + |commits| && lines[18 + n + j] == WeekLine(j + 1, commits[j])
  {
    var m := AppendMetadata(AppendPreamble([], repo, generatedOn), repo);
    ReportSplit(repo, commits, contributors, generatedOn);
    SectionsWeekly(m, commits, contributors, j);
  }

  /** The metadata lines of the report: the repository's name and owner, its
      description or the placeholder, its four counts in decimal, and the creation
      and update dates. */
  lemma ReportMetadata(repo: Repository, commits: seq<Week>, contributors: seq<Contributor>,
                       generatedOn: string)
    requires DatesRenderable(repo)
    ensures var lines := ReportLines(repo, commits, contributors, generatedOn);
      |lines| >= 14
      && lines[5] == "Name: " + repo.name
      && lines[6] == "Owner: " + repo.ownerLogin
      && lines[7] == "Description: " + DescriptionText(repo.description)
      && lines[8] == "Stars: " + IntToString(repo.stars)
      && lines[9] == "Forks: " + IntToString(repo.forks)
      && lines[10] == "Open Issues: " + IntToString(repo.openIssues)
      && lines[11] == "Watchers: " + IntToString(repo.watchers)
      && lines[12] == "Created: " + repo.createdAt[..10]
      && lines[13] == "Last Updated: " + repo.updatedAt[..10]
  {
    var pre := AppendPreamble([], repo, generatedOn);
    var m := AppendMetadata(pre, repo);
    MetadataAt(pre, repo);
    var lines := ReportLines(repo, commits, contributors, generatedOn);
    BodyAfter(m, repo, commits, contributors);
    var n := Min(MaxShown, |contributors|);
    var head := AppendHeading(m, ContributorsHeading);
    var mid := AppendHeading(head + Numbered(contributors[..n], ContributorLine), ActivityHeading);
    assert lines == mid + Numbered(commits, WeekLine);
    assert lines[..14] == m;
  }

  /** A missing or empty description is rendered as the placeholder. */
  lemma DescriptionFallback(description: Option<string>)
    ensures description.None? || description == Some("") ==>
      DescriptionText(description) == DescriptionPlaceholder
    ensures description.Some? && description.value != "" ==>
      DescriptionText(description) == description.value
  {
  }

  /** Without contributors the report goes straight from the contributor heading's
      rule to the activity heading. */
  lemma NoContributorsReport(repo: Repository, commits: seq<Week>, generatedOn: string)
    requires DatesRenderable(repo)
    ensures var lines := ReportLines(repo, commits, [], generatedOn);
      lines[14] == ContributorsHeading && lines[16] == ActivityHeading
  {
    ReportFrame(repo, commits, [], generatedOn);
  }

  /** The report's lines are its three preamble lines followed by a non-empty body
      that does not depend on the clock reading. */
  lemma ReportLinesSplit(repo: Repository, commits: seq<Week>, contributors: seq<Contributor>,
                         generatedOn: string)
    requires DatesRenderable(repo)
    ensures var body := AppendBody([], repo, commits, contributors);
      body != []
      && ReportLines(repo, commits, contributors, generatedOn)
         == ["Repository Analysis Report for " + repo.name, Repeat('=', 50), "\nGenerated on: " + generatedOn] + body
  {
    BodyAfter(AppendPreamble([], repo, generatedOn), repo, commits, contributors);
    MetadataAt([], repo);
    BodyAfter(AppendMetadata([], repo), repo, commits, contributors);
  }

  /** The report is determined by its inputs: the clock reading sits between a
      prefix fixed by the repository name and a suffix that does not depend on it. */
  lemma ReportDeterministic(repo: Repository, commits: seq<Week>, contributors: seq<Contributor>,
                            generatedOn: string)
    requires DatesRenderable(repo)
    ensures Join(ReportLines(repo, commits, contributors, generatedOn), "\n")
      == ("Repository Analysis Report for " + repo.name) + "\n" + Repeat('=', 50) + "\n"
         + ("\nGenerated on: " + generatedOn) + "\n" + Join(AppendBody([], repo, commits, contributors), "\n")
  {
    ReportLinesSplit(repo, commits, contributors, generatedOn);
    JoinAfterThree("Repository Analysis Report for " + repo.name, Repeat('=', 50), "\nGenerated on: " + generatedOn,
                   AppendBody([], repo, commits, contributors), "\n");
  }

  /** Swapping one line of a prefix for another changes only that line. */
  lemma SameExceptAt(p1: seq<string>, p2: seq<string>, body: seq<string>, k: int)
    requires |p1| == |p2| && 0 <= k < |p1|
    requires forall i :: 0 <= i < |p1| && i != k ==> p1[i] == p2[i]
    ensures |p1 + body| == |p2 + body|
    ensures forall i :: 0 <= i < |p1 + body| && i != k ==> (p1 + body)[i] == (p2 + body)[i]
  {
  }

  /** Two clock readings give reports of the same length that differ at most in
      line 2, the "Generated on" line. */
  lemma ReportDiffersOnlyInClock(repo: Repository, commits: seq<Week>, contributors: seq<Contributor>,
                                 t1: string, t2: string)
    requires DatesRenderable(repo)
    ensures var l1 := ReportLines(repo, commits, contributors, t1);
      var l2 := ReportLines(repo, commits, contributors, t2);
      |l1| == |l2| && forall i :: 0 <= i < |l1| && i != 2 ==> l1[i] == l2[i]
  {
    var p1 := AppendPreamble([], repo, t1);
    var p2 := AppendPreamble([], repo, t2);
    var body := AppendBody([], repo, commits, contributors);
    BodyAfter(p1, repo, commits, contributors);
    BodyAfter(p2, repo, commits, contributors);
    assert |p1| == |p2| == 3 && p1[0] == p2[0] && p1[1] == p2[1];
    SameExceptAt(p1, p2, body, 2);
  }
}
