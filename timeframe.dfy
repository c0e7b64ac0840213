/** The commit-activity timeframe: the label-to-weeks table of `plot_commit_activity`
    and `filter_commits_by_timeframe`, which keeps the most recent weeks of the
    oldest-first weekly series. */
module Timeframe {
  import opened Common

  /** Python's `s[start:]`: a negative start counts from the end, and both
      directions are clamped to the sequence. */
  function SliceFrom<T>(s: seq<T>, start: int): (r: seq<T>)
    ensures |r| <= |s| && r == s[|s| - |r|..]
    ensures start >= 0 ==> |r| == |s| - Min(start, |s|)
    ensures start < 0 ==> |r| == Min(-start, |s|)
  {
    var k := if start < 0 then (if start + |s| < 0 then 0 else start + |s|)
             else Min(start, |s|);
    s[k..]
  }

  /** `filter_commits_by_timeframe(commits, weeks)`. For a window of at least one
      week it keeps exactly the last `min(weeks, |commits|)` entries in their original
      order; a window of `-n <= 0` weeks slices `commits[n:]`, so zero weeks keeps the
      whole series. */
  function FilterByTimeframe<T>(commits: seq<T>, weeks: int): (r: seq<T>)
    ensures weeks >= 1 ==>
      |r| == Min(weeks, |commits|) && r == commits[|commits| - Min(weeks, |commits|)..]
    ensures weeks <= 0 ==> r == commits[Min(-weeks, |commits|)..]
  {
    if |commits| == 0 || weeks >= |commits| then commits
    else SliceFrom(commits, -weeks)
  }

  /** An empty series, or a window that covers it, comes back unchanged. */
  lemma FilterIdentity<T>(commits: seq<T>, weeks: int)
    requires |commits| == 0 || weeks >= |commits|
    ensures FilterByTimeframe(commits, weeks) == commits
  {
  }

  /** The `timeframe_mapping` table of `plot_commit_activity`. */
  const TimeframeWeeks: map<string, int> := map[
    "Last Week" := 1,
    "Last Month" := 4,
    "Last 3 Months" := 12,
    "Last 6 Months" := 26,
    "All Time" := 52
  ]

  /** `timeframe_mapping.get(timeframe, 52)`. */
  function WeeksToShow(timeframe: string): (w: int)
    ensures w in {1, 4, 12, 26, 52}
  {
    if timeframe in TimeframeWeeks then TimeframeWeeks[timeframe] else 52
  }

  /** The table entry for each label of the selector, and the fallback for any other label. */
  lemma WeeksToShowTable(timeframe: string)
    ensures WeeksToShow("Last Week") == 1
    ensures WeeksToShow("Last Month") == 4
    ensures WeeksToShow("Last 3 Months") == 12
    ensures WeeksToShow("Last 6 Months") == 26
    ensures WeeksToShow("All Time") == 52
    ensures timeframe !in {"Last Week", "Last Month", "Last 3 Months", "Last 6 Months", "All Time"} ==>
      WeeksToShow(timeframe) == 52
  {
  }

  /** The series a chart shows for a selected label: since the table never yields
      fewer than one week, it is always the last `min(W, |commits|)` weeks. */
  function CommitWindow<T>(commits: seq<T>, timeframe: string): (r: seq<T>)
    ensures var w := WeeksToShow(timeframe);
      |r| == Min(w, |commits|) && r == commits[|commits| - Min(w, |commits|)..]
  {
    FilterByTimeframe(commits, WeeksToShow(timeframe))
  }

  /** "Last Month" over a full year of 52 weeks shows the last four weeks. */
  lemma LastMonthOfYear<T>(commits: seq<T>)
    requires |commits| == 52
    ensures CommitWindow(commits, "Last Month") == commits[48..]
  {
    WeeksToShowTable("Last Month");
  }
}
