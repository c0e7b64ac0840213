/** The README preview at the end of the single-repository view: a README longer
    than the preview length is shown cut to that length with an ellipsis, and the
    whole text sits behind a "Read more" expander; a shorter one is shown whole.
    A missing or empty README shows no preview section at all. */
module Readme {
  import opened Common

  const PreviewLength: nat := 1000
  const Ellipsis := "..."

  /** What the section renders: the text under the header, and the full text in
      the expander when there is one. */
  datatype Preview = Preview(shown: string, expanded: Option<string>)

  /** The preview of a non-empty README: its first `PreviewLength` characters
      always lead the shown text, a short README is shown whole, a long one is cut
      and ends in the ellipsis, and nothing is lost: what is not shown whole sits
      in the expander. */
  function PreviewOf(content: string): (p: Preview)
    ensures var n := Min(PreviewLength, |content|);
      |p.shown| >= n && p.shown[..n] == content[..n]
    ensures |content| <= PreviewLength ==> p.shown == content
    ensures |content| > PreviewLength ==> |p.shown| == PreviewLength + |Ellipsis|
    ensures p.expanded.None? <==> |content| <= PreviewLength
    ensures p.expanded.Some? ==> p.expanded.value == content && p.shown[PreviewLength..] == Ellipsis
    ensures |p.shown| <= PreviewLength + |Ellipsis|
    ensures p.shown == content || p.expanded == Some(content)
  {
    if |content| > PreviewLength then Preview(content[..PreviewLength] + Ellipsis, Some(content))
    else Preview(content, None)
  }

  /** `if data['readme_content']: ...`: a missing or empty README has no section. */
  function ShowReadme(content: Option<string>): (r: Option<Preview>)
    ensures r.None? <==> content.None? || content.value == ""
    ensures r.Some? ==> r.value == PreviewOf(content.value)
  {
    if content.None? || content.value == "" then None else Some(PreviewOf(content.value))
  }
}
