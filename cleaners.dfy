/**
 * The string cleaners of the two web front ends: the HTML fence stripper of the
 * Flask app, the JSON extractor and the report splitter of the assistant client,
 * and the default-query guard of their `/api/search` routes.
 */
module Cleaners {
  import opened Wrappers
  import opened Strings

  // ---------------------------------------------------------------------------
  // clean_html_response
  // ---------------------------------------------------------------------------

  /** Stripping cannot create an occurrence that the stripped string lacked. */
  lemma StripByKeepsAbsence(s: string, drop: char -> bool, pat: string)
    requires !Contains(s, pat)
    ensures !Contains(StripBy(s, drop), pat)
  {
    var i, j :| 0 <= i <= j <= |s| && StripBy(s, drop) == s[i..j];
    NotContainsSlice(s, i, j, pat);
  }

  /** A string without a fence has no "```html" either. */
  lemma NoFenceNoTaggedFence(s: string, tagged: string)
    requires Fence <= tagged && !Contains(s, Fence)
    ensures !Contains(s, tagged)
  {
    if Contains(s, tagged) {
      ContainsShorter(s, tagged, Fence);
    }
  }

  /**
   * Markdown fences removed, then surrounding whitespace. A missing or empty
   * text gives the empty string.
   */
  function CleanHtmlResponse(text: Option<string>): (r: string)
    ensures text.None? || text.value == [] ==> r == []
    ensures !Contains(r, Fence)
    ensures r == [] || (!IsSpace(r[0]) && !IsSpace(r[|r| - 1]))
  {
    if text.None? || text.value == [] then []
    else
      var unfenced := Replace(Replace(text.value, "```html", ""), Fence, "");
      RemoveFenceLeavesNone(Replace(text.value, "```html", ""));
      StripByKeepsAbsence(unfenced, IsSpace, Fence);
      Strip(unfenced)
  }

  /** Cleaning a cleaned response changes nothing. */
  lemma CleanHtmlResponseIdempotent(text: Option<string>)
    ensures CleanHtmlResponse(Some(CleanHtmlResponse(text))) == CleanHtmlResponse(text)
  {
    var c := CleanHtmlResponse(text);
    if c != [] {
      NoFenceNoTaggedFence(c, "```html");
      ReplaceAbsent(c, "```html", "");
      ReplaceAbsent(c, Fence, "");
      StripByOfStripped(c, IsSpace);
    }
  }

  // ---------------------------------------------------------------------------
  // clean_llm_json_response
  // ---------------------------------------------------------------------------

  /** The index of the first `c` in `s`, if any. */
  function FirstIndexOf(s: string, c: char): (r: Option<nat>)
    ensures r.Some? ==> r.value < |s| && s[r.value] == c && forall k | 0 <= k < r.value :: s[k] != c
    ensures r.None? ==> forall k | 0 <= k < |s| :: s[k] != c
    decreases |s|
  {
    if s == [] then None
    else if s[0] == c then Some(0)
    else match FirstIndexOf(s[1..], c)
      case None => None
      case Some(i) => Some(i + 1)
  }

  /** The index of the last `c` in `s`, if any. */
  function LastIndexOf(s: string, c: char): (r: Option<nat>)
    ensures r.Some? ==> r.value < |s| && s[r.value] == c && forall k | r.value < k < |s| :: s[k] != c
    ensures r.None? ==> forall k | 0 <= k < |s| :: s[k] != c
    decreases |s|
  {
    if s == [] then None
    else if s[|s| - 1] == c then Some(|s| - 1)
    else LastIndexOf(s[..|s| - 1], c)
  }

  /**
   * Where `re.search(r'\{.*\}', s, re.DOTALL)` matches: from the first `{` to
   * the last `}`, provided that this `}` comes after that `{`.
   */
  function BraceSpan(s: string): (r: Option<(nat, nat)>)
    ensures r.Some? ==> BracedAt(s, r.value.0, r.value.1)
  {
    match (FirstIndexOf(s, '{'), LastIndexOf(s, '}'))
    case (Some(i), Some(j)) => if i < j then Some((i, j)) else None
    case _ => None
  }

  /** The text between two braces that the regular expression may match. */
  predicate BracedAt(s: string, a: int, b: int) {
    0 <= a < b < |s| && s[a] == '{' && s[b] == '}'
  }

  /**
   * BraceSpan is the regular expression's own answer: it finds a match exactly
   * when some `{` precedes some `}`, and then the match starts at the leftmost
   * possible position and, from there, is the longest possible.
   */
  lemma BraceSpanIsLeftmostLongest(s: string)
    ensures BraceSpan(s).Some? <==> exists a, b :: BracedAt(s, a, b)
    ensures BraceSpan(s).Some? ==>
      var (i, j) := BraceSpan(s).value;
      BracedAt(s, i, j) && forall a, b | BracedAt(s, a, b) :: i <= a && (a == i ==> b <= j)
  {
    if exists a, b :: BracedAt(s, a, b) {
      var a, b :| BracedAt(s, a, b);
      var i := FirstIndexOf(s, '{').value;
      var j := LastIndexOf(s, '}').value;
      assert i <= a && b <= j;
    }
    if BraceSpan(s).Some? {
      var (i, j) := BraceSpan(s).value;
      assert BracedAt(s, i, j);
    }
  }

  /** The fence-free, whitespace-stripped text that the brace search runs on. */
  function Unfenced(text: string): (r: string)
    ensures !Contains(r, Fence)
    ensures r == [] || (!IsSpace(r[0]) && !IsSpace(r[|r| - 1]))
  {
    var unfenced := Replace(Replace(text, "```json", ""), Fence, "");
    RemoveFenceLeavesNone(Replace(text, "```json", ""));
    StripByKeepsAbsence(unfenced, IsSpace, Fence);
    Strip(unfenced)
  }

  /**
   * Markdown fences removed and whitespace stripped, then the span from the
   * first `{` to the last `}` if there is one, else the stripped text.
   */
  function CleanLlmJsonResponse(text: string): (r: string)
    ensures !Contains(r, Fence)
  {
    var u := Unfenced(text);
    var span := BraceSpan(u);
    if span.None? then u
    else
      NotContainsSlice(u, span.value.0, span.value.1 + 1, Fence);
      u[span.value.0..span.value.1 + 1]
  }

  /**
   * With a `{` before a later `}`, the extractor returns the text from the
   * first `{` to the last `}`: the leftmost, longest braced span.
   */
  lemma CleanLlmJsonResponseFindsObject(text: string)
    requires exists a, b :: BracedAt(Unfenced(text), a, b)
    ensures BraceSpan(Unfenced(text)).Some?
    ensures var u := Unfenced(text);
      var (i, j) := BraceSpan(u).value;
      && BracedAt(u, i, j)
      && CleanLlmJsonResponse(text) == u[i..j + 1]
      && forall a, b | BracedAt(u, a, b) :: i <= a && (a == i ==> b <= j)
  {
    var u := Unfenced(text);
    BraceSpanIsLeftmostLongest(u);
    var span := BraceSpan(u);
    assert CleanLlmJsonResponse(text) == u[span.value.0..span.value.1 + 1];
  }

  /** Without a `{` before a later `}`, the extractor returns the stripped text itself. */
  lemma CleanLlmJsonResponseWithoutObject(text: string)
    requires !exists a, b :: BracedAt(Unfenced(text), a, b)
    ensures CleanLlmJsonResponse(text) == Unfenced(text)
  {
    BraceSpanIsLeftmostLongest(Unfenced(text));
  }

  // ---------------------------------------------------------------------------
  // Report splitting after the HTML assistant's answer
  // ---------------------------------------------------------------------------

  /** The separator between generated screens. */
  const SectionSeparator := "~~~\n\n"

  /** The sections after their 7-character opening is cut and, for the last one, its 3-character closing. */
  function TrimmedSections(pieces: seq<string>): (r: string)
    requires pieces != []
    decreases |pieces|
  {
    if |pieces| == 1 then DropLast(DropFirst(pieces[0], 7), 3)
    else DropFirst(pieces[0], 7) + "\n\n" + TrimmedSections(pieces[1..])
  }

  /**
   * `parts = [s[7:] for s in report.split("~~~\n\n")]`, then
   * `parts[-1] = parts[-1][:-3]`, then `"\n\n".join(parts)`.
   */
  method SplitReportParts(report: string) returns (text: string)
    ensures text == TrimmedSections(Split(report, SectionSeparator))
  {
    var pieces := Split(report, SectionSeparator);
    var parts: seq<string> := [];
    for k := 0 to |pieces|
      invariant |parts| == k
      invariant forall m | 0 <= m < k :: parts[m] == DropFirst(pieces[m], 7)
    {
      parts := parts + [DropFirst(pieces[k], 7)];
    }
    parts := parts[|parts| - 1 := DropLast(parts[|parts| - 1], 3)];
    text := Join("\n\n", parts);
    JoinOfTrimmed(pieces, parts);
  }

  lemma {:induction false} JoinOfTrimmed(pieces: seq<string>, parts: seq<string>)
    requires pieces != [] && |parts| == |pieces|
    requires forall m | 0 <= m < |parts| - 1 :: parts[m] == DropFirst(pieces[m], 7)
    requires parts[|parts| - 1] == DropLast(DropFirst(pieces[|pieces| - 1], 7), 3)
    ensures Join("\n\n", parts) == TrimmedSections(pieces)
    decreases |pieces|
  {
    if |pieces| > 1 {
      JoinOfTrimmed(pieces[1..], parts[1..]);
    }
  }

  /** The 7-character opening of each generated screen. */
  const SectionOpening := "~~~html"

  /** The 3-character closing of the last generated screen. */
  const SectionClosing := "~~~"

  /**
   * What the splitting is for: a report of screens, each opened by "~~~html",
   * the last closed by "~~~", separated by "~~~\n\n", becomes the bare screen
   * bodies separated by blank lines.
   */
  lemma SplitReportRecoversBodies(bodies: seq<string>)
    requires bodies != []
    requires forall k | 0 <= k < |bodies| - 1 :: SeparatorOnlyAfter(SectionOpening + bodies[k], SectionSeparator)
    requires !Contains(SectionOpening + bodies[|bodies| - 1] + SectionClosing, SectionSeparator)
    ensures TrimmedSections(Split(Join(SectionSeparator, Sections(SectionOpening, SectionClosing, bodies)), SectionSeparator))
      == Join("\n\n", bodies)
  {
    TrimmedRoundTrip(bodies, SectionSeparator, SectionOpening, SectionClosing);
  }

  lemma TrimmedRoundTrip(bodies: seq<string>, sep: string, opening: string, closing: string)
    requires bodies != [] && sep != [] && |opening| == 7 && |closing| == 3
    requires forall k | 0 <= k < |bodies| - 1 :: SeparatorOnlyAfter(opening + bodies[k], sep)
    requires !Contains(opening + bodies[|bodies| - 1] + closing, sep)
    ensures TrimmedSections(Split(Join(sep, Sections(opening, closing, bodies)), sep)) == Join("\n\n", bodies)
  {
    var secs := Sections(opening, closing, bodies);
    forall k | 0 <= k < |secs| - 1
      ensures SeparatorOnlyAfter(secs[k], sep)
    {
      assert secs[k] == opening + bodies[k];
    }
    assert secs[|secs| - 1] == opening + bodies[|bodies| - 1] + closing;
    SplitOfJoin(secs, sep);
    TrimmedSectionsOfSections(bodies, opening, closing);
  }

  /** Each body with its opening, and the last one with its closing too. */
  function Sections(opening: string, closing: string, bodies: seq<string>): (r: seq<string>)
    ensures |r| == |bodies|
    ensures forall k | 0 <= k < |r| - 1 :: r[k] == opening + bodies[k]
    ensures r != [] ==> r[|r| - 1] == opening + bodies[|bodies| - 1] + closing
  {
    seq(|bodies|, k requires 0 <= k < |bodies| =>
      if k < |bodies| - 1 then opening + bodies[k] else opening + bodies[k] + closing)
  }

  lemma {:induction false} TrimmedSectionsOfSections(bodies: seq<string>, opening: string, closing: string)
    requires bodies != [] && |opening| == 7 && |closing| == 3
    ensures TrimmedSections(Sections(opening, closing, bodies)) == Join("\n\n", bodies)
    decreases |bodies|
  {
    var s := Sections(opening, closing, bodies);
    if |bodies| == 1 {
      assert DropFirst(s[0], 7) == bodies[0] + closing;
      assert DropLast(bodies[0] + closing, 3) == bodies[0];
    } else {
      TrimmedSectionsOfSections(bodies[1..], opening, closing);
      assert s[1..] == Sections(opening, closing, bodies[1..]);
      assert DropFirst(s[0], 7) == bodies[0];
    }
  }

  // ---------------------------------------------------------------------------
  // The /api/search guard
  // ---------------------------------------------------------------------------

  const DefaultMessage := "Default response for query null."

  /** What the route answers: the fixed message, or the pipeline's output for the query. */
  datatype SearchReply = DefaultReply | PipelineReply(query: string, output: string)

  /**
   * `request.args.get("query", "112")`: a missing query and the query "112"
   * both get the default message and do not run the pipeline.
   */
  function SearchRoute(query: Option<string>, runPipeline: string -> string): (r: SearchReply)
    ensures r.DefaultReply? <==> (query.None? || query.value == "112")
    ensures r.PipelineReply? ==> query == Some(r.query) && r.output == runPipeline(r.query)
  {
    var name := query.GetOr("112");
    if name == "112" then DefaultReply else PipelineReply(name, runPipeline(name))
  }

  /** The response body: `str(result)` of the pipeline, or the default message. */
  function ReplyBody(r: SearchReply): string {
    match r
    case DefaultReply => DefaultMessage
    case PipelineReply(_, output) => output
  }
}
