/**
 * The report side of the web application (webapp.py): the interpretation
 * tier and the snippet shown by the result page, and the layout of the PDF
 * report as a trace of calls on a drawing canvas.
 *
 * The canvas records what is asked of it (fonts, strings drawn at
 * coordinates, page breaks, the final save) and nothing else; the page
 * height is a parameter, the wrapped lines of the analysed text and the
 * formatted confidence are inputs.
 */
module WebApp {
  import opened Strings
  import opened AiDetector

  // ---------------------------------------------------------------------
  // The result page
  // ---------------------------------------------------------------------

  /**
   * The template's interpretation: unlike the console, the score is tested
   * before the label, so a score above 90 reads as machine-written whatever
   * the label.
   */
  function Interpretation(tag: string, score: real): (v: Verdict)
    ensures v == LikelyAi(Gpt4OrClaude) <==> score > 98.0
    ensures v == LikelyAi(ChatGptOrGemini) <==> 90.0 < score <= 98.0
    ensures v == LikelyAi(BasicOrParaphrasing) <==> score <= 90.0 && tag == FakeLabel
    ensures v == LooksHuman <==> score <= 90.0 && tag != FakeLabel
  {
    if score > 98.0 then LikelyAi(Gpt4OrClaude)
    else if score > 90.0 then LikelyAi(ChatGptOrGemini)
    else if tag == FakeLabel then LikelyAi(BasicOrParaphrasing)
    else LooksHuman
  }

  /**
   * The page and the console agree on every text labelled AI and on every
   * score of at most 90; they disagree exactly on a human label with a score
   * above 90, which the page reads as machine-written.
   */
  lemma InterpretationVersusConsole(tag: string, score: real)
    ensures Interpretation(tag, score) == ConsoleVerdict(tag, score) <==> tag == FakeLabel || score <= 90.0
    ensures tag != FakeLabel && score > 90.0 ==>
      ConsoleVerdict(tag, score) == LooksHuman && Interpretation(tag, score).LikelyAi?
  {
  }

  /** How many characters of the text the snippet shows. */
  const SnippetLength: nat := 300

  /** The ellipsis the template means to append to a cut snippet. */
  const Ellipsis: string := "\U{2026}"

  /**
   * The three characters the template actually holds where the ellipsis
   * belongs: the UTF-8 bytes of U+2026 read as Windows-1252.
   */
  const TemplateEllipsis: string := "\U{E2}\U{20AC}\U{A6}"

  /** `text[:300]`, followed by `suffix` when the text is longer than 300 characters. */
  function SnippetWith(text: string, suffix: string): string {
    if |text| > SnippetLength then text[..SnippetLength] + suffix else text
  }

  /** The snippet as the template renders it: a cut text ends in `TemplateEllipsis`. */
  function SnippetAsWritten(text: string): (r: string)
    ensures |text| <= SnippetLength ==> r == text
    ensures |text| > SnippetLength ==> |r| == SnippetLength + |TemplateEllipsis|
    ensures |text| > SnippetLength ==>
      r[..SnippetLength] == text[..SnippetLength] && r[SnippetLength..] == TemplateEllipsis
  {
    SnippetWith(text, TemplateEllipsis)
  }

  /**
   * The snippet with the intended ellipsis: the first 300 characters, and
   * one ellipsis character exactly when something was cut off.
   */
  function Snippet(text: string): (r: string)
    ensures |r| == Min(|text|, SnippetLength) + (if |text| > SnippetLength then 1 else 0)
    ensures r[..Min(|text|, SnippetLength)] == text[..Min(|text|, SnippetLength)]
    ensures |text| <= SnippetLength ==> r == text
    ensures |text| > SnippetLength ==> r[SnippetLength..] == Ellipsis
  {
    SnippetWith(text, Ellipsis)
  }

  function Min(a: nat, b: nat): nat {
    if a <= b then a else b
  }

  /**
   * For every text longer than 300 characters the rendered snippet ends in
   * three stray characters where one ellipsis was meant.
   */
  lemma SnippetEncodingSlip(text: string)
    requires |text| > SnippetLength
    ensures SnippetAsWritten(text)[SnippetLength..] == "\U{E2}\U{20AC}\U{A6}"
    ensures |SnippetAsWritten(text)| == |Snippet(text)| + 2
    ensures SnippetAsWritten(text) != Snippet(text)
  {
  }

  // ---------------------------------------------------------------------
  // The PDF report
  // ---------------------------------------------------------------------

  /** One call made on the canvas. */
  datatype Event =
    | FontSet(font: string, size: nat)
    | Drawn(x: real, y: real, text: string)
    | PageShown
    | Saved

  /** A reportlab canvas reduced to the record of the calls made on it. */
  class Canvas {
    var trace: seq<Event>

    constructor ()
      ensures trace == []
    {
      trace := [];
    }

    method SetFont(font: string, size: nat)
      modifies this
      ensures trace == old(trace) + [FontSet(font, size)]
    {
      trace := trace + [FontSet(font, size)];
    }

    method DrawString(x: real, y: real, text: string)
      modifies this
      ensures trace == old(trace) + [Drawn(x, y, text)]
    {
      trace := trace + [Drawn(x, y, text)];
    }

    method ShowPage()
      modifies this
      ensures trace == old(trace) + [PageShown]
    {
      trace := trace + [PageShown];
    }

    method Save()
      modifies this
      ensures trace == old(trace) + [Saved]
    {
      trace := trace + [Saved];
    }
  }

  /** The left margin, and the margin kept at the top of each page. */
  const Margin: real := 40.0

  /** A text line is only drawn while the cursor stays at or above this. */
  const BottomLimit: real := Margin + 20.0

  /** Vertical distance between two lines of text. */
  const LineStep: real := 14.0

  /** Offset of the first text line below the title line. */
  const HeaderDepth: real := 88.0

  const Title: string := "AI Content Detector Report"
  const TextFont: string := "Helvetica"
  const TextSize: nat := 10

  /** The cursor before text line `n`, from `y0` at the first line; a page break resets it to `top`. */
  function CursorBefore(n: nat, y0: real, top: real): real
    decreases n, 0
  {
    if n == 0 then y0 else LinePosition(n - 1, y0, top) - LineStep
  }

  /** Whether text line `k` starts a new page. */
  predicate BreaksBefore(k: nat, y0: real, top: real) {
    CursorBefore(k, y0, top) < BottomLimit
  }

  /** Where text line `k` is drawn. */
  function LinePosition(k: nat, y0: real, top: real): real
    decreases k, 1
  {
    if CursorBefore(k, y0, top) < BottomLimit then top else CursorBefore(k, y0, top)
  }

  /** The calls for one text line, drawn with the cursor at `y`. */
  function LineEvents(y: real, line: string, top: real): seq<Event> {
    if y < BottomLimit then [PageShown, FontSet(TextFont, TextSize), Drawn(Margin, top, line)]
    else [Drawn(Margin, y, line)]
  }

  /** The calls of the loop over the wrapped lines, the cursor starting at `y0`. */
  function Layout(lines: seq<string>, y0: real, top: real): seq<Event>
    decreases |lines|
  {
    if lines == [] then []
    else
      var n := |lines| - 1;
      Layout(lines[..n], y0, top) + LineEvents(CursorBefore(n, y0, top), lines[n], top)
  }

  /** The calls before the loop: title, result, confidence and section header. */
  function Header(tag: string, confidence: string, top: real): seq<Event> {
    [ FontSet("Helvetica-Bold", 20), Drawn(Margin, top, Title),
      FontSet("Helvetica", 12), Drawn(Margin, top - 30.0, "Result: " + tag),
      Drawn(Margin, top - 46.0, "Confidence: " + confidence + "%"),
      FontSet("Helvetica-Bold", 14), Drawn(Margin, top - 70.0, "Analyzed Text"),
      FontSet(TextFont, TextSize) ]
  }

  /** Every call `_create_pdf_report` makes on its canvas, in order. */
  function ReportEvents(tag: string, confidence: string, lines: seq<string>, pageHeight: real): seq<Event> {
    var top := pageHeight - Margin;
    Header(tag, confidence, top) + Layout(lines, top - HeaderDepth, top) + [PageShown, Saved]
  }

  /**
   * `_create_pdf_report(analysis)`: `lines` is `textwrap.wrap(analysis['text'], 90)`
   * and `confidence` is the score formatted to two decimals.
   */
  method CreatePdfReport(analysis: Analysis, confidence: string, lines: seq<string>, pageHeight: real)
    returns (c: Canvas)
    ensures fresh(c)
    ensures c.trace == ReportEvents(analysis.tag, confidence, lines, pageHeight)
  {
    c := new Canvas();
    var y := pageHeight - Margin;
    var top := y;

    c.SetFont("Helvetica-Bold", 20);
    c.DrawString(Margin, y, Title);
    y := y - 30.0;

    c.SetFont("Helvetica", 12);
    c.DrawString(Margin, y, "Result: " + analysis.tag);
    y := y - 16.0;
    c.DrawString(Margin, y, "Confidence: " + confidence + "%");
    y := y - 24.0;

    c.SetFont("Helvetica-Bold", 14);
    c.DrawString(Margin, y, "Analyzed Text");
    y := y - 18.0;
    c.SetFont(TextFont, TextSize);

    assert c.trace == Header(analysis.tag, confidence, top);
    y := DrawLines(c, lines, y, pageHeight);
    c.ShowPage();
    c.Save();
  }

  /** One more line adds its own calls to the layout and moves the cursor one step below it. */
  lemma LayoutStep(lines: seq<string>, i: nat, y0: real, top: real)
    requires i < |lines|
    ensures Layout(lines[..i + 1], y0, top) == Layout(lines[..i], y0, top) + LineEvents(CursorBefore(i, y0, top), lines[i], top)
    ensures CursorBefore(i + 1, y0, top) == LinePosition(i, y0, top) - LineStep
  {
    assert lines[..i + 1][..i] == lines[..i];
  }

  /**
   * One pass of the text loop: break the page and restore the text font when
   * the cursor is below the bottom limit, draw the line, step the cursor down.
   */
  method DrawLine(c: Canvas, line: string, y0: real, top: real) returns (y: real)
    modifies c
    ensures c.trace == old(c.trace) + LineEvents(y0, line, top)
    ensures y == (if y0 < BottomLimit then top else y0) - LineStep
  {
    y := y0;
    if y < Margin + 20.0 {
      c.ShowPage();
      y := top;
      c.SetFont(TextFont, TextSize);
    }
    c.DrawString(Margin, y, line);
    y := y - LineStep;
  }

  /**
   * The text loop of `_create_pdf_report`: draws each line at the cursor,
   * first breaking the page and restoring the text font whenever the cursor
   * has fallen below the bottom limit. Returns the final cursor.
   */
  method DrawLines(c: Canvas, lines: seq<string>, y0: real, pageHeight: real) returns (y: real)
    modifies c
    ensures c.trace == old(c.trace) + Layout(lines, y0, pageHeight - Margin)
    ensures y == CursorBefore(|lines|, y0, pageHeight - Margin)
  {
    var top := pageHeight - Margin;
    y := y0;
    for i := 0 to |lines|
      invariant c.trace == old(c.trace) + Layout(lines[..i], y0, top)
      invariant y == CursorBefore(i, y0, top)
    {
      LayoutStep(lines, i, y0, top);
      y := DrawLine(c, lines[i], y, top);
    }
    assert lines[..|lines|] == lines;
  }

  // ---------------------------------------------------------------------
  // Properties of the layout
  // ---------------------------------------------------------------------

  /** The text of each `Drawn` call, in order. */
  function DrawnTexts(events: seq<Event>): seq<string> {
    if events == [] then []
    else (if events[0].Drawn? then [events[0].text] else []) + DrawnTexts(events[1..])
  }

  /** Number of page breaks in a trace. */
  function PagesShown(events: seq<Event>): nat {
    multiset(events)[PageShown]
  }

  /** Number of text lines among the first `n` that start a new page. */
  function BreakCount(n: nat, y0: real, top: real): nat {
    if n == 0 then 0 else BreakCount(n - 1, y0, top) + (if BreaksBefore(n - 1, y0, top) then 1 else 0)
  }

  lemma {:induction false} DrawnTextsAppend(a: seq<Event>, b: seq<Event>)
    ensures DrawnTexts(a + b) == DrawnTexts(a) + DrawnTexts(b)
  {
    if a != [] {
      assert (a + b)[0] == a[0];
      assert (a + b)[1..] == a[1..] + b;
      DrawnTextsAppend(a[1..], b);
    } else {
      assert a + b == b;
    }
  }

  /** Every wrapped line is drawn exactly once, in wrap order. */
  lemma {:induction false} EveryLineDrawnOnce(lines: seq<string>, y0: real, top: real)
    ensures DrawnTexts(Layout(lines, y0, top)) == lines
    decreases |lines|
  {
    if lines != [] {
      var n := |lines| - 1;
      var q := LineEvents(CursorBefore(n, y0, top), lines[n], top);
      EveryLineDrawnOnce(lines[..n], y0, top);
      DrawnTextsAppend(Layout(lines[..n], y0, top), q);
      assert DrawnTexts(q) == [lines[n]] by {
        if |q| == 3 {
          assert q[1..][1..] == [q[2]];
          assert DrawnTexts(q[1..][1..]) == [lines[n]];
        }
      }
      assert lines == lines[..n] + [lines[n]];
    }
  }

  /**
   * Each text line is drawn at the left margin and, when the top of a page
   * leaves room for a line, never below the bottom limit.
   */
  lemma {:induction false} LinesDrawnInsideMargins(lines: seq<string>, y0: real, top: real)
    ensures forall i :: 0 <= i < |Layout(lines, y0, top)| && Layout(lines, y0, top)[i].Drawn? ==>
      Layout(lines, y0, top)[i].x == Margin && (top >= BottomLimit ==> Layout(lines, y0, top)[i].y >= BottomLimit)
    decreases |lines|
  {
    if lines != [] {
      LinesDrawnInsideMargins(lines[..|lines| - 1], y0, top);
    }
  }

  /** Each page break in `e` is followed by the text font and a line drawn at `top`. */
  predicate BreaksRestartPage(e: seq<Event>, top: real) {
    forall i :: 0 <= i < |e| && e[i] == PageShown ==>
      i + 2 < |e| && e[i + 1] == FontSet(TextFont, TextSize) && e[i + 2].Drawn? && e[i + 2].y == top
  }

  /**
   * A page break is always followed by the text font being set again and by
   * a line drawn at the top of the new page.
   */
  lemma {:induction false} BreakResetsCursorAndFont(lines: seq<string>, y0: real, top: real)
    ensures BreaksRestartPage(Layout(lines, y0, top), top)
    decreases |lines|
  {
    if lines != [] {
      var n := |lines| - 1;
      var p, q := Layout(lines[..n], y0, top), LineEvents(CursorBefore(n, y0, top), lines[n], top);
      BreakResetsCursorAndFont(lines[..n], y0, top);
      var e := p + q;
      assert Layout(lines, y0, top) == e;
      forall i | 0 <= i < |e| && e[i] == PageShown
        ensures i + 2 < |e| && e[i + 1] == FontSet(TextFont, TextSize) && e[i + 2].Drawn? && e[i + 2].y == top
      {
        if i < |p| {
          assert p[i] == PageShown;
        } else {
          assert q[i - |p|] == PageShown;
        }
      }
    }
  }

  /**
   * Line `k` is drawn at `LinePosition(k)`: its `Drawn` call closes the
   * calls for the first `k + 1` lines, which start the calls for all lines.
   */
  lemma LineDrawn(lines: seq<string>, k: nat, y0: real, top: real)
    requires k < |lines|
    ensures var p := Layout(lines[..k + 1], y0, top);
      p != [] && p[|p| - 1] == Drawn(Margin, LinePosition(k, y0, top), lines[k]) &&
      p <= Layout(lines, y0, top)
  {
    LayoutStep(lines, k, y0, top);
    LayoutPrefix(lines, k + 1, y0, top);
  }

  /**
   * Two consecutive lines in the trace: when the second one fits, it is
   * drawn by the very next call, 14 below the first; otherwise the next calls
   * break the page, restore the text font and draw it at the top.
   */
  lemma LineSpacing(lines: seq<string>, k: nat, y0: real, top: real)
    requires k + 1 < |lines|
    ensures var e, y := Layout(lines, y0, top), LinePosition(k, y0, top);
      !BreaksBefore(k + 1, y0, top) ==>
        (exists i :: 0 <= i < |e| - 1 && e[i] == Drawn(Margin, y, lines[k]) &&
          e[i + 1] == Drawn(Margin, y - LineStep, lines[k + 1]))
    ensures var e, y := Layout(lines, y0, top), LinePosition(k, y0, top);
      BreaksBefore(k + 1, y0, top) ==>
        (exists i :: 0 <= i < |e| - 3 && e[i] == Drawn(Margin, y, lines[k]) &&
          e[i + 1] == PageShown && e[i + 2] == FontSet(TextFont, TextSize) &&
          e[i + 3] == Drawn(Margin, top, lines[k + 1]))
  {
    var e, y := Layout(lines, y0, top), LinePosition(k, y0, top);
    var p, q := Layout(lines[..k + 1], y0, top), Layout(lines[..k + 2], y0, top);
    LineDrawn(lines, k, y0, top);
    LayoutStep(lines, k + 1, y0, top);
    LayoutPrefix(lines, k + 2, y0, top);
    var i := |p| - 1;
    assert e[i] == q[i] == p[i];
    if BreaksBefore(k + 1, y0, top) {
      assert q == p + [PageShown, FontSet(TextFont, TextSize), Drawn(Margin, top, lines[k + 1])];
      assert e[i + 1] == q[i + 1] && e[i + 2] == q[i + 2] && e[i + 3] == q[i + 3];
    } else {
      assert q == p + [Drawn(Margin, y - LineStep, lines[k + 1])];
      assert e[i + 1] == q[i + 1];
    }
  }

  /** The loop shows one page for each line that starts a new page. */
  lemma {:induction false} LayoutPageCount(lines: seq<string>, y0: real, top: real)
    ensures PagesShown(Layout(lines, y0, top)) == BreakCount(|lines|, y0, top)
    decreases |lines|
  {
    if lines != [] {
      var n := |lines| - 1;
      LayoutPageCount(lines[..n], y0, top);
    }
  }

  /** The whole report shows one page more than the loop breaks: the final page. */
  lemma ReportPageCount(tag: string, confidence: string, lines: seq<string>, pageHeight: real)
    ensures PagesShown(ReportEvents(tag, confidence, lines, pageHeight)) ==
      BreakCount(|lines|, pageHeight - Margin - HeaderDepth, pageHeight - Margin) + 1
  {
    var top := pageHeight - Margin;
    var h, l := Header(tag, confidence, top), Layout(lines, top - HeaderDepth, top);
    LayoutPageCount(lines, top - HeaderDepth, top);
    assert PagesShown(h) == 0;
    assert PagesShown([PageShown, Saved]) == 1;
  }

  /** Until the first page break, line `k` sits `k` steps below the first. */
  lemma {:induction false} CursorWithoutBreaks(n: nat, y0: real, top: real)
    requires BreakCount(n, y0, top) == 0
    ensures forall k :: 0 <= k <= n ==> CursorBefore(k, y0, top) == y0 - LineStep * (k as real)
  {
    if n > 0 {
      CursorWithoutBreaks(n - 1, y0, top);
      assert !BreaksBefore(n - 1, y0, top);
    }
  }

  /**
   * The loop stays on the first page exactly when the last line still fits
   * above the bottom limit without breaking.
   */
  lemma {:induction false} SinglePageExactly(n: nat, y0: real, top: real)
    ensures BreakCount(n, y0, top) == 0 <==> n == 0 || y0 - LineStep * ((n - 1) as real) >= BottomLimit
  {
    if n > 0 {
      if BreakCount(n, y0, top) == 0 {
        CursorWithoutBreaks(n, y0, top);
        assert !BreaksBefore(n - 1, y0, top);
      } else if y0 - LineStep * ((n - 1) as real) >= BottomLimit {
        assert BreakCount(n - 1, y0, top) == 0 by {
          if BreakCount(n - 1, y0, top) != 0 {
            SinglePageExactly(n - 1, y0, top);
          }
        }
        CursorWithoutBreaks(n - 1, y0, top);
      }
    }
  }

  /** More wrapped lines than fit below the header make a report of at least two pages. */
  lemma OverflowMeansTwoPages(tag: string, confidence: string, lines: seq<string>, pageHeight: real)
    requires |lines| > 0
    requires pageHeight - Margin - HeaderDepth - LineStep * ((|lines| - 1) as real) < BottomLimit
    ensures PagesShown(ReportEvents(tag, confidence, lines, pageHeight)) >= 2
  {
    ReportPageCount(tag, confidence, lines, pageHeight);
    SinglePageExactly(|lines|, pageHeight - Margin - HeaderDepth, pageHeight - Margin);
  }

  /**
   * The cursor starts `Margin` below the page top; the title, result,
   * confidence and section header sit 0, 30, 46 and 70 below it, and the
   * first text line 88 below it.
   */
  lemma ReportHeaderLayout(tag: string, confidence: string, lines: seq<string>, pageHeight: real)
    requires |lines| > 0 && pageHeight - Margin - HeaderDepth >= BottomLimit
    ensures var e := ReportEvents(tag, confidence, lines, pageHeight);
      var top := pageHeight - Margin;
      |e| > 8 &&
      e[1] == Drawn(Margin, top, Title) &&
      e[3] == Drawn(Margin, top - 30.0, "Result: " + tag) &&
      e[4] == Drawn(Margin, top - 46.0, "Confidence: " + confidence + "%") &&
      e[6] == Drawn(Margin, top - 70.0, "Analyzed Text") &&
      e[8] == Drawn(Margin, top - 88.0, lines[0])
  {
    var top := pageHeight - Margin;
    assert Layout(lines[..1], top - HeaderDepth, top) == [Drawn(Margin, top - 88.0, lines[0])];
    assert Layout(lines, top - HeaderDepth, top)[0] == Drawn(Margin, top - 88.0, lines[0]) by {
      LayoutPrefix(lines, 1, top - HeaderDepth, top);
    }
  }

  /** The calls for the first lines are a prefix of the calls for all of them. */
  lemma {:induction false} LayoutPrefix(lines: seq<string>, m: nat, y0: real, top: real)
    requires m <= |lines|
    ensures Layout(lines[..m], y0, top) <= Layout(lines, y0, top)
    decreases |lines| - m
  {
    if m < |lines| {
      var n := |lines| - 1;
      LayoutPrefix(lines[..n], m, y0, top);
      assert lines[..n][..m] == lines[..m];
    } else {
      assert lines[..m] == lines;
    }
  }
}
