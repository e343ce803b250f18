# AI content detector: a Dafny model of the analysis pipeline

This project models the core of a small detector of machine-written text.
The detector sends a text to a pretrained classifier, splits the text into
sentences and paragraphs, classifies the sentences in one batch, and builds
an analysis result. From that result it prints a console verdict, shows a
result page and lays out a paginated PDF report.

The model has three modules, one file each:

- `strings.dfy` (`Strings`): the Python `str` builtins the core is made of.
  These are whitespace as `str.isspace()` and `\s` see it, `strip()`,
  `split(sep)` and `sep.join(parts)`.
- `ai_detector.dfy` (`AiDetector`), a pure model of `ai_detector.py`. It holds
  sentence splitting on `(?<=[.!?])\s+`, paragraph splitting on a blank line,
  the analysis dictionaries of `analyze_text` and `analyze_sentences`, the
  console tier of `detect_ai_content`, and `_text_from_document` over the
  paragraph texts.
- `webapp.dfy` (`WebApp`) models `webapp.py`.
  - The template's interpretation tier and its 300-character snippet are
    pure functions.
  - `_create_pdf_report` is an imperative method. It drives a `Canvas` class
    whose only state is the trace of calls made on it: `FontSet`, `Drawn(x, y, s)`,
    `PageShown` and `Saved`.
  - Functions (`CursorBefore`, `LinePosition`, `Layout`, `ReportEvents`)
    specify the trace, and lemmas prove the pagination properties about them.

## How the source's terms map to the model

- The classifier is a parameter of type `(seq<string>, nat) -> seq<Prediction>`.
  Its arguments are a batch of texts and the `max_length` used for truncation.
  The model always passes `MaxLength` (512).
  `analyze_text` passes the bare text, and the pipeline returns a list of one
  prediction for it. The model writes this call as `classify([text], 512)`.
- Nothing in the type says how many predictions the classifier returns. The
  model follows the code for every count:
  - `result[0]` on an empty list raises IndexError.
  - `sentences[idx]` past the last sentence raises IndexError.
  - Fewer predictions than sentences give a shorter list.

  These errors are `Err(IndexOutOfRange)`. `OnePerInput` states the
  pipeline's contract (one prediction per input). Under it, `AnalysisAligned`
  proves that the analysis succeeds and lines up with the sentences.
- "Called once" and "not called" are stated by extension.
  `AnalysisUsesTwoCalls` proves that two classifiers agreeing on `([text], 512)`
  and `(sentences, 512)` give the same analysis. `NoSentencesNoCall` proves
  that without sentences any classifier gives `[]`.
- `label` is a Dafny keyword, so the dictionaries' `label` key is the field
  `tag`.
- Scores are `real`, so `score = raw * 100` and `originality = 100 - score` hold exactly.
- The text loop of `_create_pdf_report` (webapp.py:157-163) is the method
  `DrawLines`, and one pass of its body is the method `DrawLine`. The method
  `CreatePdfReport` calls `DrawLines` between the header calls and the final
  `showPage`/`save`. It is the same loop with the same cursor updates.

`analyze_text` (ai_detector.py:17-29) does not reject blank text, so
`AnalyzeText` has no error for it. For blank text the model still classifies
the text and returns no sentences and no paragraphs (`SentencesOfBlank`,
`ParagraphsOfBlank`). Some callers refuse empty text first: `main`
(ai_detector.py:130), `report` (webapp.py:122-124) and the pasted-text path of
`index` (webapp.py:106-107). An uploaded .docx whose paragraphs are all blank
is read as `""` (`DocumentOfBlankParagraphs`) and still reaches
`analyze_text` (webapp.py:100-110).

## Model

| member | source | states |
|---|---|---|
| `Strings.Strip` | ai_detector.py:33 | `strip()` gives a string with no whitespace at either end. It is empty exactly when the text is blank. |
| `Strings.StripSlice` | ai_detector.py:33 | `strip()` gives a slice of the text, and only whitespace is cut off on each side. |
| `Strings.StripStripped` | ai_detector.py:33 | A string with no whitespace at either end is its own `strip()`. |
| `Strings.IsSpace` | ai_detector.py:33 | The characters that `\s` and `str.strip()` treat as whitespace. Used by `Blank`, `Strip` and the sentence boundary. |
| `Strings.Blank` | ai_detector.py:33 | `not s.strip()`: a string of whitespace only. `Strip` proves it empty exactly for these strings. |
| `Strings.StripKeepsLast` | ai_detector.py:33 | Stripping keeps a final non-whitespace character as the last character. |
| `Strings.FirstOccurrence` | ai_detector.py:56 | The search for `sep` finds the leftmost occurrence, or reports none. |
| `Strings.SplitOn` | ai_detector.py:56 | `split(sep)` gives at least one piece. No piece contains `sep`. Joining the pieces with `sep` gives back the text. |
| `Strings.LacksBeforeFirst` | ai_detector.py:56 | The text before the first `sep` holds no `sep`. |
| `Strings.SplitOnFirst` | ai_detector.py:56 | `split` cuts at the first occurrence of `sep` and then splits the rest. |
| `Strings.SplitOnLacking` | ai_detector.py:56 | A text without `sep` splits into just itself. |
| `Strings.Join` | ai_detector.py:84 | `sep.join(parts)`. `SplitJoin` proves that splitting undoes it, `SplitOn` that it undoes splitting, and `JoinBlank` that it keeps blankness. |
| `Strings.SplitJoin` | ai_detector.py:84 | Splitting on a one-character separator undoes joining on it, if no part holds that character. |
| `Strings.JoinBlank` | ai_detector.py:56 | Joining blank parts with a blank separator gives a blank string. |
| `AiDetector.FirstBoundary` | ai_detector.py:33 | Finds the leftmost place where `(?<=[.!?])\s+` can match, or reports none. |
| `AiDetector.RunEnd` | ai_detector.py:33 | A boundary's match takes the whole whitespace run, so the next character is not whitespace. |
| `AiDetector.NoBoundaryBeforeFirst` | ai_detector.py:33 | The text before the first boundary holds none and ends with a mark. |
| `AiDetector.RawSentences` | ai_detector.py:33 | In `re.split`'s pieces, no piece has a mark followed by whitespace. Every piece but the last ends with `.`, `!` or `?`. Every piece but the first does not start with whitespace. |
| `AiDetector.SeparatorsCount` | ai_detector.py:33 | There is one removed whitespace run between each two pieces. |
| `AiDetector.SeparatorsBlank` | ai_detector.py:33 | Every removed run is non-empty and all whitespace. |
| `AiDetector.RawSentencesRebuild` | ai_detector.py:33 | Putting the removed runs back between the pieces rebuilds the text. |
| `AiDetector.StripNonBlank` | ai_detector.py:33 | The comprehension keeps at most one result per piece. |
| `AiDetector.StripNonBlankEmpty` | ai_detector.py:33 | The comprehension gives `[]` exactly when every piece is blank. |
| `AiDetector.StripNonBlankAppend` | ai_detector.py:56 | The comprehension works piece by piece, in order. |
| `AiDetector.StripNonBlankSource` | ai_detector.py:33 | Each result is some non-blank input piece, stripped. It is therefore non-empty with no whitespace at either end. |
| `AiDetector.StripNonBlankEndings` | ai_detector.py:33 | If every piece but the last ends with a mark, so does every result but the last. |
| `AiDetector.SplitSentences` | ai_detector.py:32-34 | The sentence split. `SentencesAreClean`, `SentencesEndWithMark`, `SentencesOfBlank` and `SingleSentence` state its properties. |
| `AiDetector.SentencesAreClean` | ai_detector.py:32-34 | Every sentence is non-empty and stripped. No sentence has a mark followed directly by whitespace. |
| `AiDetector.SentencesEndWithMark` | ai_detector.py:33 | Every sentence but the last ends with `.`, `!` or `?`. |
| `AiDetector.SentencesOfBlank` | ai_detector.py:33 | The split is `[]` exactly when the text is empty or all whitespace. |
| `AiDetector.SingleSentence` | ai_detector.py:33 | Non-blank text with no boundary splits into exactly `[strip(text)]`. |
| `AiDetector.SplitParagraphs` | ai_detector.py:55-56 | The paragraph split. `ParagraphsAreClean`, `ParagraphsOfBlank`, `SingleParagraph` and `TwoParagraphs` state its properties. |
| `AiDetector.ParagraphsAreClean` | ai_detector.py:55-56 | Every paragraph is non-empty, stripped and free of `"\n\n"`. |
| `AiDetector.ParagraphsOfBlank` | ai_detector.py:56 | There are no paragraphs exactly when the text is blank. |
| `AiDetector.PieceOfBlank` | ai_detector.py:56 | Every part of a blank joined string is blank. |
| `AiDetector.SingleParagraph` | ai_detector.py:56 | Non-blank text without `"\n\n"` is exactly `[strip(text)]`. |
| `AiDetector.BreakAfter` | ai_detector.py:56 | In `a + "\n\n" + b`, the first blank line is the one right after `a`, when `a` holds none and does not end in a line break. |
| `AiDetector.TwoParagraphs` | ai_detector.py:56 | Two non-blank paragraphs around one blank line give two stripped paragraphs. |
| `AiDetector.KeepNonBlank` | ai_detector.py:83 | A paragraph text is kept exactly when it is not blank. |
| `AiDetector.KeepNonBlankAppend` | ai_detector.py:83 | The kept paragraphs stay in document order. |
| `AiDetector.TextFromDocument` | ai_detector.py:82-84 | The document text. `DocumentOfBlankParagraphs` and `DocumentLines` state its properties. |
| `AiDetector.DocumentOfBlankParagraphs` | ai_detector.py:82-84 | The document text is `""` exactly when every paragraph is blank. |
| `AiDetector.DocumentLines` | ai_detector.py:82-84 | If no paragraph holds a line break, splitting the document text on `"\n"` gives back the kept paragraphs in order. |
| `AiDetector.AnalyzeSentences` | ai_detector.py:37-52 | With no sentences the result is `[]`. Otherwise there is one entry per prediction, and entry `i` pairs sentence `i` with prediction `i`: `score = raw*100`, `originality = 100 - score`. It fails exactly when there are more predictions than sentences. |
| `AiDetector.AnalyzeText` | ai_detector.py:17-29 | The label and `score = raw*100` come from the whole-document prediction, and `originality = 100 - score`. The text is unchanged. `paragraphs` is the paragraph split and `sentences` the sentence analysis. It fails exactly when the document has no prediction or the sentence analysis fails. |
| `AiDetector.AnalysisAligned` | ai_detector.py:17-52 | With one prediction per input the analysis succeeds. Its entries line up one to one with the split sentences. |
| `AiDetector.ScoresArePercentages` | ai_detector.py:17-52 | Confidences in [0, 1] give scores and originalities in [0, 100], for the document and for every sentence. |
| `AiDetector.SentencesUseOneCall` | ai_detector.py:42-43 | The sentence results depend only on one batched call over all sentences with `max_length=512`. |
| `AiDetector.AnalysisUsesTwoCalls` | ai_detector.py:18-19 | The analysis depends only on the whole-document call and the sentence batch call, both with `max_length=512`. |
| `AiDetector.NoSentencesNoCall` | ai_detector.py:38-40 | Without sentences the sentence result is `[]` for every classifier. |
| `AiDetector.ConsoleVerdict` | ai_detector.py:65-77 | With label `Fake`, the tier is GPT-4/Claude above 98, ChatGPT/Gemini above 90 up to 98, and basic/paraphrasing otherwise. Any other label is human, whatever the score. |
| `AiDetector.DetectAiContent` | ai_detector.py:59-79 | Returns the analysis unchanged, with the console verdict for its label and score and the score as the printed confidence. |
| `WebApp.Interpretation` | webapp.py:64-72 | The score decides first: above 98 is GPT-4/Claude and above 90 is ChatGPT/Gemini, whatever the label. Otherwise `Fake` is the basic tool tier and any other label is human. |
| `WebApp.InterpretationVersusConsole` | webapp.py:64-72 | The page and the console agree exactly when the label is `Fake` or the score is at most 90. A human label above 90 is human on the console and machine-written on the page. |
| `WebApp.Snippet` | webapp.py:76 | The first 300 characters are kept as they are. One ellipsis is appended exactly when the text is longer than 300. |
| `WebApp.SnippetAsWritten` | webapp.py:76 | The first 300 characters are kept as they are. A longer text, and only a longer one, gets the three template characters `TemplateEllipsis` appended. |
| `WebApp.SnippetEncodingSlip` | webapp.py:76 | For a text over 300 characters, the snippet as written ends in three stray characters. The intended snippet ends in one ellipsis. |
| `WebApp.Canvas.constructor` | webapp.py:140 | A fresh canvas has received no calls. |
| `WebApp.Canvas.SetFont` | webapp.py:143 | `setFont` appends one font call and nothing else. |
| `WebApp.Canvas.DrawString` | webapp.py:144 | `drawString` appends one draw call with its coordinates and text, and nothing else. |
| `WebApp.Canvas.ShowPage` | webapp.py:159 | `showPage` appends one page break and nothing else. |
| `WebApp.Canvas.Save` | webapp.py:166 | `save` appends one save call and nothing else. |
| `WebApp.Header` | webapp.py:143-156 | The calls before the loop. `ReportHeaderLayout` states their positions. |
| `WebApp.ReportEvents` | webapp.py:136-168 | Every call of `_create_pdf_report`. `CreatePdfReport` produces it, and `ReportPageCount` and `OverflowMeansTwoPages` count its pages. |
| `WebApp.CursorBefore` | webapp.py:141-163 | The cursor before a text line. `LayoutStep`, `CursorWithoutBreaks` and `DrawLines` state how it moves. |
| `WebApp.LinePosition` | webapp.py:158-162 | Where a line is drawn. `LineDrawn`, `LineSpacing` and `LinesDrawnInsideMargins` state it. |
| `WebApp.LineEvents` | webapp.py:158-162 | The calls for one line. `DrawLine` produces them, and `BreakResetsCursorAndFont` states their order after a break. |
| `WebApp.Layout` | webapp.py:157-163 | The calls of the loop. `DrawLines` produces them, and `EveryLineDrawnOnce`, `LayoutPageCount` and `LayoutPrefix` state their properties. |
| `WebApp.CreatePdfReport` | webapp.py:136-168 | The canvas receives exactly the header calls, the paginated text lines, a final `showPage` and `save`. |
| `WebApp.DrawLine` | webapp.py:158-163 | One pass of the loop: on a low cursor, a page break, the text font, and the line at the top. Otherwise the line at the cursor. The cursor then moves 14 below the line. |
| `WebApp.DrawLines` | webapp.py:157-163 | The loop appends exactly the layout of the wrapped lines and leaves the cursor after the last line. |
| `WebApp.LayoutStep` | webapp.py:157-163 | One more line appends its own calls and moves the cursor 14 below where that line was drawn. |
| `WebApp.EveryLineDrawnOnce` | webapp.py:157-163 | The texts drawn by the loop are exactly the wrapped lines, each once, in wrap order. |
| `WebApp.LinesDrawnInsideMargins` | webapp.py:158-162 | Every line is drawn at `x = 40`. When `page_height - 40 >= 60`, no line is drawn below `y = 60`. |
| `WebApp.BreakResetsCursorAndFont` | webapp.py:158-161 | Every page break is followed by Helvetica 10 and then a line drawn at `page_height - 40`. |
| `WebApp.LineDrawn` | webapp.py:157-162 | The call that draws line `k` is a `drawString` at `(40, LinePosition(k))`. It closes the calls for the first `k + 1` lines, which are a prefix of the whole loop's calls. |
| `WebApp.LineSpacing` | webapp.py:158-163 | For two consecutive lines in the loop's calls: if the second fits, the next call draws it 14 below the first. Otherwise the next calls are `showPage`, Helvetica 10, and the second line drawn at `page_height - 40`. |
| `WebApp.LayoutPageCount` | webapp.py:158-159 | The loop shows one page per line that starts a new page. |
| `WebApp.ReportPageCount` | webapp.py:157-165 | The report shows one page more than the loop breaks: the final `showPage`. |
| `WebApp.CursorWithoutBreaks` | webapp.py:157-163 | Before the first break, line `k` sits `14k` below the first line. |
| `WebApp.SinglePageExactly` | webapp.py:157-163 | The loop never breaks exactly when the last line still fits above 60 below the header. |
| `WebApp.OverflowMeansTwoPages` | webapp.py:141-165 | More wrapped lines than fit below the header give at least two pages. |
| `WebApp.ReportHeaderLayout` | webapp.py:139-157 | The cursor starts at `page_height - 40`. The title, `Result:`, `Confidence:` and `Analyzed Text` lines sit at `y`, `y-30`, `y-46` and `y-70`. The first text line sits at `y-88`. |
| `WebApp.LayoutPrefix` | webapp.py:157-163 | The calls for the first lines are a prefix of the calls for all lines. |

## Findings

| source | as written | input that shows it | evidently intended | confidence | as-written member | corrected member |
|---|---|---|---|---|---|---|
| webapp.py:76 | The template appends the three characters U+00E2 U+20AC U+00A6 (`â€¦`, the UTF-8 bytes of an ellipsis read as Windows-1252) when the text is cut | any text of 301 or more characters | a single U+2026 `…` | high (the bytes are in the file); not executed | `WebApp.SnippetAsWritten`, shown by `WebApp.SnippetEncodingSlip` | `WebApp.Snippet` |

## Left out

- Flask routes `index` and `report`, form and upload handling, the HTML markup and `send_file`: HTTP serving.
- `_is_port_free`, `_get_port` and both `__main__` blocks: sockets and environment.
- The command line `main()`: argparse, stdin loops, file checks and printing.
- The transformers pipeline, its `lru_cache` loader and the message it prints: a foreign model call. It is a total, deterministic function parameter. The classifier's own exceptions are therefore not modelled.
- The tokenizer's truncation itself: it happens inside the classifier. The model only records that every call passes `max_length` 512.
- python-docx parsing in `read_docx_file`/`read_docx_bytes`: a foreign library. Only the join over paragraph texts is modelled.
- reportlab's drawing, fonts and PDF bytes: the canvas is a trace of calls. The A4 height is the parameter `pageHeight`, and the page width is unused by the source.
- `textwrap.wrap(text, 90)`: its result is an input sequence of lines.
- Float formatting (`:.2f`, `round(2)`) and float rounding: the confidence string in the report is an input, and scores are exact reals.
- Console output: the printed lines are the `ConsoleSummary` value (verdict and confidence). The fixed heading line is not modelled.
- Whitespace: `IsSpace` lists the code points for which `str.isspace()` holds. The model uses the same set for `\s`.
