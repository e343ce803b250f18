/**
 * The analysis pipeline of the detector (ai_detector.py): sentence and
 * paragraph segmentation, the document- and sentence-level results built
 * from the classifier's outputs, the console tier printed by
 * `detect_ai_content`, and the plain text of a Word document.
 *
 * The pretrained classifier is a parameter: a total, deterministic function
 * from a batch of texts and a truncation length to a list of predictions.
 */
module AiDetector {
  import opened Strings

  // ---------------------------------------------------------------------
  // Sentence segmentation: re.split(r'(?<=[.!?])\s+', text)
  // ---------------------------------------------------------------------

  /** The marks `[.!?]` of the look-behind. */
  predicate IsTerminal(c: char) {
    c == '.' || c == '!' || c == '?'
  }

  /** A match of `(?<=[.!?])\s+` starts at index `k` of `s`. */
  predicate BoundaryAt(s: string, k: nat) {
    0 < k < |s| && IsTerminal(s[k - 1]) && IsSpace(s[k])
  }

  /** No mark of `[.!?]` in `s` is directly followed by whitespace. */
  predicate NoBoundary(s: string) {
    forall k: nat :: k <= |s| ==> !BoundaryAt(s, k)
  }

  /** A boundary inside a slice is a boundary of the whole string. */
  lemma BoundaryInSlice(s: string, i: nat, j: nat, k: nat)
    requires i <= j <= |s| && BoundaryAt(s[i..j], k)
    ensures BoundaryAt(s, i + k)
  {
    assert s[i..j][k - 1] == s[i + k - 1] && s[i..j][k] == s[i + k];
  }

  /** A slice of a string without boundaries has none either. */
  lemma NoBoundarySlice(s: string, i: nat, j: nat)
    requires i <= j <= |s| && NoBoundary(s)
    ensures NoBoundary(s[i..j])
  {
    forall k: nat | k <= j - i && BoundaryAt(s[i..j], k) ensures false {
      BoundaryInSlice(s, i, j, k);
    }
  }

  /** Index of the leftmost boundary of `s`, or `|s|` when there is none. */
  function FirstBoundary(s: string): (k: nat)
    ensures k <= |s|
    ensures k < |s| ==> BoundaryAt(s, k)
    ensures forall j: nat :: j < k ==> !BoundaryAt(s, j)
  {
    if |s| < 2 then |s|
    else if IsTerminal(s[0]) && IsSpace(s[1]) then 1
    else
      var k := 1 + FirstBoundary(s[1..]);
      assert forall j: nat :: 1 < j ==> (BoundaryAt(s, j) <==> BoundaryAt(s[1..], j - 1));
      k
  }

  /** End of the greedy `\s+` run that a boundary at `k` matches. */
  function RunEnd(s: string, k: nat): (j: nat)
    requires BoundaryAt(s, k)
    ensures k < j <= |s|
    ensures Blank(s[k..j])
    ensures j < |s| ==> !IsSpace(s[j])
  {
    assert s[k..][0] == s[k];
    assert s[k..][..LeadingSpaces(s[k..])] == s[k..k + LeadingSpaces(s[k..])];
    k + LeadingSpaces(s[k..])
  }

  /**
   * `re.split(r'(?<=[.!?])\s+', s)`: the pieces between the boundaries,
   * leftmost first, each boundary swallowing its whole whitespace run. No
   * piece holds a boundary, every piece but the last ends with a mark, and
   * every piece but the first starts with something other than whitespace.
   */
  function RawSentences(s: string): (r: seq<string>)
    ensures |r| >= 1 && r[0] <= s
    ensures forall i :: 0 <= i < |r| ==> NoBoundary(r[i])
    ensures forall i :: 0 <= i < |r| - 1 ==> r[i] != [] && IsTerminal(r[i][|r[i]| - 1])
    ensures forall i :: 0 < i < |r| ==> r[i] == [] || !IsSpace(r[i][0])
    decreases |s|
  {
    var k := FirstBoundary(s);
    if k == |s| then
      assert NoBoundary(s);
      [s]
    else
      var j := RunEnd(s, k);
      var rest := RawSentences(s[j..]);
      NoBoundaryBeforeFirst(s, k);
      assert rest[0] == [] || rest[0][0] == s[j];
      var r := [s[..k]] + rest;
      assert r[1..] == rest;
      r
  }

  /** The text before the first boundary holds none and ends with a mark. */
  lemma NoBoundaryBeforeFirst(s: string, k: nat)
    requires BoundaryAt(s, k)
    requires forall m: nat :: m < k ==> !BoundaryAt(s, m)
    ensures NoBoundary(s[..k]) && s[..k] != [] && IsTerminal(s[..k][k - 1])
  {
    forall m: nat | m <= k && BoundaryAt(s[..k], m) ensures false {
      BoundaryInSlice(s, 0, k, m);
    }
  }

  /** The whitespace runs that `RawSentences(s)` removes, in order. */
  function Separators(s: string): seq<string>
    decreases |s|
  {
    var k := FirstBoundary(s);
    if k == |s| then [] else
      var j := RunEnd(s, k);
      [s[k..j]] + Separators(s[j..])
  }

  /** There is one separator between each two pieces. */
  lemma {:induction false} SeparatorsCount(s: string)
    ensures |Separators(s)| == |RawSentences(s)| - 1
    decreases |s|
  {
    var k := FirstBoundary(s);
    if k < |s| {
      SeparatorsCount(s[RunEnd(s, k)..]);
    }
  }

  /** Every separator is a non-empty run of whitespace. */
  lemma {:induction false} SeparatorsBlank(s: string)
    ensures forall i :: 0 <= i < |Separators(s)| ==> Separators(s)[i] != [] && Blank(Separators(s)[i])
    decreases |s|
  {
    var k := FirstBoundary(s);
    if k < |s| {
      var j := RunEnd(s, k);
      SeparatorsBlank(s[j..]);
      var ss := Separators(s);
      assert ss == [s[k..j]] + Separators(s[j..]);
    }
  }

  /**
   * Splitting loses nothing but the separators: putting them back between
   * the pieces gives `s`.
   */
  lemma {:induction false} RawSentencesRebuild(s: string)
    ensures |Separators(s)| == |RawSentences(s)| - 1
    ensures Interleave(RawSentences(s), Separators(s)) == s
    decreases |s|
  {
    SeparatorsCount(s);
    var k := FirstBoundary(s);
    if k < |s| {
      var j := RunEnd(s, k);
      var t := s[j..];
      RawSentencesRebuild(t);
      var rest, seps := RawSentences(t), Separators(t);
      var ps, ss := RawSentences(s), Separators(s);
      assert ps == [s[..k]] + rest && ss == [s[k..j]] + seps;
      assert ps[1..] == rest && ss[1..] == seps;
      assert Interleave(ps, ss) == s[..k] + s[k..j] + Interleave(rest, seps);
      assert s[..k] + s[k..j] == s[..j];
      assert s[..j] + t == s;
    }
  }

  /**
   * `[p.strip() for p in parts if p.strip()]`: the stripped parts that are
   * not empty, in order.
   */
  function StripNonBlank(parts: seq<string>): (r: seq<string>)
    ensures |r| <= |parts|
  {
    if parts == [] then []
    else
      var t := Strip(parts[0]);
      var rest := StripNonBlank(parts[1..]);
      if t == [] then rest else [t] + rest
  }

  /** Nothing is kept exactly when every part is blank. */
  lemma {:induction false} StripNonBlankEmpty(parts: seq<string>)
    ensures StripNonBlank(parts) == [] <==> forall j :: 0 <= j < |parts| ==> Blank(parts[j])
  {
    if parts != [] {
      var tail := parts[1..];
      StripNonBlankEmpty(tail);
      if Blank(parts[0]) && StripNonBlank(tail) == [] {
        forall j | 1 <= j < |parts| ensures Blank(parts[j]) {
          assert parts[j] == tail[j - 1];
        }
      }
      if forall j :: 0 <= j < |parts| ==> Blank(parts[j]) {
        forall j | 0 <= j < |tail| ensures Blank(tail[j]) {
          assert tail[j] == parts[j + 1];
        }
      }
    }
  }

  /**
   * Each result of `StripNonBlank(parts)` is a non-blank part, stripped: it
   * is not empty and has no whitespace at either end.
   */
  lemma {:induction false} StripNonBlankSource(parts: seq<string>, i: nat) returns (j: nat)
    requires i < |StripNonBlank(parts)|
    ensures j < |parts| && !Blank(parts[j]) && StripNonBlank(parts)[i] == Strip(parts[j])
    ensures StripNonBlank(parts)[i] != [] && Stripped(StripNonBlank(parts)[i])
  {
    var t, tail := Strip(parts[0]), parts[1..];
    var r, rest := StripNonBlank(parts), StripNonBlank(tail);
    if t == [] {
      assert r == rest;
      var k := StripNonBlankSource(tail, i);
      assert r[i] == Strip(tail[k]) && tail[k] == parts[k + 1];
      j := k + 1;
    } else {
      assert r == [t] + rest;
      if i == 0 {
        j := 0;
      } else {
        var k := StripNonBlankSource(tail, i - 1);
        assert r[i] == rest[i - 1] == Strip(tail[k]) && tail[k] == parts[k + 1];
        j := k + 1;
      }
    }
  }

  /** `StripNonBlank` works part by part: it keeps the order of the parts. */
  lemma {:induction false} StripNonBlankAppend(a: seq<string>, b: seq<string>)
    ensures StripNonBlank(a + b) == StripNonBlank(a) + StripNonBlank(b)
    ensures |a| == 1 ==> StripNonBlank(a) == (if Blank(a[0]) then [] else [Strip(a[0])])
  {
    if a != [] {
      assert (a + b)[0] == a[0] && (a + b)[1..] == a[1..] + b;
      StripNonBlankAppend(a[1..], b);
    } else {
      assert a + b == b;
    }
  }

  /**
   * If every part but the last is non-empty and ends in a mark, so does
   * every stripped result but the last.
   */
  lemma {:induction false} StripNonBlankEndings(parts: seq<string>)
    requires forall i :: 0 <= i < |parts| - 1 ==> parts[i] != [] && IsTerminal(parts[i][|parts[i]| - 1])
    ensures var r := StripNonBlank(parts);
      forall i :: 0 <= i < |r| - 1 ==> r[i] != [] && IsTerminal(r[i][|r[i]| - 1])
  {
    if |parts| >= 2 {
      StripKeepsLast(parts[0]);
      StripNonBlankEndings(parts[1..]);
      assert StripNonBlank(parts) == [Strip(parts[0])] + StripNonBlank(parts[1..]);
    }
  }

  /** `_split_sentences(text)`. */
  function SplitSentences(text: string): seq<string> {
    StripNonBlank(RawSentences(text))
  }

  /**
   * Every sentence is non-empty, has no whitespace at either end and holds
   * no mark directly followed by whitespace.
   */
  lemma SentencesAreClean(text: string)
    ensures forall i :: 0 <= i < |SplitSentences(text)| ==>
      var t := SplitSentences(text)[i];
      t != [] && Stripped(t) && NoBoundary(t)
  {
    var raw := RawSentences(text);
    forall i | 0 <= i < |SplitSentences(text)|
      ensures var t := SplitSentences(text)[i]; t != [] && Stripped(t) && NoBoundary(t)
    {
      var j := StripNonBlankSource(raw, i);
      var a, b := StripSlice(raw[j]);
      NoBoundarySlice(raw[j], a, b);
    }
  }

  /** Every sentence but the last ends with `.`, `!` or `?`. */
  lemma SentencesEndWithMark(text: string)
    ensures var r := SplitSentences(text);
      forall i :: 0 <= i < |r| - 1 ==> r[i] != [] && IsTerminal(r[i][|r[i]| - 1])
  {
    var raw := RawSentences(text);
    assert SplitSentences(text) == StripNonBlank(raw);
    StripNonBlankEndings(raw);
  }

  /** There are no sentences exactly when the text is empty or all whitespace. */
  lemma SentencesOfBlank(text: string)
    ensures SplitSentences(text) == [] <==> Blank(text)
  {
    var raw := RawSentences(text);
    StripNonBlankEmpty(raw);
    if FirstBoundary(text) < |text| {
      assert raw[0] != [] && IsTerminal(raw[0][|raw[0]| - 1]);
      assert !Blank(raw[0]);
      assert !Blank(text) by {
        assert text[FirstBoundary(text) - 1] == raw[0][|raw[0]| - 1];
      }
    }
  }

  /** A non-blank text with no boundary is a single sentence: the whole text, stripped. */
  lemma SingleSentence(text: string)
    requires NoBoundary(text) && !Blank(text)
    ensures SplitSentences(text) == [Strip(text)]
  {
    assert FirstBoundary(text) == |text|;
    assert RawSentences(text) == [text];
    assert StripNonBlank([text][1..]) == [];
  }

  // ---------------------------------------------------------------------
  // Paragraph segmentation and the text of a document
  // ---------------------------------------------------------------------

  /** The blank-line separator of `text.split('\n\n')`. */
  const ParagraphBreak: string := "\n\n"

  /** `_paragraphs_from_text(text)`. */
  function SplitParagraphs(text: string): seq<string> {
    StripNonBlank(SplitOn(text, ParagraphBreak))
  }

  /** Every paragraph is non-empty, has no whitespace at either end and holds no blank line. */
  lemma ParagraphsAreClean(text: string)
    ensures forall i :: 0 <= i < |SplitParagraphs(text)| ==>
      var p := SplitParagraphs(text)[i];
      p != [] && Stripped(p) && Lacks(p, ParagraphBreak)
  {
    var pieces := SplitOn(text, ParagraphBreak);
    forall i | 0 <= i < |SplitParagraphs(text)|
      ensures var p := SplitParagraphs(text)[i]; p != [] && Stripped(p) && Lacks(p, ParagraphBreak)
    {
      var j := StripNonBlankSource(pieces, i);
      var a, b := StripSlice(pieces[j]);
      LacksSlice(pieces[j], ParagraphBreak, a, b);
    }
  }

  /** There are no paragraphs exactly when the text is empty or all whitespace. */
  lemma ParagraphsOfBlank(text: string)
    ensures SplitParagraphs(text) == [] <==> Blank(text)
  {
    var pieces := SplitOn(text, ParagraphBreak);
    StripNonBlankEmpty(pieces);
    if Blank(text) {
      forall j | 0 <= j < |pieces| ensures Blank(pieces[j]) {
        assert Lacks(pieces[j], ParagraphBreak);
        PieceOfBlank(pieces, ParagraphBreak, j);
      }
    }
    if SplitParagraphs(text) == [] {
      JoinBlank(pieces, ParagraphBreak);
    }
  }

  /** Each part joined into a blank string is blank. */
  lemma {:induction false} PieceOfBlank(parts: seq<string>, sep: string, j: nat)
    requires j < |parts| && Blank(Join(parts, sep))
    ensures Blank(parts[j])
  {
    if |parts| > 1 {
      var s := Join(parts, sep);
      assert s == parts[0] + (sep + Join(parts[1..], sep));
      if j == 0 {
        assert forall i :: 0 <= i < |parts[0]| ==> parts[0][i] == s[i];
      } else {
        var tail := Join(parts[1..], sep);
        assert forall i :: 0 <= i < |tail| ==> tail[i] == s[|parts[0]| + |sep| + i];
        PieceOfBlank(parts[1..], sep, j - 1);
      }
    }
  }

  /** A non-blank text with no blank line is a single paragraph: the whole text, stripped. */
  lemma SingleParagraph(text: string)
    requires Lacks(text, ParagraphBreak) && !Blank(text)
    ensures SplitParagraphs(text) == [Strip(text)]
  {
    assert FirstOccurrence(text, ParagraphBreak) == |text|;
    assert SplitOn(text, ParagraphBreak) == [text];
    assert StripNonBlank([text][1..]) == [];
  }

  /**
   * Two non-blank paragraphs separated by one blank line come out as two
   * paragraphs, each stripped. The lemma takes `a` without a final line
   * break so that the first `"\n\n"` is the one right after `a`; with a
   * final line break the cut falls one character earlier.
   */
  lemma TwoParagraphs(a: string, b: string)
    requires !Blank(a) && !Blank(b)
    requires Lacks(a, ParagraphBreak) && Lacks(b, ParagraphBreak)
    requires a[|a| - 1] != '\n'
    ensures SplitParagraphs(a + ParagraphBreak + b) == [Strip(a), Strip(b)]
  {
    var s := a + ParagraphBreak + b;
    assert SplitOn(s, ParagraphBreak) == [a, b] by {
      BreakAfter(a, b);
      SplitOnFirst(s, ParagraphBreak, |a|);
      SplitOnLacking(b, ParagraphBreak);
    }
    assert StripNonBlank([a, b]) == [Strip(a), Strip(b)] by {
      StripNonBlankAppend([a], [b]);
      StripNonBlankAppend([b], []);
      assert [a] + [b] == [a, b];
    }
  }

  /** In `a + "\n\n" + b`, the first blank line is the one after `a`, when `a` neither holds one nor ends in a line break. */
  lemma BreakAfter(a: string, b: string)
    requires a != [] && a[|a| - 1] != '\n' && Lacks(a, ParagraphBreak)
    ensures var s := a + ParagraphBreak + b;
      OccursAt(s, ParagraphBreak, |a|) && s[..|a|] == a && s[|a| + 2..] == b &&
      forall j: nat :: j < |a| ==> !OccursAt(s, ParagraphBreak, j)
  {
    var s := a + ParagraphBreak + b;
    assert s[|a|..|a| + 2] == ParagraphBreak;
    forall j: nat | j < |a| ensures !OccursAt(s, ParagraphBreak, j) {
      if j + 2 <= |a| {
        assert s[j..j + 2] == a[j..j + 2];
        assert !OccursAt(a, ParagraphBreak, j);
      } else {
        assert s[j] == a[|a| - 1];
        assert s[j..j + 2][0] == s[j];
      }
    }
    assert s == a + (ParagraphBreak + b);
  }

  /** `[p.text for p in document.paragraphs if p.text.strip()]`. */
  function KeepNonBlank(paragraphs: seq<string>): (r: seq<string>)
    ensures |r| <= |paragraphs|
    ensures forall p :: p in r <==> p in paragraphs && !Blank(p)
  {
    if paragraphs == [] then []
    else
      var rest := KeepNonBlank(paragraphs[1..]);
      assert forall p :: p in paragraphs <==> p == paragraphs[0] || p in paragraphs[1..];
      if Blank(paragraphs[0]) then rest else [paragraphs[0]] + rest
  }

  /** `KeepNonBlank` works paragraph by paragraph: it keeps the order of the paragraphs. */
  lemma {:induction false} KeepNonBlankAppend(a: seq<string>, b: seq<string>)
    ensures KeepNonBlank(a + b) == KeepNonBlank(a) + KeepNonBlank(b)
    ensures |a| == 1 ==> KeepNonBlank(a) == (if Blank(a[0]) then [] else [a[0]])
  {
    if a != [] {
      var ab := a + b;
      assert ab[0] == a[0] && ab[1..] == a[1..] + b;
      KeepNonBlankAppend(a[1..], b);
      var x, rest := a[0], KeepNonBlank(a[1..]);
      if Blank(x) {
        assert KeepNonBlank(ab) == KeepNonBlank(a[1..] + b) && KeepNonBlank(a) == rest;
      } else {
        assert KeepNonBlank(ab) == [x] + KeepNonBlank(a[1..] + b) && KeepNonBlank(a) == [x] + rest;
      }
    } else {
      assert a + b == b;
    }
  }

  /** `_text_from_document`: the non-blank paragraph texts, in order, joined by line breaks. */
  function TextFromDocument(paragraphs: seq<string>): string {
    Join(KeepNonBlank(paragraphs), "\n")
  }

  /** A document gives the empty string exactly when all its paragraphs are blank. */
  lemma DocumentOfBlankParagraphs(paragraphs: seq<string>)
    ensures TextFromDocument(paragraphs) == "" <==> forall j :: 0 <= j < |paragraphs| ==> Blank(paragraphs[j])
  {
    var kept := KeepNonBlank(paragraphs);
    if kept != [] {
      assert kept[0] in kept;
      assert kept[0] != [];
      assert |kept| > 1 ==> TextFromDocument(paragraphs) == kept[0] + "\n" + Join(kept[1..], "\n");
    } else {
      forall j | 0 <= j < |paragraphs| ensures Blank(paragraphs[j]) {
        assert paragraphs[j] in paragraphs;
      }
    }
  }

  /**
   * When no kept paragraph holds a line break, splitting the document text on
   * line breaks gives back the kept paragraphs.
   */
  lemma DocumentLines(paragraphs: seq<string>)
    requires KeepNonBlank(paragraphs) != []
    requires forall j :: 0 <= j < |paragraphs| ==> '\n' !in paragraphs[j]
    ensures SplitOn(TextFromDocument(paragraphs), "\n") == KeepNonBlank(paragraphs)
  {
    var kept := KeepNonBlank(paragraphs);
    forall i | 0 <= i < |kept| ensures '\n' !in kept[i] {
      assert kept[i] in kept;
    }
    SplitJoin(kept, '\n');
  }

  // ---------------------------------------------------------------------
  // Classification results
  // ---------------------------------------------------------------------

  /** One output of the text-classification pipeline: its label and its confidence, nominally in [0, 1]. */
  datatype Prediction = Prediction(tag: string, score: real)

  /** The pretrained classifier: a batch of texts and the truncation length in, predictions out. */
  type Classifier = (seq<string>, nat) -> seq<Prediction>

  /** The `max_length` every call truncates its inputs to. */
  const MaxLength: nat := 512

  /** The classifier keeps the pipeline's contract: one prediction for each input. */
  ghost predicate OnePerInput(classify: Classifier) {
    forall inputs: seq<string> :: |classify(inputs, MaxLength)| == |inputs|
  }

  /** Every confidence the classifier gives lies in [0, 1]. */
  ghost predicate ScoresInUnitRange(classify: Classifier) {
    forall inputs: seq<string>, i :: 0 <= i < |classify(inputs, MaxLength)| ==>
      0.0 <= classify(inputs, MaxLength)[i].score <= 1.0
  }

  /** Python's IndexError, raised when the classifier returns too few or too many predictions. */
  datatype Failure = IndexOutOfRange

  datatype Result<T> = Ok(value: T) | Err(failure: Failure)

  /** One entry of the `sentences` list of an analysis. */
  datatype SentenceResult = SentenceResult(sentence: string, tag: string, score: real, originality: real)

  /** The dictionary `analyze_text` returns. */
  datatype Analysis = Analysis(
    tag: string,
    score: real,
    originality: real,
    text: string,
    sentences: seq<SentenceResult>,
    paragraphs: seq<string>)

  /** The entry for one sentence and its prediction. */
  function SentenceEntry(sentence: string, p: Prediction): SentenceResult {
    SentenceResult(sentence, p.tag, p.score * 100.0, 100.0 - p.score * 100.0)
  }

  /**
   * `analyze_sentences(text)`: no sentences means no classifier call and an
   * empty list; otherwise one batched call over all sentences, and the entry
   * for prediction `i` pairs it with sentence `i`. A prediction beyond the
   * last sentence raises IndexError.
   */
  function AnalyzeSentences(classify: Classifier, text: string): (r: Result<seq<SentenceResult>>)
    ensures SplitSentences(text) == [] ==> r == Ok([])
    ensures SplitSentences(text) != [] ==>
      (r.Ok? <==> |classify(SplitSentences(text), MaxLength)| <= |SplitSentences(text)|)
    ensures r.Ok? ==> |r.value| <= |SplitSentences(text)|
    ensures r.Ok? && SplitSentences(text) != [] ==> |r.value| == |classify(SplitSentences(text), MaxLength)|
    ensures r.Ok? ==> forall i :: 0 <= i < |r.value| ==>
      r.value[i].sentence == SplitSentences(text)[i] &&
      r.value[i].tag == classify(SplitSentences(text), MaxLength)[i].tag &&
      r.value[i].score == classify(SplitSentences(text), MaxLength)[i].score * 100.0 &&
      r.value[i].originality == 100.0 - r.value[i].score
  {
    var sentences := SplitSentences(text);
    if sentences == [] then Ok([])
    else
      var results := classify(sentences, MaxLength);
      if |results| > |sentences| then Err(IndexOutOfRange)
      else Ok(seq(|results|, i requires 0 <= i < |results| => SentenceEntry(sentences[i], results[i])))
  }

  /**
   * `analyze_text(text)`: the label and score of one classification of the
   * whole text, the originality as the complement of the score, the text
   * itself, the sentence results and the paragraphs. No prediction for the
   * document raises IndexError, and so does a failing sentence analysis.
   */
  function AnalyzeText(classify: Classifier, text: string): (r: Result<Analysis>)
    ensures r.Ok? <==> |classify([text], MaxLength)| > 0 && AnalyzeSentences(classify, text).Ok?
    ensures r.Ok? ==>
      r.value.tag == classify([text], MaxLength)[0].tag &&
      r.value.score == classify([text], MaxLength)[0].score * 100.0 &&
      r.value.originality == 100.0 - r.value.score &&
      r.value.text == text &&
      r.value.sentences == AnalyzeSentences(classify, text).value &&
      r.value.paragraphs == SplitParagraphs(text)
  {
    var document := classify([text], MaxLength);
    if |document| == 0 then Err(IndexOutOfRange)
    else
      var score := document[0].score * 100.0;
      match AnalyzeSentences(classify, text)
      case Err(e) => Err(e)
      case Ok(sentences) =>
        Ok(Analysis(document[0].tag, score, 100.0 - score, text, sentences, SplitParagraphs(text)))
  }

  /**
   * With a classifier that keeps its contract the analysis succeeds, and its
   * sentence results line up one to one with the split sentences.
   */
  lemma AnalysisAligned(classify: Classifier, text: string)
    requires OnePerInput(classify)
    ensures AnalyzeText(classify, text).Ok?
    ensures var a := AnalyzeText(classify, text).value;
      |a.sentences| == |SplitSentences(text)| &&
      forall i :: 0 <= i < |a.sentences| ==>
        a.sentences[i].sentence == SplitSentences(text)[i] &&
        a.sentences[i].originality == 100.0 - a.sentences[i].score
  {
    assert |classify([text], MaxLength)| == 1;
    assert |classify(SplitSentences(text), MaxLength)| == |SplitSentences(text)|;
  }

  /** Confidences in [0, 1] give scores and originalities in [0, 100], for the document and every sentence. */
  lemma ScoresArePercentages(classify: Classifier, text: string)
    requires ScoresInUnitRange(classify)
    requires AnalyzeText(classify, text).Ok?
    ensures var a := AnalyzeText(classify, text).value;
      0.0 <= a.score <= 100.0 && 0.0 <= a.originality <= 100.0 &&
      forall i :: 0 <= i < |a.sentences| ==>
        0.0 <= a.sentences[i].score <= 100.0 && 0.0 <= a.sentences[i].originality <= 100.0
  {
    var a := AnalyzeText(classify, text).value;
    assert 0.0 <= classify([text], MaxLength)[0].score <= 1.0;
    forall i | 0 <= i < |a.sentences|
      ensures 0.0 <= a.sentences[i].score <= 100.0
    {
      assert 0.0 <= classify(SplitSentences(text), MaxLength)[i].score <= 1.0;
    }
  }

  /**
   * The sentence results come from one batched call over all sentences,
   * truncating at `MaxLength`: two classifiers that agree on that call give
   * the same results.
   */
  lemma SentencesUseOneCall(c1: Classifier, c2: Classifier, text: string)
    requires c1(SplitSentences(text), MaxLength) == c2(SplitSentences(text), MaxLength)
    ensures AnalyzeSentences(c1, text) == AnalyzeSentences(c2, text)
  {
    var a1, a2 := AnalyzeSentences(c1, text), AnalyzeSentences(c2, text);
    if a1.Ok? && a2.Ok? {
      assert |a1.value| == |a2.value|;
      forall i | 0 <= i < |a1.value| ensures a1.value[i] == a2.value[i] {
      }
    }
  }

  /**
   * The analysis uses the classifier through exactly two calls, both
   * truncating at `MaxLength`: the whole text, and the batch of all
   * sentences. Two classifiers that agree on those calls give the same result.
   */
  lemma AnalysisUsesTwoCalls(c1: Classifier, c2: Classifier, text: string)
    requires c1([text], MaxLength) == c2([text], MaxLength)
    requires c1(SplitSentences(text), MaxLength) == c2(SplitSentences(text), MaxLength)
    ensures AnalyzeText(c1, text) == AnalyzeText(c2, text)
  {
    SentencesUseOneCall(c1, c2, text);
  }

  /** Without sentences the classifier is not called for them: any two classifiers give the same (empty) list. */
  lemma NoSentencesNoCall(c1: Classifier, c2: Classifier, text: string)
    requires SplitSentences(text) == []
    ensures AnalyzeSentences(c1, text) == AnalyzeSentences(c2, text) == Ok([])
  {
  }

  // ---------------------------------------------------------------------
  // The console summary of detect_ai_content
  // ---------------------------------------------------------------------

  /** The label the pipeline gives machine-written text. */
  const FakeLabel: string := "Fake"

  /** The "Possible Source" tiers. */
  datatype AiSource = Gpt4OrClaude | ChatGptOrGemini | BasicOrParaphrasing

  /** What a summary says about the text. */
  datatype Verdict = LikelyAi(source: AiSource) | LooksHuman

  /**
   * The console's reading of a label and score: the label decides AI or
   * human first, and only for AI text does the score pick the tier.
   */
  function ConsoleVerdict(tag: string, score: real): (v: Verdict)
    ensures v == LikelyAi(Gpt4OrClaude) <==> tag == FakeLabel && score > 98.0
    ensures v == LikelyAi(ChatGptOrGemini) <==> tag == FakeLabel && 90.0 < score <= 98.0
    ensures v == LikelyAi(BasicOrParaphrasing) <==> tag == FakeLabel && score <= 90.0
    ensures v == LooksHuman <==> tag != FakeLabel
  {
    if tag == FakeLabel then
      if score > 98.0 then LikelyAi(Gpt4OrClaude)
      else if score > 90.0 then LikelyAi(ChatGptOrGemini)
      else LikelyAi(BasicOrParaphrasing)
    else LooksHuman
  }

  /** What `detect_ai_content` prints: the verdict and the confidence score. */
  datatype ConsoleSummary = ConsoleSummary(verdict: Verdict, confidence: real)

  /** `detect_ai_content(text)`: the analysis, returned unchanged, with its console summary. */
  function DetectAiContent(classify: Classifier, text: string): (r: Result<(Analysis, ConsoleSummary)>)
    ensures r.Ok? <==> AnalyzeText(classify, text).Ok?
    ensures r.Ok? ==> r.value.0 == AnalyzeText(classify, text).value
    ensures r.Ok? ==> r.value.1.confidence == r.value.0.score
    ensures r.Ok? ==> r.value.1.verdict == ConsoleVerdict(r.value.0.tag, r.value.0.score)
  {
    match AnalyzeText(classify, text)
    case Err(e) => Err(e)
    case Ok(analysis) => Ok((analysis, ConsoleSummary(ConsoleVerdict(analysis.tag, analysis.score), analysis.score)))
  }
}
