/**
  Assembly of the raw text from per-page OCR results, as `run_tesseract` and
  `run_vision` write it to the first output file.

  The OCR engines are not modelled: each page's result is given. For the
  Tesseract path it is `None` when the engine raised an error on that page;
  for the Vision path it is `None` when the response carries no text.
 */
module Ocr {
  import opened Wrappers
  import opened Text
  import opened Batcher

  /** The pages the OCR engine read, in page order. */
  function Successful(pages: seq<Option<string>>): seq<string>
  {
    if pages == [] then []
    else if pages[|pages| - 1].Some? then Successful(pages[..|pages| - 1]) + [pages[|pages| - 1].value]
    else Successful(pages[..|pages| - 1])
  }

  /** `output_lines` of `run_tesseract`: the stripped text of each page read, in page order. */
  function PageLines(pages: seq<Option<string>>): (lines: seq<string>)
    ensures |lines| <= |pages|
  {
    if pages == [] then []
    else if pages[|pages| - 1].Some? then PageLines(pages[..|pages| - 1]) + [Strip(pages[|pages| - 1].value)]
    else PageLines(pages[..|pages| - 1])
  }

  /**
    `run_tesseract`: the text of each page read is stripped and kept; a page
    the engine failed on is dropped; the kept texts are joined with the
    blank-line delimiter.
   */
  method RunTesseract(pages: seq<Option<string>>) returns (raw: string)
    ensures raw == Join(PageLines(pages))
  {
    var lines: seq<string> := [];
    for i := 0 to |pages|
      invariant lines == PageLines(pages[..i])
    {
      assert pages[..i + 1][..i] == pages[..i];
      match pages[i]
      case Some(text) =>
        lines := lines + [Strip(text)];
      case None =>
    }
    assert pages[..|pages|] == pages;
    raw := Join(lines);
  }

  /**
    The lines of `run_tesseract` are the stripped texts of the pages read,
    one per page read and in page order; none has whitespace at either end.
   */
  lemma {:induction false} PageLinesStripped(pages: seq<Option<string>>)
    ensures var lines := PageLines(pages); var read := Successful(pages);
      && |lines| == |read|
      && forall i :: 0 <= i < |lines| ==> lines[i] == Strip(read[i])
    decreases |pages|
  {
    if pages != [] {
      PageLinesStripped(pages[..|pages| - 1]);
    }
  }

  /** A page whose OCR failed contributes nothing: the text is that of the other pages. */
  lemma {:induction false} FailedPageDropped(pages: seq<Option<string>>, i: nat)
    requires i < |pages| && pages[i] == None
    ensures PageLines(pages) == PageLines(pages[..i] + pages[i + 1..])
    decreases |pages|
  {
    var init := pages[..|pages| - 1];
    if i == |pages| - 1 {
      assert pages[..i] + pages[i + 1..] == init;
    } else {
      FailedPageDropped(init, i);
      var dropped := pages[..i] + pages[i + 1..];
      assert dropped[..|dropped| - 1] == init[..i] + init[i + 1..];
      assert dropped[|dropped| - 1] == pages[|pages| - 1];
    }
  }

  /** When the engine fails on every page, the raw text is empty. */
  lemma {:induction false} AllPagesFailed(pages: seq<Option<string>>)
    requires forall i :: 0 <= i < |pages| ==> pages[i] == None
    ensures Join(PageLines(pages)) == ""
    decreases |pages|
  {
    if pages != [] {
      AllPagesFailed(pages[..|pages| - 1]);
    }
  }

  /**
    Stripped pages never run into each other: the paragraphs of the joined
    text are the paragraphs of each page, in page order.
   */
  lemma {:induction false} JoinedPagesSplit(lines: seq<string>)
    requires lines != []
    requires forall i :: 0 <= i < |lines| ==> !EndsWithNewline(lines[i])
    ensures Split(Join(lines)) == SplitEach(lines)
    decreases |lines|
  {
    if |lines| == 1 {
      assert SplitEach(lines) == Split(lines[0]) + SplitEach([]);
    } else {
      JoinedPagesSplit(lines[1..]);
      SplitAtDelimiter(lines[0], Join(lines[1..]));
    }
  }

  /**
    The paragraphs the batcher sees in `run_tesseract`'s output are the
    paragraphs of the stripped pages, in page order, each in exactly one
    batch run.
   */
  lemma TesseractParagraphs(pages: seq<Option<string>>, limit: nat)
    requires Successful(pages) != []
    ensures var raw := Join(PageLines(pages));
      && Split(raw) == SplitEach(PageLines(pages))
      && Flatten(Runs(Split(raw), limit)) == SplitEach(PageLines(pages))
  {
    var lines := PageLines(pages);
    PageLinesStripped(pages);
    LinesEndClean(pages);
    JoinedPagesSplit(lines);
    BatchesPartition(Join(lines), limit);
  }

  lemma LinesEndClean(pages: seq<Option<string>>)
    ensures forall i :: 0 <= i < |PageLines(pages)| ==> !EndsWithNewline(PageLines(pages)[i])
  {
    var lines := PageLines(pages);
    PageLinesStripped(pages);
    forall i | 0 <= i < |lines| ensures !EndsWithNewline(lines[i]) {
      assert lines[i] == Strip(Successful(pages)[i]);
    }
  }

  /** Line 78 of `run_vision`: a page without text reads as the empty string. */
  function PageText(page: Option<string>): string {
    if page.Some? then page.value else ""
  }

  /** What `run_vision` writes: each page's text followed by the blank-line delimiter. */
  function VisionText(pages: seq<Option<string>>): (raw: string)
    ensures |raw| >= |Delimiter| * |pages|
  {
    if pages == [] then "" else VisionText(pages[..|pages| - 1]) + PageText(pages[|pages| - 1]) + Delimiter
  }

  /** The texts of the pages, missing ones read as empty. */
  function Texts(pages: seq<Option<string>>): (texts: seq<string>)
    ensures |texts| == |pages|
  {
    if pages == [] then [] else Texts(pages[..|pages| - 1]) + [PageText(pages[|pages| - 1])]
  }

  /** `run_vision`: one write per page, in page order. */
  method RunVision(pages: seq<Option<string>>) returns (raw: string)
    ensures raw == VisionText(pages)
  {
    raw := "";
    for i := 0 to |pages|
      invariant raw == VisionText(pages[..i])
    {
      assert pages[..i + 1][..i] == pages[..i];
      var text := if pages[i].Some? then pages[i].value else "";
      raw := raw + text + Delimiter;
    }
    assert pages[..|pages|] == pages;
  }

  /**
    The text `run_vision` writes is the page texts joined with the delimiter
    and ended with one more: every page, even a blank one, is kept.
   */
  lemma {:induction false} VisionJoin(pages: seq<Option<string>>)
    ensures VisionText(pages) == Join(Texts(pages) + [""])
    decreases |pages|
  {
    if pages != [] {
      var init := pages[..|pages| - 1];
      var texts, x := Texts(init), PageText(pages[|pages| - 1]);
      VisionJoin(init);
      assert Texts(pages) == texts + [x];
      JoinSnoc(texts + [x], "");
      if texts == [] {
        assert texts + [""] == [""] && texts + [x] == [x];
      } else {
        JoinSnoc(texts, "");
        JoinSnoc(texts, x);
      }
    }
  }

  /**
    When no page text ends with a newline, the paragraphs the batcher sees
    in `run_vision`'s output are those of each page, in page order, followed
    by one empty paragraph after the final delimiter.
   */
  lemma VisionParagraphs(pages: seq<Option<string>>)
    requires forall i :: 0 <= i < |pages| ==> !EndsWithNewline(PageText(pages[i]))
    ensures Split(VisionText(pages)) == SplitEach(Texts(pages)) + [""]
  {
    var texts := Texts(pages);
    var all := texts + [""];
    VisionJoin(pages);
    TextsEndClean(pages);
    JoinedPagesSplit(all);
    SplitEachAppend(texts, [""]);
    SplitEachEmpty();
    calc {
      Split(VisionText(pages));
      Split(Join(all));
      SplitEach(all);
      SplitEach(texts) + SplitEach([""]);
      SplitEach(texts) + [""];
    }
  }

  lemma SplitEachEmpty()
    ensures SplitEach([""]) == [""]
  {
    assert SplitEach([""]) == Split("") + SplitEach([]);
  }

  lemma TextsEndClean(pages: seq<Option<string>>)
    requires forall i :: 0 <= i < |pages| ==> !EndsWithNewline(PageText(pages[i]))
    ensures forall i :: 0 <= i < |pages| + 1 ==> !EndsWithNewline((Texts(pages) + [""])[i])
  {
    var all := Texts(pages) + [""];
    TextsAt(pages);
    forall i | 0 <= i < |all| ensures !EndsWithNewline(all[i]) {
      if i < |pages| {
        assert all[i] == PageText(pages[i]);
      }
    }
  }

  lemma {:induction false} TextsAt(pages: seq<Option<string>>)
    ensures forall i :: 0 <= i < |pages| ==> Texts(pages)[i] == PageText(pages[i])
    decreases |pages|
  {
    if pages != [] {
      TextsAt(pages[..|pages| - 1]);
    }
  }

  lemma {:induction false} SplitEachAppend(a: seq<string>, b: seq<string>)
    ensures SplitEach(a + b) == SplitEach(a) + SplitEach(b)
    decreases |a|
  {
    if a == [] {
      assert a + b == b;
    } else {
      assert (a + b)[0] == a[0] && (a + b)[1..] == a[1..] + b;
      SplitEachAppend(a[1..], b);
    }
  }

  /**
    On pages that were all read and already stripped, `run_vision` writes
    what `run_tesseract` writes, plus a final delimiter.
   */
  lemma {:induction false} VisionExtendsTesseract(pages: seq<Option<string>>)
    requires pages != []
    requires forall i :: 0 <= i < |pages| ==> pages[i].Some? && Strip(pages[i].value) == pages[i].value
    ensures VisionText(pages) == Join(PageLines(pages)) + Delimiter
  {
    VisionJoin(pages);
    SameLines(pages);
    JoinSnoc(Texts(pages), "");
  }

  lemma {:induction false} SameLines(pages: seq<Option<string>>)
    requires forall i :: 0 <= i < |pages| ==> pages[i].Some? && Strip(pages[i].value) == pages[i].value
    ensures PageLines(pages) == Texts(pages)
    decreases |pages|
  {
    if pages != [] {
      SameLines(pages[..|pages| - 1]);
    }
  }
}
