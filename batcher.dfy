/**
  The paragraph batcher that both correction passes run before talking to a
  correction service: the raw OCR text is split into paragraphs at the
  blank-line delimiter, paragraphs are added greedily to a buffer while
  `len(buffer) + len(para) < limit`, a full buffer is emitted stripped, and
  the last buffer is flushed at the end.

  The batches are specified through the runs of paragraphs each buffer holds
  (`Groups`); `MakeBatches` is the loop itself, proved to emit the strip of
  each run's buffered text.
 */
module Batcher {
  import opened Seqs
  import opened Text

  /** MAX_CHARS_PER_BATCH. */
  const MaxCharsPerBatch: nat := 1500

  /** The buffer that holds a run: every paragraph followed by the delimiter. */
  function Buffered(run: seq<string>): string
  {
    if run == [] then "" else Buffered(run[..|run| - 1]) + run[|run| - 1] + Delimiter
  }

  /**
    The runs of paragraphs that the buffer holds in turn while `paras` is
    consumed; the last run is the buffer still open. The first run starts
    empty, like the buffer.
   */
  function Groups(paras: seq<string>, limit: nat): (g: seq<seq<string>>)
    ensures |g| >= 1
    decreases |paras|
  {
    if paras == [] then [[]]
    else
      var g := Groups(paras[..|paras| - 1], limit);
      var open := g[|g| - 1];
      var para := paras[|paras| - 1];
      if |Buffered(open)| + |para| < limit then g[..|g| - 1] + [open + [para]]
      else g + [[para]]
  }

  /** The runs that end up emitted: all of them, but the last only if its buffer is not empty. */
  function Runs(paras: seq<string>, limit: nat): seq<seq<string>>
  {
    var g := Groups(paras, limit);
    if Buffered(g[|g| - 1]) != "" then g else g[..|g| - 1]
  }

  /** The batch emitted for a run: its buffer, stripped. */
  function BatchOf(run: seq<string>): string
  {
    Strip(Buffered(run))
  }

  /** The batch of each run, in order. */
  function StripEach(runs: seq<seq<string>>): (batches: seq<string>)
    ensures |batches| == |runs|
  {
    if runs == [] then [] else StripEach(runs[..|runs| - 1]) + [BatchOf(runs[|runs| - 1])]
  }

  /** The batches made from a raw text. */
  function Batches(raw: string, limit: nat): seq<string>
  {
    StripEach(Runs(Split(raw), limit))
  }

  /** The batching loop. */
  method MakeBatches(raw: string, limit: nat) returns (batches: seq<string>)
    ensures batches == Batches(raw, limit)
  {
    var paragraphs := Split(raw);
    batches := [];
    var buffer := "";
    for i := 0 to |paragraphs|
      invariant var g := Groups(paragraphs[..i], limit);
        batches == StripEach(g[..|g| - 1]) && buffer == Buffered(g[|g| - 1])
    {
      var para := paragraphs[i];
      BatchStep(paragraphs, i, limit, batches, buffer);
      if |buffer| + |para| < limit {
        buffer := buffer + para + Delimiter;
      } else {
        batches := batches + [Strip(buffer)];
        buffer := para + Delimiter;
      }
    }
    BatchFlush(paragraphs, limit, batches, buffer);
    if buffer != "" {
      batches := batches + [Strip(buffer)];
    }
  }

  /** One iteration of the batching loop keeps its invariant. */
  lemma BatchStep(paras: seq<string>, i: nat, limit: nat, batches: seq<string>, buffer: string)
    requires i < |paras|
    requires var g := Groups(paras[..i], limit);
      batches == StripEach(g[..|g| - 1]) && buffer == Buffered(g[|g| - 1])
    ensures var g' := Groups(paras[..i + 1], limit);
      if |buffer| + |paras[i]| < limit then
        batches == StripEach(g'[..|g'| - 1]) && buffer + paras[i] + Delimiter == Buffered(g'[|g'| - 1])
      else
        batches + [Strip(buffer)] == StripEach(g'[..|g'| - 1]) && paras[i] + Delimiter == Buffered(g'[|g'| - 1])
  {
    var g := Groups(paras[..i], limit);
    var para := paras[i];
    PrefixSnoc(paras, i);
    GroupsAppend(paras[..i], para, limit);
    if |buffer| + |para| < limit {
      ReplaceLastParts(g, g[|g| - 1] + [para]);
      BufferedSnoc(g[|g| - 1], para);
    } else {
      SnocParts(g, [para]);
      SnocLast(g);
      StripEachSnoc(g[..|g| - 1], g[|g| - 1]);
      BufferedSingle(para);
    }
  }

  /** After the loop, flushing a non-empty buffer completes the batches. */
  lemma BatchFlush(paras: seq<string>, limit: nat, batches: seq<string>, buffer: string)
    requires var g := Groups(paras[..|paras|], limit);
      batches == StripEach(g[..|g| - 1]) && buffer == Buffered(g[|g| - 1])
    ensures StripEach(Runs(paras, limit)) == if buffer != "" then batches + [Strip(buffer)] else batches
  {
    assert paras[..|paras|] == paras;
    var g := Groups(paras, limit);
    SnocLast(g);
    StripEachSnoc(g[..|g| - 1], g[|g| - 1]);
  }


  lemma GroupsAppend(paras: seq<string>, para: string, limit: nat)
    ensures var g := Groups(paras, limit);
      var open := g[|g| - 1];
      Groups(paras + [para], limit)
        == if |Buffered(open)| + |para| < limit then g[..|g| - 1] + [open + [para]] else g + [[para]]
  {
    SnocParts(paras, para);
  }

  /** The first paragraph opens the first run, unless it alone reaches the limit. */
  lemma GroupsSingle(para: string, limit: nat)
    ensures Groups([para], limit) == if |para| < limit then [[para]] else [[], [para]]
  {
    GroupsAppend([], para, limit);
    assert [] + [para] == [para];
    assert Groups([], limit) == [[]];
  }

  lemma BufferedSnoc(run: seq<string>, para: string)
    ensures Buffered(run + [para]) == Buffered(run) + para + Delimiter
  {
    assert (run + [para])[..|run|] == run;
  }


  lemma BufferedSingle(para: string)
    ensures Buffered([para]) == para + Delimiter
  {
    assert [para][..0] == [];
  }

  lemma StripEachSnoc(runs: seq<seq<string>>, run: seq<string>)
    ensures StripEach(runs + [run]) == StripEach(runs) + [BatchOf(run)]
  {
    assert (runs + [run])[..|runs|] == runs;
  }

  lemma {:induction false} StripEachAt(runs: seq<seq<string>>, i: nat)
    requires i < |runs|
    ensures StripEach(runs)[i] == BatchOf(runs[i])
    decreases |runs|
  {
    var init := runs[..|runs| - 1];
    assert StripEach(runs) == StripEach(init) + [BatchOf(runs[|runs| - 1])];
    if i < |runs| - 1 {
      StripEachAt(init, i);
      assert runs[i] == init[i];
    }
  }

  // ---------------------------------------------------------------------
  // Facts about a single buffer

  /** The buffer of a run is as long as its paragraphs plus two per paragraph. */
  lemma {:induction false} BufferedLength(run: seq<string>)
    ensures |Buffered(run)| == TotalLength(run) + 2 * |run|
    decreases |run|
  {
    if run != [] {
      BufferedLength(run[..|run| - 1]);
    }
  }

  function TotalLength(run: seq<string>): nat
  {
    if run == [] then 0 else TotalLength(run[..|run| - 1]) + |run[|run| - 1]|
  }

  /** A buffer is empty exactly when its run is. */
  lemma BufferedEmpty(run: seq<string>)
    ensures Buffered(run) == "" <==> run == []
  {
  }

  /** A non-empty run's buffer is `"\n\n".join(run) + "\n\n"`. */
  lemma {:induction false} BufferedJoin(run: seq<string>)
    requires run != []
    ensures Buffered(run) == Join(run) + Delimiter
    decreases |run|
  {
    var init := run[..|run| - 1];
    assert init + [run[|run| - 1]] == run;
    if |run| > 1 {
      BufferedJoin(init);
      JoinSnoc(init, run[|run| - 1]);
    } else {
      assert init == [];
    }
  }

  lemma {:induction false} JoinSnoc(parts: seq<string>, last: string)
    requires parts != []
    ensures Join(parts + [last]) == Join(parts) + Delimiter + last
    decreases |parts|
  {
    var all := parts + [last];
    assert all[0] == parts[0];
    if |parts| == 1 {
      assert all[1..] == [last];
    } else {
      assert all[1..] == parts[1..] + [last];
      JoinSnoc(parts[1..], last);
    }
  }

  /**
    The batch made from a run is `"\n\n".join(run).strip()`, at least two
    characters shorter than the run's buffer (the trailing delimiter goes);
    a run of one paragraph gives that paragraph's strip, and the empty run
    gives the empty batch.
   */
  lemma BatchOfRun(run: seq<string>)
    ensures run == [] ==> BatchOf(run) == ""
    ensures run != [] ==> BatchOf(run) == Strip(Join(run)) && |BatchOf(run)| + 2 <= |Buffered(run)|
    ensures |run| == 1 ==> BatchOf(run) == Strip(run[0])
  {
    if run != [] {
      var init := run[..|run| - 1];
      assert Buffered(run) == (Buffered(init) + run[|run| - 1]) + Delimiter;
      StripDelimiter(Buffered(init) + run[|run| - 1]);
      BufferedJoin(run);
      StripDelimiter(Join(run));
      if |run| == 1 {
        assert init == [];
        assert Buffered(init) + run[0] == run[0];
      }
    }
  }

  // ---------------------------------------------------------------------
  // Facts about the runs

  lemma {:induction false} FlattenSnoc<T>(xss: seq<seq<T>>, x: T)
    requires xss != []
    ensures Flatten(xss[..|xss| - 1] + [xss[|xss| - 1] + [x]]) == Flatten(xss) + [x]
  {
    var ys := xss[..|xss| - 1] + [xss[|xss| - 1] + [x]];
    assert ys[..|ys| - 1] == xss[..|xss| - 1];
  }

  /**
    The runs are the paragraphs cut into consecutive pieces: their
    concatenation is the paragraph sequence itself, so no paragraph is
    dropped, duplicated or reordered. Only the first run can be empty.
   */
  lemma GroupsPartition(paras: seq<string>, limit: nat)
    ensures Flatten(Groups(paras, limit)) == paras
    ensures forall i :: 0 < i < |Groups(paras, limit)| ==> Groups(paras, limit)[i] != []
  {
    GroupsFlatten(paras, limit);
    GroupsNonEmpty(paras, limit);
  }

  lemma {:induction false} GroupsFlatten(paras: seq<string>, limit: nat)
    ensures Flatten(Groups(paras, limit)) == paras
    decreases |paras|
  {
    if paras != [] {
      var init := paras[..|paras| - 1];
      var para := paras[|paras| - 1];
      SnocLast(paras);
      GroupsAppend(init, para, limit);
      var g := Groups(init, limit);
      GroupsFlatten(init, limit);
      if |Buffered(g[|g| - 1])| + |para| < limit {
        FlattenSnoc(g, para);
      } else {
        FlattenNewRun(g, para);
      }
    }
  }

  lemma {:induction false} GroupsNonEmpty(paras: seq<string>, limit: nat)
    ensures TailNonEmpty(Groups(paras, limit))
    decreases |paras|
  {
    if paras != [] {
      var init := paras[..|paras| - 1];
      var para := paras[|paras| - 1];
      SnocLast(paras);
      GroupsAppend(init, para, limit);
      var g := Groups(init, limit);
      GroupsNonEmpty(init, limit);
      if |Buffered(g[|g| - 1])| + |para| < limit {
        TailNonEmptyGrow(g, para);
      } else {
        TailNonEmptyNew(g, para);
      }
    }
  }

  /** Every piece but the first is non-empty. */
  predicate TailNonEmpty<T>(g: seq<seq<T>>) {
    forall i :: 0 < i < |g| ==> g[i] != []
  }

  lemma TailNonEmptyGrow<T>(g: seq<seq<T>>, x: T)
    requires g != [] && TailNonEmpty(g)
    ensures TailNonEmpty(g[..|g| - 1] + [g[|g| - 1] + [x]])
  {
    var g' := g[..|g| - 1] + [g[|g| - 1] + [x]];
    forall i | 0 < i < |g'| ensures g'[i] != [] {
      if i < |g| - 1 {
        assert g'[i] == g[i];
      }
    }
  }

  lemma TailNonEmptyNew<T>(g: seq<seq<T>>, x: T)
    requires TailNonEmpty(g)
    ensures TailNonEmpty(g + [[x]])
  {
    var g' := g + [[x]];
    forall i | 0 < i < |g'| ensures g'[i] != [] {
      if i < |g| {
        assert g'[i] == g[i];
      }
    }
  }



  lemma FlattenNewRun<T>(xss: seq<seq<T>>, x: T)
    ensures Flatten(xss + [[x]]) == Flatten(xss) + [x]
  {
    assert (xss + [[x]])[..|xss|] == xss;
  }

  /** The first run is empty exactly when the first paragraph alone reaches the limit (or there is none). */
  lemma {:induction false} GroupsFirst(paras: seq<string>, limit: nat)
    ensures Groups(paras, limit)[0] == [] <==> (paras == [] || |paras[0]| >= limit)
    ensures paras != [] && |paras[0]| < limit ==> Groups(paras, limit)[0][0] == paras[0]
    decreases |paras|
  {
    if paras != [] {
      var init := paras[..|paras| - 1];
      GroupsFirst(init, limit);
      var g := Groups(init, limit);
      if init == [] {
        assert g == [[]];
      } else {
        assert init[0] == paras[0];
        GroupsPartition(init, limit);
        assert |g| > 1 ==> g[1] != [];
      }
    }
  }

  /**
    Every run either has fewer than `limit + 2` characters in its buffer
    (one that grew at the append stays below that) or holds exactly one
    paragraph; and a paragraph of `limit` characters or more always sits
    alone in its run.
   */
  predicate WellSized(g: seq<seq<string>>, limit: nat) {
    && (forall i :: 0 <= i < |g| ==> |Buffered(g[i])| < limit + 2 || |g[i]| == 1)
    && (forall i, j :: 0 <= i < |g| && 0 <= j < |g[i]| && |g[i][j]| >= limit ==> g[i] == [g[i][j]])
  }

  /** No paragraph of a run is longer than the run's buffer. */
  lemma {:induction false} ParagraphWithinBuffer(run: seq<string>, j: nat)
    requires j < |run|
    ensures |run[j]| + 2 <= |Buffered(run)|
    decreases |run|
  {
    var init := run[..|run| - 1];
    if j < |run| - 1 {
      ParagraphWithinBuffer(init, j);
    }
  }

  lemma {:induction false} GroupsSize(paras: seq<string>, limit: nat)
    ensures WellSized(Groups(paras, limit), limit)
    decreases |paras|
  {
    if paras != [] {
      var init := paras[..|paras| - 1];
      var para := paras[|paras| - 1];
      assert init + [para] == paras;
      GroupsAppend(init, para, limit);
      GroupsSize(init, limit);
      var g := Groups(init, limit);
      if |Buffered(g[|g| - 1])| + |para| < limit {
        WellSizedGrow(g, para, limit);
      } else {
        WellSizedStart(g, para, limit);
      }
    }
  }

  /** Appending a paragraph to the open run keeps the runs well sized, when the buffer stays below the limit. */
  lemma WellSizedGrow(g: seq<seq<string>>, para: string, limit: nat)
    requires g != [] && WellSized(g, limit)
    requires |Buffered(g[|g| - 1])| + |para| < limit
    ensures WellSized(g[..|g| - 1] + [g[|g| - 1] + [para]], limit)
  {
    var grown := g[|g| - 1] + [para];
    var g' := g[..|g| - 1] + [grown];
    BufferedSnoc(g[|g| - 1], para);
    assert forall i :: 0 <= i < |g| - 1 ==> g'[i] == g[i];
    assert g'[|g| - 1] == grown;
    forall j | 0 <= j < |grown| ensures |grown[j]| < limit {
      ParagraphWithinBuffer(grown, j);
    }
  }

  /** Starting a new run with a paragraph keeps the runs well sized. */
  lemma WellSizedStart(g: seq<seq<string>>, para: string, limit: nat)
    requires WellSized(g, limit)
    ensures WellSized(g + [[para]], limit)
  {
    var g' := g + [[para]];
    assert forall i :: 0 <= i < |g| ==> g'[i] == g[i];
    assert g'[|g|] == [para];
  }

  lemma {:induction false} GroupsCount(paras: seq<string>, limit: nat)
    ensures |Groups(paras, limit)| <= |paras| + 1
    decreases |paras|
  {
    if paras != [] {
      GroupsCount(paras[..|paras| - 1], limit);
    }
  }

  /** When there is at least one paragraph, every run is emitted: the last buffer is never empty. */
  lemma RunsOfParagraphs(paras: seq<string>, limit: nat)
    requires paras != []
    ensures Runs(paras, limit) == Groups(paras, limit)
  {
    var g := Groups(paras, limit);
    var init := paras[..|paras| - 1];
    var h := Groups(init, limit);
    var para := paras[|paras| - 1];
    if |Buffered(h[|h| - 1])| + |para| < limit {
      assert g[|g| - 1] == h[|h| - 1] + [para];
    } else {
      assert g[|g| - 1] == [para];
    }
  }

  // ---------------------------------------------------------------------
  // The properties of the batches

  /** Batch `i` is the batch of run `i`, and with at least one paragraph every run is emitted. */
  lemma BatchAt(raw: string, limit: nat, i: nat)
    requires i < |Runs(Split(raw), limit)|
    ensures Runs(Split(raw), limit) == Groups(Split(raw), limit)
    ensures Batches(raw, limit)[i] == BatchOf(Runs(Split(raw), limit)[i])
  {
    RunsOfParagraphs(Split(raw), limit);
    StripEachAt(Runs(Split(raw), limit), i);
  }

  /**
    Batching partitions the paragraphs of the raw text into consecutive,
    in-order runs: their concatenation is the paragraph sequence, so no
    paragraph is dropped, duplicated or reordered, and joining the
    paragraphs gives back the raw text. Only the first run may be empty.
   */
  lemma BatchesPartition(raw: string, limit: nat)
    ensures var runs := Runs(Split(raw), limit);
      && Flatten(runs) == Split(raw)
      && Join(Flatten(runs)) == raw
      && (forall i :: 0 < i < |runs| ==> runs[i] != [])
  {
    var paras := Split(raw);
    RunsOfParagraphs(paras, limit);
    GroupsPartition(paras, limit);
    JoinSplit(raw);
  }

  /**
    There is one batch per run, and each batch is the strip of its run's
    paragraphs joined by the delimiter; an empty run gives the batch `""`.
   */
  lemma BatchesOfRuns(raw: string, limit: nat)
    ensures var runs := Runs(Split(raw), limit);
      && |Batches(raw, limit)| == |runs|
      && (forall i :: 0 <= i < |runs| && runs[i] != [] ==> Batches(raw, limit)[i] == Strip(Join(runs[i])))
      && (forall i :: 0 <= i < |runs| && runs[i] == [] ==> Batches(raw, limit)[i] == "")
  {
    var runs := Runs(Split(raw), limit);
    forall i | 0 <= i < |runs|
      ensures Batches(raw, limit)[i] == (if runs[i] == [] then "" else Strip(Join(runs[i])))
    {
      BatchAt(raw, limit, i);
      BatchOfRun(runs[i]);
    }
  }

  /**
    Every batch is shorter than the limit, or is the strip of a run that
    holds a single paragraph: an oversized paragraph is emitted whole (only
    whitespace at its ends is removed), alone in its batch.
   */
  lemma BatchSize(raw: string, limit: nat)
    requires limit > 0
    ensures var runs := Runs(Split(raw), limit);
      && |Batches(raw, limit)| == |runs|
      && forall i :: 0 <= i < |runs| ==>
           |Batches(raw, limit)[i]| < limit || (|runs[i]| == 1 && Batches(raw, limit)[i] == Strip(runs[i][0]))
  {
    var paras := Split(raw);
    RunsOfParagraphs(paras, limit);
    GroupsSize(paras, limit);
    var runs := Runs(paras, limit);
    forall i | 0 <= i < |runs|
      ensures |Batches(raw, limit)[i]| < limit || (|runs[i]| == 1 && Batches(raw, limit)[i] == Strip(runs[i][0]))
    {
      BatchAt(raw, limit, i);
      BatchOfRun(runs[i]);
    }
  }

  /** A paragraph of `limit` characters or more is the only paragraph of its batch, which is its strip. */
  lemma OversizedParagraphAlone(raw: string, limit: nat, i: nat, j: nat)
    requires i < |Runs(Split(raw), limit)| && j < |Runs(Split(raw), limit)[i]|
    requires |Runs(Split(raw), limit)[i][j]| >= limit
    ensures var runs := Runs(Split(raw), limit);
      runs[i] == [runs[i][j]] && Batches(raw, limit)[i] == Strip(runs[i][j])
  {
    BatchAt(raw, limit, i);
    GroupsSize(Split(raw), limit);
    var runs := Runs(Split(raw), limit);
    assert runs[i] == [runs[i][j]];
    BatchOfRun(runs[i]);
  }

  /** There is always at least one batch, and at most one more than there are paragraphs. */
  lemma BatchCount(raw: string, limit: nat)
    ensures 1 <= |Batches(raw, limit)| <= |Split(raw)| + 1
  {
    RunsOfParagraphs(Split(raw), limit);
    GroupsCount(Split(raw), limit);
  }

  /**
    The first batch is the empty string `""` when the first paragraph alone
    reaches the limit (the buffer it closes is the initial empty one);
    otherwise its run starts with the first paragraph.
   */
  lemma LeadingBatch(raw: string, limit: nat)
    ensures var runs := Runs(Split(raw), limit);
      && (runs[0] == [] <==> |Split(raw)[0]| >= limit)
      && (|Split(raw)[0]| >= limit ==> Batches(raw, limit)[0] == "")
      && (|Split(raw)[0]| < limit ==> runs[0][0] == Split(raw)[0])
  {
    var paras := Split(raw);
    BatchAt(raw, limit, 0);
    GroupsFirst(paras, limit);
    if |paras[0]| >= limit {
      assert Batches(raw, limit)[0] == BatchOf([]);
    }
  }

  /** Empty input makes exactly one, empty, batch. */
  lemma EmptyInputBatches(limit: nat)
    requires limit > 0
    ensures Batches("", limit) == [""]
  {
    assert Split("") == [""];
    GroupsSingle("", limit);
    RunsOfParagraphs([""], limit);
    StripEachSnoc([], [""]);
    BufferedSingle("");
    StripDelimiter("");
    calc {
      Batches("", limit);
      StripEach(Runs([""], limit));
      StripEach([[""]]);
      StripEach([]) + [BatchOf([""])];
      [Strip(Buffered([""]))];
      [Strip("" + Delimiter)];
      [""];
    }
  }

  /**
    Three one-line paragraphs, the first two short and the third longer than
    the limit on its own: each becomes a batch of its own.
   */
  lemma ThreeParagraphBatches()
    ensures Batches("Alpha text.\n\nBeta text.\n\nGamma runs past limit.", 20)
      == ["Alpha text.", "Beta text.", "Gamma runs past limit."]
  {
    var a, b, c := "Alpha text.", "Beta text.", "Gamma runs past limit.";
    ScenarioLiterals();
    SeparateParagraphs(a, b, c);
  }

  lemma ScenarioLiterals()
    ensures var a, b, c := "Alpha text.", "Beta text.", "Gamma runs past limit.";
      && '\n' !in a && '\n' !in b && '\n' !in c
      && |a| == 11 && |b| == 10 && |c| == 22
      && a[0] == 'A' && a[10] == '.' && b[0] == 'B' && b[9] == '.' && c[0] == 'G' && c[21] == '.'
      && "Alpha text.\n\nBeta text.\n\nGamma runs past limit." == a + Delimiter + b + Delimiter + c
  {
    assert "Alpha text.\n\nBeta text.\n\nGamma runs past limit."
      == "Alpha text.\n\nBeta text.\n\n" + "Gamma runs past limit.";
  }

  /** Paragraphs sized like the scenario above, without whitespace at their ends, are batched one by one. */
  lemma SeparateParagraphs(a: string, b: string, c: string)
    requires '\n' !in a && '\n' !in b && '\n' !in c
    requires |a| == 11 && |b| == 10 && |c| >= 20
    requires !IsSpace(a[0]) && !IsSpace(a[|a| - 1]) && !IsSpace(b[0]) && !IsSpace(b[|b| - 1])
    requires !IsSpace(c[0]) && !IsSpace(c[|c| - 1])
    ensures Batches(a + Delimiter + b + Delimiter + c, 20) == [a, b, c]
  {
    var raw := a + Delimiter + b + Delimiter + c;
    assert Split(raw) == [a, b, c] by {
      ThreeParagraphSplit(a, b, c);
    }
    assert Runs([a, b, c], 20) == [[a], [b], [c]] by {
      ThreeParagraphGroups(a, b, c);
      RunsOfParagraphs([a, b, c], 20);
    }
    StripEachThree([a], [b], [c]);
    BatchOfBordered(a);
    BatchOfBordered(b);
    BatchOfBordered(c);
  }

  lemma StripEachThree(x: seq<string>, y: seq<string>, z: seq<string>)
    ensures StripEach([x, y, z]) == [BatchOf(x), BatchOf(y), BatchOf(z)]
  {
    assert [x, y, z][..2] == [x, y];
    assert [x, y][..1] == [x];
    assert [x][..0] == [];
    assert StripEach([x]) == [BatchOf(x)];
    assert StripEach([x, y]) == [BatchOf(x), BatchOf(y)];
  }

  /** A paragraph without whitespace at its ends is its own batch. */
  lemma BatchOfBordered(para: string)
    requires para == [] || (!IsSpace(para[0]) && !IsSpace(para[|para| - 1]))
    ensures BatchOf([para]) == para
  {
    BufferedSingle(para);
    StripDelimiter(para);
    StripBordered(para);
  }

  lemma ThreeParagraphSplit(a: string, b: string, c: string)
    requires '\n' !in a && '\n' !in b && '\n' !in c
    ensures Split(a + Delimiter + b + Delimiter + c) == [a, b, c]
  {
    SplitNoDelimiter(a);
    SplitNoDelimiter(b);
    SplitNoDelimiter(c);
    SplitAtDelimiter(b, c);
    assert a + Delimiter + b + Delimiter + c == a + Delimiter + (b + Delimiter + c);
    SplitAtDelimiter(a, b + Delimiter + c);
  }

  lemma ThreeParagraphGroups(a: string, b: string, c: string)
    requires |a| == 11 && |b| == 10 && |c| >= 20
    ensures Groups([a, b, c], 20) == [[a], [b], [c]]
  {
    TwoParagraphGroups(a, b);
    BufferedSingle(b);
    NewRun([a, b], c, 20);
    AppendThird(a, b, c);
    AppendThird([a], [b], [c]);
  }

  lemma TwoParagraphGroups(a: string, b: string)
    requires |a| == 11 && |b| == 10
    ensures Groups([a, b], 20) == [[a], [b]]
  {
    GroupsSingle(a, 20);
    BufferedSingle(a);
    NewRun([a], b, 20);
    AppendSecond(a, b);
    AppendSecond([a], [b]);
  }



  /** A paragraph that does not fit in the open buffer starts a run of its own. */
  lemma NewRun(paras: seq<string>, para: string, limit: nat)
    requires var g := Groups(paras, limit); |Buffered(g[|g| - 1])| + |para| >= limit
    ensures Groups(paras + [para], limit) == Groups(paras, limit) + [[para]]
  {
    GroupsAppend(paras, para, limit);
  }
}
