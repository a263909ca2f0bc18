# OCR batch-and-correct pipeline, modelled in Dafny

This project models the text pipeline in `ocrllmComplete.py`. The pipeline
turns scanned pages of Pali, Sanskrit and Hindi into corrected text in three
stages:

1. **Raw-text assembly.** `run_tesseract` strips the text of every page that
   Tesseract read and joins the texts with a blank line (`"\n\n"`). A page
   the engine failed on is dropped. `run_vision` writes every page's text,
   empty when Vision found none, each followed by `"\n\n"`.
2. **Paragraph batching.** `gpt_parse` and `deepseek_parse` run the same
   loop. The raw text is split into paragraphs at `"\n\n"`. Paragraphs are
   added greedily to a buffer while `len(buffer) + len(para) <
   MAX_CHARS_PER_BATCH`. A full buffer is emitted stripped, and the last
   buffer is flushed at the end.
3. **Correction.** `gpt_parse` skips a blank batch. It gives every other
   batch up to `MAX_RETRIES_GPT4` attempts and writes the first reply,
   stripped, followed by `"\n\n"`. `deepseek_parse` makes exactly one
   attempt per batch, blank ones included, and writes the reply unstripped.

The modules follow these stages:

- `text.dfy`, module `Text`: Python's `str.strip()`, `str.split("\n\n")` and
  `"\n\n".join`, on strings of code points. Python's `len` counts code
  points, as `|s|` does. `IsSpace` is the character set of `str.isspace()`.
  `Split` is `str.split("\n\n")` (lines 94 and 155) and `Join` is the
  `"\n\n".join` of line 66.
- `wrappers.dfy`, module `Wrappers`: the `Option` type of a page's OCR result.
- `seqs.dfy`, module `Seqs`: generic facts about sequences that the proofs cite.
- `batcher.dfy`, module `Batcher`:
  - `Groups` specifies the runs of paragraphs the buffer holds in turn.
  - `Runs` drops the last run when its buffer is empty, as the `if buffer:`
    flush of lines 104-105 does.
  - `Batches` is the strip of each emitted run.
  - `MakeBatches` is the loop itself, proved to compute `Batches`.
- `corrector.dfy`, module `Corrector`:
  - The correction service is a script of replies, consumed one per
    request. Once the script is exhausted, every request fails.
  - A `Session` object holds the script, the output file (the sequence of
    strings written to it) and a trace of requests and pauses.
  - The loops of `gpt_parse` and `deepseek_parse` are methods of `Session`,
    proved against the functions `GptRun` and `DeepseekRun`.
  - `DeepseekBatch` is one pass of the loop body at lines 183-190: one
    request, the unstripped reply written, or nothing on a failure.
- `ocr.dfy`, module `Ocr`: each page's OCR result is given as a value.
  `RunTesseract` and `RunVision` are the assembly loops.

Some behaviours of the code that a reader may not expect, and that the model
keeps:

- An empty text gives one empty batch `[""]`, because `"".split("\n\n") ==
  [""]`. There are no zero batches.
- The batcher does not drop empty batches. `gpt_parse` skips them when
  correcting, and `deepseek_parse` sends them to the service.
- An empty reply is written out (as `"\n\n"`). It is not counted as a
  failure.
- The output file is opened with `"w"`, so a run starts from an empty file.
  There is no resumption of an earlier run.
- Neither correction pass returns a count of failed batches.

## Model

| member | source | states |
|---|---|---|
| Text.Strip | ocrllmComplete.py:102 | `strip()` never lengthens a string; it returns `""` exactly when the string is all whitespace, and otherwise a string with no whitespace at either end |
| Text.StripIsSlice | ocrllmComplete.py:102 | `strip()` removes only whitespace, and only at the ends: the result sits in the input with nothing but whitespace before and after it |
| Text.StripAppendSpace | ocrllmComplete.py:102 | whitespace appended to a string does not change its strip |
| Text.StripDelimiter | ocrllmComplete.py:100-102 | the trailing `"\n\n"` of a buffer does not change its strip |
| Text.Split | ocrllmComplete.py:94 | `split("\n\n")` always returns at least one paragraph |
| Text.JoinSplit | ocrllmComplete.py:94 | joining the paragraphs of `split("\n\n")` with `"\n\n"` gives back the original text |
| Text.SplitNoDelimiter | ocrllmComplete.py:94 | a text without a blank line is a single paragraph |
| Text.SplitAtDelimiter | ocrllmComplete.py:66 | when `l` does not end with a newline, the paragraphs of `l + "\n\n" + r` are those of `l` followed by those of `r` |
| Batcher.Groups | ocrllmComplete.py:96-103 | there is always an open run, the buffer the loop is filling |
| Batcher.MakeBatches | ocrllmComplete.py:94-105 | the batching loop returns exactly `Batches(raw, limit)`: the strip of the buffer of each emitted run, in order |
| Batcher.BatchStep | ocrllmComplete.py:98-103 | one pass of the loop body either appends the paragraph to the open run (buffer grows by `para + "\n\n"`) or emits the stripped buffer and opens a run holding only the paragraph |
| Batcher.BatchFlush | ocrllmComplete.py:104-105 | flushing the last buffer when it is not empty completes the batches |
| Batcher.GroupsPartition | ocrllmComplete.py:98-103 | the runs concatenate to the paragraph sequence, and every run after the first is non-empty |
| Batcher.GroupsFirst | ocrllmComplete.py:96-103 | the first run is empty exactly when there is no paragraph or the first paragraph alone reaches the limit; otherwise it starts with the first paragraph |
| Batcher.GroupsSize | ocrllmComplete.py:99-103 | every run's buffer stays below `limit + 2` or the run holds one paragraph, and a paragraph of `limit` characters or more is alone in its run |
| Batcher.GroupsCount | ocrllmComplete.py:98-103 | there are at most one more runs than paragraphs |
| Batcher.RunsOfParagraphs | ocrllmComplete.py:104-105 | with at least one paragraph the last buffer is never empty, so every run is emitted |
| Batcher.NewRun | ocrllmComplete.py:101-103 | a paragraph that does not fit the open buffer starts a run of its own |
| Batcher.BatchAt | ocrllmComplete.py:102-105 | batch `i` is the stripped buffer of run `i` |
| Batcher.BatchesPartition | ocrllmComplete.py:94-105 | the emitted runs are consecutive and in order: they concatenate to the paragraphs of the text, whose join is the text again, so no paragraph is dropped, duplicated or reordered; only the first run may be empty |
| Batcher.BatchesOfRuns | ocrllmComplete.py:98-105 | there is one batch per run, and each batch is the strip of its run's paragraphs joined by `"\n\n"`, or `""` for an empty run |
| Batcher.BatchSize | ocrllmComplete.py:99-103 | every batch is shorter than the limit, or is the strip of a run holding a single paragraph |
| Batcher.OversizedParagraphAlone | ocrllmComplete.py:99-103 | a paragraph of `limit` characters or more is emitted whole, alone in its batch, with only whitespace at its ends removed |
| Batcher.BatchCount | ocrllmComplete.py:94-105 | there is at least one batch and at most one more than there are paragraphs |
| Batcher.LeadingBatch | ocrllmComplete.py:96-103 | the first run is empty exactly when the first paragraph alone reaches the limit, and then the first batch is `""` |
| Batcher.EmptyInputBatches | ocrllmComplete.py:94-105 | an empty text gives the single batch `""` |
| Batcher.SeparateParagraphs | ocrllmComplete.py:94-105 | three one-line paragraphs of 11, 10 and at least 20 characters, with limit 20, give one batch each, unchanged |
| Batcher.ThreeParagraphBatches | ocrllmComplete.py:94-105 | a concrete text of three paragraphs, the last longer than the limit, gives exactly those three paragraphs as batches |
| Corrector.GptAttempts | ocrllmComplete.py:117-148 | the attempt loop never skips a batch: it ends with a corrected text or gives up |
| Corrector.GptAttemptsEnds | ocrllmComplete.py:117-148 | the attempts on a batch start with a request for it, end with the last failed request when all fail (no pause after it) and with the 1-second pause after a success |
| Corrector.GptFailureStep | ocrllmComplete.py:141-148 | a failure before the last attempt is a request, a 2-second pause, then the next attempt on the rest of the script |
| Corrector.GptBatch | ocrllmComplete.py:111-117 | a batch is skipped exactly when it is blank after `strip()`, and a skipped batch makes no request and consumes no reply |
| Corrector.GptRun | ocrllmComplete.py:110 | `gpt_parse` reaches a verdict on every batch |
| Corrector.DeepseekRun | ocrllmComplete.py:175 | `deepseek_parse` reaches a verdict on every batch |
| Corrector.GptAfterFailures | ocrllmComplete.py:141-148 | `k` failed attempts below the limit are each followed by a 2-second pause, and the attempts go on with the rest of the script |
| Corrector.GptRetrySucceeds | ocrllmComplete.py:117-139 | a batch that fails `k < MAX_RETRIES_GPT4` times and then gets a reply makes exactly `k + 1` requests, pauses 2 seconds after each failure and 1 second after the success, and its verdict is the stripped reply |
| Corrector.GptRetryExhausted | ocrllmComplete.py:141-148 | a batch whose `MAX_RETRIES_GPT4` attempts all fail is given up on after exactly that many requests, with no pause after the last one |
| Corrector.GptAttemptsRequests | ocrllmComplete.py:117-148 | the attempts on a batch request only that batch, between 1 and the attempts left times; they consume one reply per request and always end corrected or given up |
| Corrector.GptBatchRequests | ocrllmComplete.py:111-117 | a batch makes no request and is skipped exactly when it is blank after `strip()`; otherwise it makes at most `MAX_RETRIES_GPT4` requests, all for that batch |
| Corrector.GptSkipsBlank | ocrllmComplete.py:110-113 | in a whole run, the `i`-th verdict is a skip exactly when the `i`-th batch is blank |
| Corrector.GptRunAppend | ocrllmComplete.py:110 | running batches `a + b` is running `a` and then `b` on the replies left over, so verdicts, requests and pauses follow batch order and a batch given up on does not stop the rest |
| Corrector.GptWritesStripped | ocrllmComplete.py:133-134 | every string `gpt_parse` writes is a stripped reply followed by `"\n\n"` |
| Corrector.GptServiceDown | ocrllmComplete.py:141-148 | with a service that always fails, nothing is written and every batch is skipped or given up on |
| Corrector.GptParseEmpty | ocrllmComplete.py:111-113 | on an empty text `gpt_parse` skips its one empty batch: no request, no write |
| Corrector.DeepseekBatchRequest | ocrllmComplete.py:183-190 | one batch of `deepseek_parse` makes exactly one request, for that batch, and its verdict is the unstripped reply or a failure |
| Corrector.DeepseekRequests | ocrllmComplete.py:175-186 | `deepseek_parse` requests every batch exactly once, in order, blank ones included, consuming one reply per batch |
| Corrector.DeepseekVerdictAt | ocrllmComplete.py:183-190 | the `i`-th verdict of `deepseek_parse` comes from the `i`-th reply |
| Corrector.DeepseekRunExact | ocrllmComplete.py:175-190 | the requests are the batches in order, one reply is consumed per batch, and each verdict is its reply unstripped or a failure |
| Corrector.DeepseekParseEmpty | ocrllmComplete.py:155-186 | on an empty text `deepseek_parse` still sends one request, for the empty batch |
| Corrector.Session.Send | ocrllmComplete.py:121-131 | a request consumes the next reply of the script (a failure once it is exhausted) and is recorded in the trace |
| Corrector.Session.Sleep | ocrllmComplete.py:138 | a pause is recorded in the trace and nothing else changes |
| Corrector.Session.OpenOutput | ocrllmComplete.py:109 | opening the output with `"w"` empties it |
| Corrector.Session.Write | ocrllmComplete.py:134 | a write appends one string to the output file |
| Corrector.Session.CorrectGptBatch | ocrllmComplete.py:117-148 | the attempt loop on one batch writes, requests, pauses and consumes replies exactly as `GptAttempts` says |
| Corrector.Session.CorrectGpt | ocrllmComplete.py:110-148 | the batch loop appends to the output file the writes of the verdicts of `GptRun`, in batch order, with the trace and remaining replies it gives |
| Corrector.Session.GptParse | ocrllmComplete.py:94-148 | `gpt_parse` truncates the output and leaves in it exactly the writes of `GptRun` over the batches of the text |
| Corrector.Session.CorrectDeepseekBatch | ocrllmComplete.py:183-190 | one request per batch; a reply is written unstripped with `"\n\n"` and followed by a 1.5-second pause; a failure writes nothing |
| Corrector.Session.CorrectDeepseek | ocrllmComplete.py:175-190 | the batch loop appends the writes of `DeepseekRun`, in batch order, with its trace and remaining replies |
| Corrector.Session.DeepseekParse | ocrllmComplete.py:155-190 | `deepseek_parse` batches the text as `gpt_parse` does, truncates the output and leaves in it exactly the writes of `DeepseekRun` |
| Ocr.PageLines | ocrllmComplete.py:57-61 | there is at most one line per page |
| Ocr.RunTesseract | ocrllmComplete.py:53-66 | the loop returns the `"\n\n"`-join of the page lines |
| Ocr.PageLinesStripped | ocrllmComplete.py:57-61 | there is one line per page read, in page order, each the strip of that page's text |
| Ocr.FailedPageDropped | ocrllmComplete.py:62-63 | a page the engine failed on contributes no entry: the lines are those of the other pages |
| Ocr.AllPagesFailed | ocrllmComplete.py:57-66 | when every page fails, the raw text is empty |
| Ocr.JoinedPagesSplit | ocrllmComplete.py:66 | joined texts that do not end with a newline split into the paragraphs of each text, in order |
| Ocr.TesseractParagraphs | ocrllmComplete.py:57-66 | when some page was read, the paragraphs the batcher sees are those of each stripped page, in page order, and each lies in exactly one emitted run |
| Ocr.VisionText | ocrllmComplete.py:80-84 | every page adds at least the two characters of its `"\n\n"` |
| Ocr.RunVision | ocrllmComplete.py:80-84 | the loop writes each page's text, or `""`, followed by `"\n\n"`, in page order |
| Ocr.Texts | ocrllmComplete.py:78 | there is one text per page |
| Ocr.TextsAt | ocrllmComplete.py:78 | the `i`-th text is the `i`-th page's text, or `""` when the page has none |
| Ocr.VisionJoin | ocrllmComplete.py:80-84 | the Vision output is the page texts joined by `"\n\n"` with one more `"\n\n"` at the end: every page, even a blank one, is kept |
| Ocr.VisionParagraphs | ocrllmComplete.py:80-84 | when no page text ends with a newline, the paragraphs of the Vision output are those of each page, in order, then one empty paragraph |
| Ocr.VisionExtendsTesseract | ocrllmComplete.py:57-84 | on pages that were all read and are already stripped, the Vision output is the Tesseract output plus a final `"\n\n"` |

## Left out

- PDF rasterisation (`pdf_to_images`) is file and library I/O.
- The OCR engines (Tesseract, Google Vision) are foreign libraries. Each page's result is an input.
- Reading and writing files is not modelled beyond the output file, which is a sequence of strings. The raw text is passed to the correction passes as a string.
- Ocr.TesseractParagraphs: `gpt_parse` and `deepseek_parse` read the raw text back in text mode (lines 90 and 152), which turns `"\r\n"` and `"\r"` into `"\n"`. The lemma describes the text as written, so it does not hold for pages containing `"\r"`: after the read-back they can gain paragraph breaks and change length.
- Ocr.VisionParagraphs: likewise describes the text `run_vision` writes, not the newline-normalised text read back at lines 90 and 152.
- The HTTP calls to OpenAI and OpenRouter, their headers, payloads and prompt wording are not modelled. A scripted service stands in for them.
- `time.sleep` is a `Pause` event in the trace, in milliseconds. No clock is modelled.
- Timing of a batch (`time.time()`), logging, `print` and `traceback` output are not modelled.
- Module-level globals, credentials and the `__main__` driver are not modelled. `config.py` is not part of this model, as it holds only constants.
- An exception inside `run_vision` aborts the whole run in Python. The model has no such failure: a page without text is `""`.
- Batcher.BatchSize: requires a positive limit. With a limit of 0 every paragraph starts a new run, which the lemma does not cover; the source's limit is 1500.
- Batcher.EmptyInputBatches: requires a positive limit, because with a limit of 0 an empty text gives two batches. The source's limit is 1500.
- Corrector.Session.Send: `deepseek_parse` calls `requests.post` without a timeout (line 184), so one request that never returns blocks the whole run. The model does not cover this: every request answers, with a reply or a failure. (`gpt_parse` passes `timeout=30`, which ends in an exception, a failure.)
- The service's replies are a finite script. Once it is exhausted, every further request fails.
- In `deepseek_parse`, a reply whose content is `None` makes the write raise. The model treats it as a failure: nothing is written and there is no pause.
