/**
  The correction stage: every batch is sent to a language-model service and
  the corrected text is written to the output file.

  The service is a script of replies, consumed one per request; once the
  script runs out, every further request fails. The output file is the
  sequence of strings written to it, in order. Each call to the service and
  each `time.sleep` is recorded as an event in a trace.
 */
module Corrector {
  import opened Seqs
  import opened Text
  import opened Batcher

  /** `MAX_RETRIES_GPT4`: the attempts one batch gets from `gpt_parse`. */
  const MaxRetries: nat := 3

  /** `time.sleep(1)` after a batch corrected by `gpt_parse`, in milliseconds. */
  const SuccessPause: nat := 1000
  /** `time.sleep(2)` between two attempts of `gpt_parse`. */
  const RetryPause: nat := 2000
  /** `time.sleep(1.5)` after a batch corrected by `deepseek_parse`. */
  const DeepseekPause: nat := 1500

  /**
    One answer of the service: the content of the reply, or a failure (an
    exception raised by the request or by reading the reply).
   */
  datatype Reply = Ok(content: string) | Failure

  datatype Event = Request(batch: string) | Pause(millis: nat)

  /** What became of one batch. */
  datatype Verdict = Skipped | Corrected(text: string) | GaveUp

  /** The verdict on one batch, the events it caused and the replies left over. */
  datatype Outcome = Outcome(verdict: Verdict, events: seq<Event>, rest: seq<Reply>)

  /** The verdicts on all batches, the events and the replies left over. */
  datatype RunLog = RunLog(verdicts: seq<Verdict>, events: seq<Event>, rest: seq<Reply>)

  /** The `j`-th reply of the script, counting from 0; a failure past its end. */
  function ReplyAt(replies: seq<Reply>, j: nat): Reply {
    if j < |replies| then replies[j] else Failure
  }

  /** The script after `k` requests. */
  function Drop(replies: seq<Reply>, k: nat): seq<Reply>
  {
    if k < |replies| then replies[k..] else []
  }

  lemma DropReplyAt(replies: seq<Reply>, k: nat, j: nat)
    ensures ReplyAt(Drop(replies, k), j) == ReplyAt(replies, k + j)
  {
  }

  lemma DropDrop(replies: seq<Reply>, k: nat, m: nat)
    ensures Drop(Drop(replies, k), m) == Drop(replies, k + m)
  {
  }

  /** The batches requested, in order. */
  function Requests(events: seq<Event>): seq<string> {
    if events == [] then []
    else if events[0].Request? then [events[0].batch] + Requests(events[1..])
    else Requests(events[1..])
  }

  /** The string written to the output file for one verdict, if any. */
  function WriteOf(v: Verdict): seq<string> {
    if v.Corrected? then [v.text + Delimiter] else []
  }

  /** The writes to the output file, in the order of the verdicts. */
  function Written(verdicts: seq<Verdict>): seq<string> {
    if verdicts == [] then [] else WriteOf(verdicts[0]) + Written(verdicts[1..])
  }

  /** `n` times a failed attempt on `batch` followed by the pause before the next one. */
  function Retries(batch: string, n: nat): seq<Event> {
    if n == 0 then [] else Retries(batch, n - 1) + [Request(batch), Pause(RetryPause)]
  }

  /** `n` copies of `batch`. */
  function Repeat(batch: string, n: nat): (r: seq<string>)
    ensures |r| == n && forall j :: 0 <= j < n ==> r[j] == batch
  {
    if n == 0 then [] else [batch] + Repeat(batch, n - 1)
  }

  // ---------------------------------------------------------------------
  // gpt_parse

  /**
    Attempts `attempt` to `MaxRetries` on one batch: a reply ends them and
    is stripped; a failure is followed by a pause unless it was the last
    attempt.
   */
  function GptAttempts(batch: string, replies: seq<Reply>, attempt: nat): (o: Outcome)
    requires 1 <= attempt <= MaxRetries
    ensures !o.verdict.Skipped?
    decreases MaxRetries - attempt
  {
    match ReplyAt(replies, 0)
    case Ok(content) =>
      Outcome(Corrected(Strip(content)), [Request(batch), Pause(SuccessPause)], Drop(replies, 1))
    case Failure =>
      if attempt == MaxRetries then Outcome(GaveUp, [Request(batch)], Drop(replies, 1))
      else
        var o := GptAttempts(batch, Drop(replies, 1), attempt + 1);
        Outcome(o.verdict, [Request(batch), Pause(RetryPause)] + o.events, o.rest)
  }

  /** One batch of `gpt_parse`: a batch that is blank after `strip()` is skipped. */
  function GptBatch(batch: string, replies: seq<Reply>): (o: Outcome)
    ensures o.verdict == Skipped <==> Strip(batch) == ""
    ensures o.verdict == Skipped ==> o.events == [] && o.rest == replies
  {
    if Strip(batch) == "" then Outcome(Skipped, [], replies) else GptAttempts(batch, replies, 1)
  }

  /** The batches of `gpt_parse`, one after the other. */
  function GptRun(batches: seq<string>, replies: seq<Reply>): (log: RunLog)
    ensures |log.verdicts| == |batches|
  {
    if batches == [] then RunLog([], [], replies)
    else
      var o := GptBatch(batches[0], replies);
      var log := GptRun(batches[1..], o.rest);
      RunLog([o.verdict] + log.verdicts, o.events + log.events, log.rest)
  }

  /** The first `k` replies of the script are failures. */
  predicate FailsFirst(replies: seq<Reply>, k: nat) {
    forall j :: 0 <= j < k ==> ReplyAt(replies, j) == Failure
  }

  lemma FailsFirstNext(replies: seq<Reply>, k: nat)
    requires FailsFirst(replies, k) && ReplyAt(replies, k) == Failure
    ensures FailsFirst(replies, k + 1)
  {
  }

  /**
    `k` failures from attempt `attempt` on: each is followed by a pause, and
    the attempts go on from attempt `attempt + k` with the rest of the script.
   */
  lemma {:induction false} GptAfterFailures(batch: string, replies: seq<Reply>, attempt: nat, k: nat)
    requires 1 <= attempt && attempt + k <= MaxRetries
    requires FailsFirst(replies, k)
    ensures var o := GptAttempts(batch, Drop(replies, k), attempt + k);
      GptAttempts(batch, replies, attempt) == Outcome(o.verdict, Retries(batch, k) + o.events, o.rest)
    decreases k
  {
    if k > 0 {
      var left := Drop(replies, k - 1);
      assert ReplyAt(replies, k - 1) == Failure;
      assert FailsFirst(replies, k - 1);
      GptAfterFailures(batch, replies, attempt, k - 1);
      DropReplyAt(replies, k - 1, 0);
      DropDrop(replies, k - 1, 1);
      GptFailureStep(batch, left, attempt + k - 1);
      RetriesCompose(batch, k, GptAttempts(batch, replies, attempt),
        GptAttempts(batch, left, attempt + k - 1), GptAttempts(batch, Drop(left, 1), attempt + k));
    }
  }

  /** `k - 1` failed attempts followed by one more make `k` failed attempts. */
  lemma RetriesCompose(batch: string, k: nat, whole: Outcome, prev: Outcome, o: Outcome)
    requires k > 0
    requires whole == Outcome(prev.verdict, Retries(batch, k - 1) + prev.events, prev.rest)
    requires prev == Outcome(o.verdict, [Request(batch), Pause(RetryPause)] + o.events, o.rest)
    ensures whole == Outcome(o.verdict, Retries(batch, k) + o.events, o.rest)
  {
    Associative(Retries(batch, k - 1), [Request(batch), Pause(RetryPause)], o.events);
  }

  /**
    The attempts on a batch start with a request for it; they end with the
    last failed request when all fail (no pause follows it), and with the
    pause after a success.
   */
  lemma {:induction false} GptAttemptsEnds(batch: string, replies: seq<Reply>, attempt: nat)
    requires 1 <= attempt <= MaxRetries
    ensures var o := GptAttempts(batch, replies, attempt);
      && o.events != [] && o.events[0] == Request(batch)
      && (o.verdict == GaveUp ==> o.events[|o.events| - 1] == Request(batch))
      && (o.verdict.Corrected? ==> o.events[|o.events| - 1] == Pause(SuccessPause))
    decreases MaxRetries - attempt
  {
    if ReplyAt(replies, 0).Failure? && attempt < MaxRetries {
      var next := GptAttempts(batch, Drop(replies, 1), attempt + 1);
      GptAttemptsEnds(batch, Drop(replies, 1), attempt + 1);
      GptFailureStep(batch, replies, attempt);
      var events := [Request(batch), Pause(RetryPause)] + next.events;
      assert events[|events| - 1] == next.events[|next.events| - 1];
    }
  }

  /** A failure before the last attempt: a request, a pause, then the next attempt on the rest of the script. */
  lemma GptFailureStep(batch: string, replies: seq<Reply>, attempt: nat)
    requires 1 <= attempt < MaxRetries && ReplyAt(replies, 0) == Failure
    ensures var o := GptAttempts(batch, Drop(replies, 1), attempt + 1);
      GptAttempts(batch, replies, attempt) == Outcome(o.verdict, [Request(batch), Pause(RetryPause)] + o.events, o.rest)
  {
  }

  /**
    A batch whose first `k` attempts fail, `k` below the limit, and whose next
    attempt gets a reply: the requests and pauses are exactly `k` failed
    attempts with their pauses, then the request that succeeds and one pause;
    the stripped reply is its verdict and `k + 1` replies are consumed.
   */
  lemma GptRetrySucceeds(batch: string, replies: seq<Reply>, k: nat, content: string)
    requires k < MaxRetries && FailsFirst(replies, k) && ReplyAt(replies, k) == Ok(content)
    ensures GptAttempts(batch, replies, 1)
      == Outcome(Corrected(Strip(content)), Retries(batch, k) + [Request(batch), Pause(SuccessPause)], Drop(replies, k + 1))
  {
    GptAfterFailures(batch, replies, 1, k);
    DropReplyAt(replies, k, 0);
    DropDrop(replies, k, 1);
  }

  /**
    A batch whose `MaxRetries` attempts all fail is given up: the last failed
    request is followed by no pause, and `MaxRetries` replies are consumed.
   */
  lemma GptRetryExhausted(batch: string, replies: seq<Reply>)
    requires FailsFirst(replies, MaxRetries)
    ensures GptAttempts(batch, replies, 1)
      == Outcome(GaveUp, Retries(batch, MaxRetries - 1) + [Request(batch)], Drop(replies, MaxRetries))
  {
    GptAfterFailures(batch, replies, 1, MaxRetries - 1);
    DropReplyAt(replies, MaxRetries - 1, 0);
    DropDrop(replies, MaxRetries - 1, 1);
  }

  // ---------------------------------------------------------------------
  // deepseek_parse

  /** One batch of `deepseek_parse`: one request, the reply kept unstripped. */
  function DeepseekBatch(batch: string, replies: seq<Reply>): Outcome
  {
    match ReplyAt(replies, 0)
    case Ok(content) => Outcome(Corrected(content), [Request(batch), Pause(DeepseekPause)], Drop(replies, 1))
    case Failure => Outcome(GaveUp, [Request(batch)], Drop(replies, 1))
  }

  /** The batches of `deepseek_parse`, one after the other. */
  function DeepseekRun(batches: seq<string>, replies: seq<Reply>): (log: RunLog)
    ensures |log.verdicts| == |batches|
  {
    if batches == [] then RunLog([], [], replies)
    else
      var o := DeepseekBatch(batches[0], replies);
      var log := DeepseekRun(batches[1..], o.rest);
      RunLog([o.verdict] + log.verdicts, o.events + log.events, log.rest)
  }

  // ---------------------------------------------------------------------
  // Unfolding steps


  lemma WrittenCons(v: Verdict, vs: seq<Verdict>)
    ensures Written([v] + vs) == WriteOf(v) + Written(vs)
  {
    assert ([v] + vs)[1..] == vs;
  }

  lemma GptRunStep(batches: seq<string>, i: nat, replies: seq<Reply>)
    requires i < |batches|
    ensures var o := GptBatch(batches[i], replies);
      var log := GptRun(batches[i + 1..], o.rest);
      GptRun(batches[i..], replies) == RunLog([o.verdict] + log.verdicts, o.events + log.events, log.rest)
  {
    assert batches[i..][1..] == batches[i + 1..];
  }

  lemma DeepseekRunStep(batches: seq<string>, i: nat, replies: seq<Reply>)
    requires i < |batches|
    ensures var o := DeepseekBatch(batches[i], replies);
      var log := DeepseekRun(batches[i + 1..], o.rest);
      DeepseekRun(batches[i..], replies) == RunLog([o.verdict] + log.verdicts, o.events + log.events, log.rest)
  {
    assert batches[i..][1..] == batches[i + 1..];
  }

  // ---------------------------------------------------------------------
  // Properties of gpt_parse

  lemma RequestsAppend(a: seq<Event>, b: seq<Event>)
    ensures Requests(a + b) == Requests(a) + Requests(b)
    decreases |a|
  {
    if a == [] {
      assert a + b == b;
    } else {
      assert (a + b)[0] == a[0] && (a + b)[1..] == a[1..] + b;
      RequestsAppend(a[1..], b);
    }
  }

  lemma WrittenAppend(a: seq<Verdict>, b: seq<Verdict>)
    ensures Written(a + b) == Written(a) + Written(b)
    decreases |a|
  {
    if a == [] {
      assert a + b == b;
    } else {
      assert (a + b)[0] == a[0] && (a + b)[1..] == a[1..] + b;
      WrittenAppend(a[1..], b);
    }
  }

  /**
    Attempts from `attempt` on request only `batch`, at least once and at most
    once per attempt left; each request consumes one reply; the verdict is
    never a skip.
   */
  lemma {:induction false} GptAttemptsRequests(batch: string, replies: seq<Reply>, attempt: nat)
    requires 1 <= attempt <= MaxRetries
    ensures var o := GptAttempts(batch, replies, attempt); var k := |Requests(o.events)|;
      && 1 <= k <= MaxRetries - attempt + 1
      && Requests(o.events) == Repeat(batch, k)
      && o.rest == Drop(replies, k)
      && !o.verdict.Skipped?
    decreases MaxRetries - attempt
  {
    var o := GptAttempts(batch, replies, attempt);
    if ReplyAt(replies, 0).Failure? && attempt < MaxRetries {
      var next := GptAttempts(batch, Drop(replies, 1), attempt + 1);
      GptFailureStep(batch, replies, attempt);
      GptAttemptsRequests(batch, Drop(replies, 1), attempt + 1);
      RequestsAppend([Request(batch), Pause(RetryPause)], next.events);
      RequestThenPause(batch, RetryPause);
      DropDrop(replies, 1, |Requests(next.events)|);
    } else if ReplyAt(replies, 0).Ok? {
      RequestThenPause(batch, SuccessPause);
    } else {
      RequestAlone(batch);
    }
  }

  lemma RequestThenPause(batch: string, millis: nat)
    ensures Requests([Request(batch), Pause(millis)]) == [batch]
  {
    var events := [Request(batch), Pause(millis)];
    assert events[1..] == [Pause(millis)] && [Pause(millis)][1..] == [];
    calc {
      Requests(events);
      [batch] + Requests([Pause(millis)]);
      [batch] + Requests([]);
      [batch];
    }
  }

  lemma RequestAlone(batch: string)
    ensures Requests([Request(batch)]) == [batch]
  {
    assert [Request(batch)][1..] == [];
  }

  /**
    `gpt_parse` makes no request for a blank batch, and between one and
    `MaxRetries` requests, all for that batch, for any other.
   */
  lemma GptBatchRequests(batch: string, replies: seq<Reply>)
    ensures var o := GptBatch(batch, replies); var k := |Requests(o.events)|;
      && Requests(o.events) == Repeat(batch, k)
      && (k == 0 <==> Strip(batch) == "")
      && k <= MaxRetries
      && o.rest == Drop(replies, k)
      && (o.verdict == Skipped <==> Strip(batch) == "")
  {
    if Strip(batch) != "" {
      GptAttemptsRequests(batch, replies, 1);
    }
  }

  /**
    Running the batches `a + b` is running `a`, then running `b` on the
    replies left over: verdicts, requests and pauses follow the batch order,
    and a batch given up on does not stop the batches after it.
   */
  lemma {:induction false} GptRunAppend(a: seq<string>, b: seq<string>, replies: seq<Reply>)
    ensures var first := GptRun(a, replies); var second := GptRun(b, first.rest);
      GptRun(a + b, replies)
        == RunLog(first.verdicts + second.verdicts, first.events + second.events, second.rest)
    decreases |a|
  {
    if a == [] {
      assert a + b == b;
    } else {
      var o := GptBatch(a[0], replies);
      assert (a + b)[0] == a[0] && (a + b)[1..] == a[1..] + b;
      GptRunAppend(a[1..], b, o.rest);
      var tail := GptRun(a[1..], o.rest);
      var second := GptRun(b, tail.rest);
      Associative([o.verdict], tail.verdicts, second.verdicts);
      Associative(o.events, tail.events, second.events);
    }
  }

  /** The `i`-th verdict of a run is a skip exactly when the `i`-th batch is blank. */
  lemma {:induction false} GptSkipsBlank(batches: seq<string>, replies: seq<Reply>, i: nat)
    requires i < |batches|
    ensures GptRun(batches, replies).verdicts[i] == Skipped <==> Strip(batches[i]) == ""
    decreases i
  {
    GptBatchRequests(batches[0], replies);
    if i > 0 {
      GptSkipsBlank(batches[1..], GptBatch(batches[0], replies).rest, i - 1);
    }
  }

  /**
    Every string `gpt_parse` writes is a stripped reply followed by the
    blank-line delimiter.
   */
  lemma {:induction false} GptWritesStripped(batches: seq<string>, replies: seq<Reply>)
    ensures forall w :: w in Written(GptRun(batches, replies).verdicts) ==>
      exists t :: w == t + Delimiter && Strip(t) == t
    decreases |batches|
  {
    if batches != [] {
      var o := GptBatch(batches[0], replies);
      var log := GptRun(batches[1..], o.rest);
      GptWritesStripped(batches[1..], o.rest);
      WrittenCons(o.verdict, log.verdicts);
      if o.verdict.Corrected? {
        GptCorrectedStripped(batches[0], replies, 1);
        StripBordered(o.verdict.text);
      }
    }
  }

  lemma {:induction false} GptCorrectedStripped(batch: string, replies: seq<Reply>, attempt: nat)
    requires 1 <= attempt <= MaxRetries
    ensures var v := GptAttempts(batch, replies, attempt).verdict;
      v.Corrected? ==> exists c :: v.text == Strip(c)
    decreases MaxRetries - attempt
  {
    if ReplyAt(replies, 0).Failure? && attempt < MaxRetries {
      GptCorrectedStripped(batch, Drop(replies, 1), attempt + 1);
    }
  }

  /**
    With a service that always fails, `gpt_parse` writes nothing: every
    batch is skipped or given up on.
   */
  lemma {:induction false} GptServiceDown(batches: seq<string>)
    ensures var log := GptRun(batches, []);
      && Written(log.verdicts) == []
      && forall i :: 0 <= i < |batches| ==> log.verdicts[i] in {Skipped, GaveUp}
    decreases |batches|
  {
    if batches != [] {
      var o := GptBatch(batches[0], []);
      if Strip(batches[0]) != "" {
        GptRetryExhausted(batches[0], []);
      }
      GptServiceDown(batches[1..]);
      WrittenCons(o.verdict, GptRun(batches[1..], []).verdicts);
    }
  }

  /** On an empty text, `gpt_parse` makes no request and writes nothing. */
  lemma GptParseEmpty(replies: seq<Reply>)
    ensures GptRun(Batches("", MaxCharsPerBatch), replies) == RunLog([Skipped], [], replies)
  {
    EmptyInputBatches(MaxCharsPerBatch);
    GptRunSingle("", replies);
    assert GptBatch("", replies) == Outcome(Skipped, [], replies);
  }

  lemma GptRunSingle(batch: string, replies: seq<Reply>)
    ensures var o := GptBatch(batch, replies);
      GptRun([batch], replies) == RunLog([o.verdict], o.events, o.rest)
  {
    var o := GptBatch(batch, replies);
    assert [batch][1..] == [];
    var empty := GptRun([], o.rest);
    assert empty.verdicts == [] && empty.events == [];
    assert [o.verdict] + empty.verdicts == [o.verdict];
    assert o.events + empty.events == o.events;
  }

  // ---------------------------------------------------------------------
  // Properties of deepseek_parse

  /** The verdict `deepseek_parse` draws from one reply. */
  function ReplyVerdict(reply: Reply): Verdict {
    if reply.Ok? then Corrected(reply.content) else GaveUp
  }

  lemma DeepseekBatchRequest(batch: string, replies: seq<Reply>)
    ensures var o := DeepseekBatch(batch, replies);
      Requests(o.events) == [batch] && o.rest == Drop(replies, 1) && o.verdict == ReplyVerdict(ReplyAt(replies, 0))
  {
    var o := DeepseekBatch(batch, replies);
    assert o.events[0] == Request(batch);
    if ReplyAt(replies, 0).Ok? {
      assert o.events[1..] == [Pause(DeepseekPause)] && o.events[1..][1..] == [];
      assert Requests(o.events[1..]) == Requests([]);
    } else {
      assert o.events[1..] == [];
    }
  }

  lemma {:induction false} DeepseekRequests(batches: seq<string>, replies: seq<Reply>)
    ensures var log := DeepseekRun(batches, replies);
      Requests(log.events) == batches && log.rest == Drop(replies, |batches|)
    decreases |batches|
  {
    if batches != [] {
      var o := DeepseekBatch(batches[0], replies);
      var log := DeepseekRun(batches[1..], o.rest);
      DeepseekBatchRequest(batches[0], replies);
      DeepseekRequests(batches[1..], o.rest);
      RequestsAppend(o.events, log.events);
      DropDrop(replies, 1, |batches| - 1);
      calc {
        Requests(DeepseekRun(batches, replies).events);
        Requests(o.events + log.events);
        [batches[0]] + batches[1..];
        batches;
      }
    }
  }

  lemma {:induction false} DeepseekVerdictAt(batches: seq<string>, replies: seq<Reply>, i: nat)
    requires i < |batches|
    ensures DeepseekRun(batches, replies).verdicts[i] == ReplyVerdict(ReplyAt(replies, i))
    decreases i
  {
    DeepseekBatchRequest(batches[0], replies);
    if i > 0 {
      DeepseekVerdictAt(batches[1..], Drop(replies, 1), i - 1);
      DropReplyAt(replies, 1, i - 1);
    }
  }

  /**
    `deepseek_parse` requests every batch exactly once, in order, blank ones
    included; the `i`-th verdict is the unstripped `i`-th reply, or a failure,
    and one reply is consumed per batch.
   */
  lemma DeepseekRunExact(batches: seq<string>, replies: seq<Reply>)
    ensures var log := DeepseekRun(batches, replies);
      && Requests(log.events) == batches
      && log.rest == Drop(replies, |batches|)
      && forall i :: 0 <= i < |batches| ==> log.verdicts[i] == ReplyVerdict(ReplyAt(replies, i))
  {
    DeepseekRequests(batches, replies);
    forall i | 0 <= i < |batches|
      ensures DeepseekRun(batches, replies).verdicts[i] == ReplyVerdict(ReplyAt(replies, i))
    {
      DeepseekVerdictAt(batches, replies, i);
    }
  }

  /** On an empty text, `deepseek_parse` still sends one request, for the empty batch. */
  lemma DeepseekParseEmpty(replies: seq<Reply>)
    ensures Requests(DeepseekRun(Batches("", MaxCharsPerBatch), replies).events) == [""]
  {
    EmptyInputBatches(MaxCharsPerBatch);
    DeepseekRequests([""], replies);
  }

  // ---------------------------------------------------------------------
  // The session: service, output file and trace

  class Session {
    /** The replies the service has yet to give. */
    var replies: seq<Reply>
    /** The strings written to the output file, in order. */
    var written: seq<string>
    /** Requests and pauses, in order. */
    var trace: seq<Event>

    constructor(script: seq<Reply>)
      ensures replies == script && written == [] && trace == []
    {
      replies := script;
      written := [];
      trace := [];
    }

    /** One request to the service. */
    method Send(batch: string) returns (reply: Reply)
      modifies this
      ensures reply == ReplyAt(old(replies), 0) && replies == Drop(old(replies), 1)
      ensures trace == old(trace) + [Request(batch)] && written == old(written)
    {
      reply := ReplyAt(replies, 0);
      replies := Drop(replies, 1);
      trace := trace + [Request(batch)];
    }

    /** `time.sleep`. */
    method Sleep(millis: nat)
      modifies this
      ensures trace == old(trace) + [Pause(millis)]
      ensures replies == old(replies) && written == old(written)
    {
      trace := trace + [Pause(millis)];
    }

    /** `open(..., "w")`: the output file starts empty. */
    method OpenOutput()
      modifies this
      ensures written == [] && replies == old(replies) && trace == old(trace)
    {
      written := [];
    }

    method Write(s: string)
      modifies this
      ensures written == old(written) + [s] && replies == old(replies) && trace == old(trace)
    {
      written := written + [s];
    }

    /** The attempt loop of `gpt_parse` on one batch that is not blank. */
    method CorrectGptBatch(batch: string)
      modifies this
      ensures var o := GptAttempts(batch, old(replies), 1);
        && written == old(written) + WriteOf(o.verdict)
        && trace == old(trace) + o.events
        && replies == o.rest
    {
      for attempt := 1 to MaxRetries + 1
        invariant attempt <= MaxRetries ==>
          && FailsFirst(old(replies), attempt - 1)
          && replies == Drop(old(replies), attempt - 1)
          && trace == old(trace) + Retries(batch, attempt - 1)
        invariant attempt == MaxRetries + 1 ==>
          var o := GptAttempts(batch, old(replies), 1);
          && o.verdict == GaveUp && replies == o.rest && trace == old(trace) + o.events
        invariant written == old(written)
      {
        DropReplyAt(old(replies), attempt - 1, 0);
        DropDrop(old(replies), attempt - 1, 1);
        var reply := Send(batch);
        if reply.Ok? {
          Write(Strip(reply.content) + Delimiter);
          Sleep(SuccessPause);
          GptRetrySucceeds(batch, old(replies), attempt - 1, reply.content);
          AppendTwo(old(trace), Retries(batch, attempt - 1), Request(batch), Pause(SuccessPause));
          break;
        } else if attempt == MaxRetries {
          GptRetryExhausted(batch, old(replies));
          Associative(old(trace), Retries(batch, attempt - 1), [Request(batch)]);
        } else {
          Sleep(RetryPause);
          AppendTwo(old(trace), Retries(batch, attempt - 1), Request(batch), Pause(RetryPause));
          FailsFirstNext(old(replies), attempt - 1);
        }
      }
    }

    /** The batch loop of `gpt_parse`. */
    method CorrectGpt(batches: seq<string>)
      modifies this
      ensures var log := GptRun(batches, old(replies));
        && written == old(written) + Written(log.verdicts)
        && trace == old(trace) + log.events
        && replies == log.rest
    {
      ghost var log0 := GptRun(batches, replies);
      for i := 0 to |batches|
        invariant var log := GptRun(batches[i..], replies);
          && written + Written(log.verdicts) == old(written) + Written(log0.verdicts)
          && trace + log.events == old(trace) + log0.events
          && log.rest == log0.rest
      {
        var batch := batches[i];
        ghost var o := GptBatch(batch, replies);
        ghost var log := GptRun(batches[i + 1..], o.rest);
        GptRunStep(batches, i, replies);
        WrittenCons(o.verdict, log.verdicts);
        ghost var written0, trace0 := written, trace;
        if Strip(batch) == "" {
          assert o.events == [] && o.rest == replies && WriteOf(o.verdict) == [];
          continue;
        }
        assert o == GptAttempts(batch, replies, 1);
        CorrectGptBatch(batch);
        Associative(written0, WriteOf(o.verdict), Written(log.verdicts));
        Associative(trace0, o.events, log.events);
      }
      assert batches[|batches|..] == [];
    }

    /** `gpt_parse` on the text `raw`. */
    method GptParse(raw: string)
      modifies this
      ensures var log := GptRun(Batches(raw, MaxCharsPerBatch), old(replies));
        && written == Written(log.verdicts)
        && trace == old(trace) + log.events
        && replies == log.rest
    {
      var batches := MakeBatches(raw, MaxCharsPerBatch);
      OpenOutput();
      CorrectGpt(batches);
    }

    /** The request of `deepseek_parse` for one batch. */
    method CorrectDeepseekBatch(batch: string)
      modifies this
      ensures var o := DeepseekBatch(batch, old(replies));
        && written == old(written) + WriteOf(o.verdict)
        && trace == old(trace) + o.events
        && replies == o.rest
    {
      var reply := Send(batch);
      if reply.Ok? {
        Write(reply.content + Delimiter);
        Sleep(DeepseekPause);
      }
    }

    /** The batch loop of `deepseek_parse`. */
    method CorrectDeepseek(batches: seq<string>)
      modifies this
      ensures var log := DeepseekRun(batches, old(replies));
        && written == old(written) + Written(log.verdicts)
        && trace == old(trace) + log.events
        && replies == log.rest
    {
      ghost var log0 := DeepseekRun(batches, replies);
      for i := 0 to |batches|
        invariant var log := DeepseekRun(batches[i..], replies);
          && written + Written(log.verdicts) == old(written) + Written(log0.verdicts)
          && trace + log.events == old(trace) + log0.events
          && log.rest == log0.rest
      {
        ghost var o := DeepseekBatch(batches[i], replies);
        ghost var log := DeepseekRun(batches[i + 1..], o.rest);
        DeepseekRunStep(batches, i, replies);
        WrittenCons(o.verdict, log.verdicts);
        ghost var written0, trace0 := written, trace;
        CorrectDeepseekBatch(batches[i]);
        Associative(written0, WriteOf(o.verdict), Written(log.verdicts));
        Associative(trace0, o.events, log.events);
      }
      assert batches[|batches|..] == [];
    }

    /** `deepseek_parse` on the text `raw`. */
    method DeepseekParse(raw: string)
      modifies this
      ensures var log := DeepseekRun(Batches(raw, MaxCharsPerBatch), old(replies));
        && written == Written(log.verdicts)
        && trace == old(trace) + log.events
        && replies == log.rest
    {
      var batches := MakeBatches(raw, MaxCharsPerBatch);
      OpenOutput();
      CorrectDeepseek(batches);
    }
  }
}
