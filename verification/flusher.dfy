/**
  The flusher: submitting one batch, classifying the service's answer, and
  retrying. The PutRecords call is replaced by an outcome supplied from
  outside; the backoff policy is observed only through its calls.
 */
module Flusher {
  import opened Wrappers
  import opened Records
  import Producer
  import Assembler

  /** Per-entry part of a PutRecords response; the code is set when that entry was rejected. */
  datatype ResultEntry = ResultEntry(errorCode: Option<string>, errorMessage: Option<string>)

  /**
    What one PutRecords call produced: an error from the call itself, or a
    response with its failed-record count and one entry per request entry.
   */
  datatype Outcome =
    | TransportError
    | Response(failedRecordCount: int, entries: seq<ResultEntry>)

  predicate Rejected(e: ResultEntry) {
    e.errorCode.Some?
  }

  /** How many response entries carry an error code. */
  function ErrorCount(response: seq<ResultEntry>): nat {
    if |response| == 0 then 0
    else ErrorCount(response[..|response| - 1]) + (if Rejected(response[|response| - 1]) then 1 else 0)
  }

  /**
    failures: the request entries whose response entry carries an error code,
    in request order. The response is read position by position against the
    request, so it may not be longer than the request.
   */
  function Failures(records: seq<Entry>, response: seq<ResultEntry>): (out: seq<Entry>)
    requires |response| <= |records|
    ensures |out| == ErrorCount(response)
    ensures forall i :: 0 <= i < |response| && Rejected(response[i]) ==>
              ErrorCount(response[..i]) < |out| && out[ErrorCount(response[..i])] == records[i]
    decreases |response|
  {
    if |response| == 0 then []
    else
      var n := |response| - 1;
      var prefix := Failures(records, response[..n]);
      assert forall i :: 0 <= i < n ==> response[..n][i] == response[i] && response[..n][..i] == response[..i];
      assert response[..n] == response[..n][..n];
      prefix + (if Rejected(response[n]) then [records[n]] else [])
  }

  /** The complement of Failures: the entries the service accepted. */
  function Accepted(records: seq<Entry>, response: seq<ResultEntry>): seq<Entry>
    requires |response| <= |records|
    decreases |response|
  {
    if |response| == 0 then []
    else
      var n := |response| - 1;
      Accepted(records, response[..n]) + (if Rejected(response[n]) then [] else [records[n]])
  }

  /** The failed entries are the request with the accepted ones removed, in request order. */
  lemma {:induction false} FailuresSubsequence(records: seq<Entry>, response: seq<ResultEntry>)
    requires |response| <= |records|
    ensures IsSubsequence(Failures(records, response), records)
    decreases |response|
  {
    FailuresOfPrefix(records, response);
    SubsequenceOfPrefix(Failures(records, response), records, |response|);
  }

  lemma {:induction false} FailuresOfPrefix(records: seq<Entry>, response: seq<ResultEntry>)
    requires |response| <= |records|
    ensures IsSubsequence(Failures(records, response), records[..|response|])
    decreases |response|
  {
    if |response| > 0 {
      var n := |response| - 1;
      var prefix := Failures(records, response[..n]);
      FailuresOfPrefix(records, response[..n]);
      assert records[..|response|][..n] == records[..n];
      assert records[..|response|] == records[..n] + [records[n]];
      if Rejected(response[n]) {
        assert (prefix + [records[n]])[..|prefix|] == prefix;
      } else {
        assert Failures(records, response) == prefix;
        SubsequenceExtend(prefix, records[..n], records[n]);
      }
    }
  }

  /**
    Every request entry that the response covers is either failed or accepted,
    never both and never neither: together they are the covered entries.
   */
  lemma {:induction false} FailuresAcceptedPartition(records: seq<Entry>, response: seq<ResultEntry>)
    requires |response| <= |records|
    ensures multiset(Failures(records, response)) + multiset(Accepted(records, response))
            == multiset(records[..|response|])
    decreases |response|
  {
    if |response| > 0 {
      var n := |response| - 1;
      FailuresAcceptedPartition(records, response[..n]);
      assert records[..|response|] == records[..n] + [records[n]];
      PartitionExtend(Failures(records, response[..n]), Accepted(records, response[..n]),
                      records[..n], records[n], Rejected(response[n]));
    }
  }

  lemma PartitionExtend(failed: seq<Entry>, accepted: seq<Entry>, covered: seq<Entry>, last: Entry, rejected: bool)
    requires multiset(failed) + multiset(accepted) == multiset(covered)
    ensures multiset(failed + (if rejected then [last] else []))
            + multiset(accepted + (if rejected then [] else [last]))
            == multiset(covered + [last])
  {
  }

  /**
    The backoff policy seen from the flusher: how often Duration and Reset
    were called, and how many Duration calls since the last Reset.
   */
  datatype Backoff = Backoff(durationCalls: nat, resetCalls: nat, sinceReset: nat)

  /** backoff's call of Duration: one more call, and the run since the last Reset grows. */
  function Duration(b: Backoff): (d: Backoff)
    ensures d.resetCalls == b.resetCalls
    ensures d.durationCalls > b.durationCalls && d.sinceReset > 0
  {
    b.(durationCalls := b.durationCalls + 1, sinceReset := b.sinceReset + 1)
  }

  /** flush's call of Reset after a fully stored batch: the run of Duration calls starts over. */
  function Reset(b: Backoff): (d: Backoff)
    ensures d.durationCalls == b.durationCalls
    ensures d.resetCalls > b.resetCalls && d.sinceReset == 0
  {
    b.(resetCalls := b.resetCalls + 1, sinceReset := 0)
  }

  /** One call the flusher makes on its backoff policy. */
  datatype BackoffCall = DurationCall | ResetCall

  /** The policy's view after a sequence of calls, applied in order. */
  function Calls(b: Backoff, calls: seq<BackoffCall>): Backoff
    decreases |calls|
  {
    if |calls| == 0 then b
    else
      var before := Calls(b, calls[..|calls| - 1]);
      if calls[|calls| - 1] == DurationCall then Duration(before) else Reset(before)
  }

  function CountOf(calls: seq<BackoffCall>, c: BackoffCall): nat
    decreases |calls|
  {
    if |calls| == 0 then 0
    else CountOf(calls[1..], c) + (if calls[0] == c then 1 else 0)
  }

  /** The Duration calls after the last Reset, or all of them if there was none. */
  function Streak(calls: seq<BackoffCall>): nat
    decreases |calls|
  {
    if |calls| == 0 || calls[|calls| - 1] == ResetCall then 0
    else Streak(calls[..|calls| - 1]) + 1
  }

  lemma {:induction false} CountOfSnoc(calls: seq<BackoffCall>, x: BackoffCall, c: BackoffCall)
    ensures CountOf(calls + [x], c) == CountOf(calls, c) + (if x == c then 1 else 0)
    decreases |calls|
  {
    if |calls| == 0 {
      assert ([] + [x])[1..] == [];
    } else {
      assert (calls + [x])[1..] == calls[1..] + [x];
      CountOfSnoc(calls[1..], x, c);
    }
  }

  /**
    The counters mean what their names say: after any sequence of calls, one
    per Duration call and one per Reset call, and `sinceReset` is the number of
    Duration calls since the last Reset.
   */
  lemma {:induction false} CallsCount(b: Backoff, calls: seq<BackoffCall>)
    ensures Calls(b, calls).durationCalls == b.durationCalls + CountOf(calls, DurationCall)
    ensures Calls(b, calls).resetCalls == b.resetCalls + CountOf(calls, ResetCall)
    ensures Calls(b, calls).sinceReset == (if ResetCall in calls then 0 else b.sinceReset) + Streak(calls)
    decreases |calls|
  {
    if |calls| > 0 {
      var init, last := calls[..|calls| - 1], calls[|calls| - 1];
      assert calls == init + [last];
      CallsCount(b, init);
      CountOfSnoc(init, last, DurationCall);
      CountOfSnoc(init, last, ResetCall);
      assert ResetCall in calls <==> ResetCall in init || last == ResetCall;
    }
  }

  /** Calls distributes over splitting off the first call. */
  lemma {:induction false} CallsCons(b: Backoff, c: BackoffCall, calls: seq<BackoffCall>)
    ensures Calls(b, [c] + calls) == Calls(Calls(b, [c]), calls)
    decreases |calls|
  {
    if |calls| > 0 {
      var init := calls[..|calls| - 1];
      assert ([c] + calls)[..|calls|] == [c] + init;
      CallsCons(b, c, init);
    } else {
      assert [c] + calls == [c];
    }
  }

  /** What flush does after one submission: submit another batch, or return. */
  datatype Next = Resubmit(batch: seq<Entry>) | Finished

  /**
    The result of handling one outcome: what comes next, the backoff policy
    after its calls, and the entries the service reported as stored.
   */
  datatype FlushStep = FlushStep(next: Next, backoff: Backoff, delivered: seq<Entry>)

  /** The outcome can be read against the batch that was submitted. */
  predicate Answers(batch: seq<Entry>, outcome: Outcome) {
    outcome.Response? && outcome.failedRecordCount != 0 ==> |outcome.entries| <= |batch|
  }

  /**
    One round of flush. A transport error costs one Duration call and the same
    batch again; a zero failed count costs one Reset and ends the flush; any
    other count costs one Duration call and resubmits only the failed entries.
   */
  function Step(b: Backoff, batch: seq<Entry>, outcome: Outcome): (s: FlushStep)
    requires Answers(batch, outcome)
    ensures s.backoff.resetCalls == b.resetCalls + 1 <==> s.next.Finished?
    ensures s.next.Finished? ==> s.backoff.durationCalls == b.durationCalls && s.backoff.sinceReset == 0
    ensures s.next.Resubmit? ==>
              && s.backoff.resetCalls == b.resetCalls
              && s.backoff.durationCalls == b.durationCalls + 1
              && s.backoff.sinceReset == b.sinceReset + 1
    ensures s.next.Finished? <==> outcome.Response? && outcome.failedRecordCount == 0
    ensures outcome.TransportError? ==> s.next == Resubmit(batch) && s.delivered == []
    ensures s.next.Resubmit? ==> IsSubsequence(s.next.batch, batch)
    ensures s.backoff == Calls(b, [if s.next.Finished? then ResetCall else DurationCall])
  {
    match outcome
    case TransportError =>
      SubsequenceReflexive(batch);
      FlushStep(Resubmit(batch), Duration(b), [])
    case Response(failed, entries) =>
      if failed == 0 then
        FlushStep(Finished, Reset(b), batch)
      else
        FailuresSubsequence(batch, entries);
        FlushStep(Resubmit(Failures(batch, entries)), Duration(b), Accepted(batch, entries))
  }

  /**
    A partial failure narrows the retry to exactly the rejected entries: as
    many as carry an error code, each in the position given by the number of
    rejected entries before it, so in their original relative order.
   */
  lemma RetryNarrows(b: Backoff, batch: seq<Entry>, failed: int, entries: seq<ResultEntry>)
    requires failed != 0 && |entries| <= |batch|
    ensures Step(b, batch, Response(failed, entries)).next.Resubmit?
    ensures |Step(b, batch, Response(failed, entries)).next.batch| == ErrorCount(entries)
    ensures forall i :: 0 <= i < |entries| && Rejected(entries[i]) ==>
              Step(b, batch, Response(failed, entries)).next.batch[ErrorCount(entries[..i])] == batch[i]
  {
  }

  /**
    A failed count that disagrees with the entries is taken at its word: a
    nonzero count with no error codes retries an empty batch, and a zero count
    ends the flush even if some entries carry error codes.
   */
  lemma InconsistentCountIsTrusted(b: Backoff, batch: seq<Entry>, failed: int,
                                    entries: seq<ResultEntry>, coded: seq<ResultEntry>)
    requires failed != 0 && |entries| <= |batch| && ErrorCount(entries) == 0
    ensures Step(b, batch, Response(failed, entries)).next == Resubmit([])
    ensures ErrorCount(coded) > 0 ==>
              && Step(b, batch, Response(0, coded)).next == Finished
              && Step(b, batch, Response(0, coded)).delivered == batch
  {
  }

  /**
    The outcome agrees with itself and with the batch: one response entry per
    request entry, and a zero failed count exactly when no entry carries an
    error code.
   */
  predicate Consistent(batch: seq<Entry>, outcome: Outcome) {
    outcome.Response? ==>
      && |outcome.entries| == |batch|
      && (outcome.failedRecordCount == 0 <==> ErrorCount(outcome.entries) == 0)
  }

  function Pending(next: Next): seq<Entry> {
    match next
    case Resubmit(batch) => batch
    case Finished => []
  }

  /**
    With a consistent outcome, one round neither loses nor duplicates an
    entry: what the service stored plus what is resubmitted is the batch.
   */
  lemma StepConserves(b: Backoff, batch: seq<Entry>, outcome: Outcome)
    requires Consistent(batch, outcome)
    ensures multiset(Step(b, batch, outcome).delivered) + multiset(Pending(Step(b, batch, outcome).next))
            == multiset(batch)
  {
    if outcome.Response? {
      assert batch[..|outcome.entries|] == batch;
      if outcome.failedRecordCount == 0 {
      } else {
        FailuresAcceptedPartition(batch, outcome.entries);
      }
    }
  }

  /**
    A flush driven by a finite script of outcomes, one per submission: every
    batch submitted, the backoff policy afterwards, the entries stored, and
    what is still to be submitted when the script runs out.
   */
  datatype FlushRun = FlushRun(submitted: seq<seq<Entry>>, backoff: Backoff, delivered: seq<Entry>, next: Next)

  /** Every outcome of the script can be read against the batch it answers. */
  predicate ScriptAnswers(batch: seq<Entry>, script: seq<Outcome>)
    decreases |script|
  {
    |script| > 0 ==>
      && Answers(batch, script[0])
      && match Step(Backoff(0, 0, 0), batch, script[0]).next
         case Finished => true
         case Resubmit(next) => ScriptAnswers(next, script[1..])
  }

  /** Every outcome of the script is consistent with the batch it answers. */
  predicate ScriptConsistent(batch: seq<Entry>, script: seq<Outcome>)
    decreases |script|
  {
    |script| > 0 ==>
      && Consistent(batch, script[0])
      && match Step(Backoff(0, 0, 0), batch, script[0]).next
         case Finished => true
         case Resubmit(next) => ScriptConsistent(next, script[1..])
  }

  /**
    flush, with its recursion bounded by the script. The first submission is
    the batch itself; each later one is decided by the previous outcome. The
    flush ends with exactly one Reset, and every failing round costs one
    Duration call and no Reset.
   */
  function Flush(b: Backoff, batch: seq<Entry>, script: seq<Outcome>): (r: FlushRun)
    requires ScriptAnswers(batch, script)
    ensures |r.submitted| <= |script|
    ensures |script| > 0 ==> |r.submitted| > 0 && r.submitted[0] == batch
    ensures r.next.Finished? ==> |r.submitted| > 0
    ensures r.next.Finished? ==>
              && r.backoff.resetCalls == b.resetCalls + 1
              && r.backoff.sinceReset == 0
              && r.backoff.durationCalls == b.durationCalls + |r.submitted| - 1
    ensures r.next.Resubmit? ==>
              && |r.submitted| == |script|
              && r.backoff.resetCalls == b.resetCalls
              && r.backoff.durationCalls == b.durationCalls + |script|
              && r.backoff.sinceReset == b.sinceReset + |script|
    decreases |script|
  {
    if |script| == 0 then FlushRun([], b, [], Resubmit(batch))
    else
      var s := Step(b, batch, script[0]);
      match s.next
      case Finished => FlushRun([batch], s.backoff, s.delivered, Finished)
      case Resubmit(next) =>
        var rest := Flush(s.backoff, next, script[1..]);
        FlushRun([batch] + rest.submitted, rest.backoff, s.delivered + rest.delivered, rest.next)
  }

  /** Failed submissions cost one Duration call each; a finished flush then makes one Reset. */
  function Log(failedRounds: nat, finished: bool): seq<BackoffCall> {
    seq(failedRounds, _ => DurationCall) + (if finished then [ResetCall] else [])
  }

  /** The calls a flush makes on its backoff policy, read off its run. */
  function CallLog(r: FlushRun): seq<BackoffCall> {
    if r.next.Finished? && |r.submitted| > 0 then Log(|r.submitted| - 1, true)
    else Log(|r.submitted|, false)
  }

  lemma LogCons(n: nat, finished: bool)
    ensures Log(n + 1, finished) == [DurationCall] + Log(n, finished)
  {
    assert seq(n + 1, _ => DurationCall) == [DurationCall] + seq(n, _ => DurationCall);
  }

  /**
    Flush drives its backoff policy through exactly the calls of its log, in
    order, so `CallsCount` gives the exact number of each kind.
   */
  lemma {:induction false} FlushMakesCalls(b: Backoff, batch: seq<Entry>, script: seq<Outcome>)
    requires ScriptAnswers(batch, script)
    ensures Flush(b, batch, script).backoff == Calls(b, CallLog(Flush(b, batch, script)))
    decreases |script|
  {
    if |script| > 0 {
      var s := Step(b, batch, script[0]);
      if s.next.Finished? {
        assert Log(0, true) == [ResetCall];
      } else {
        var rest := Flush(s.backoff, s.next.batch, script[1..]);
        FlushMakesCalls(s.backoff, s.next.batch, script[1..]);
        var r := Flush(b, batch, script);
        assert r == FlushRun([batch] + rest.submitted, rest.backoff, r.delivered, rest.next);
        StepLog(b, s.backoff, batch, r, rest);
      }
    }
  }

  /** One failed round prepends one Duration call to the rest of the flush's log. */
  lemma StepLog(b: Backoff, d: Backoff, first: seq<Entry>, r: FlushRun, rest: FlushRun)
    requires d == Calls(b, [DurationCall])
    requires rest.backoff == Calls(d, CallLog(rest))
    requires rest.next.Finished? ==> |rest.submitted| > 0
    requires r == FlushRun([first] + rest.submitted, rest.backoff, r.delivered, rest.next)
    ensures r.backoff == Calls(b, CallLog(r))
  {
    var fin := rest.next.Finished?;
    var n := if fin then |rest.submitted| - 1 else |rest.submitted|;
    assert CallLog(rest) == Log(n, fin);
    assert CallLog(r) == Log(n + 1, fin);
    LogCons(n, fin);
    CallsCons(b, DurationCall, CallLog(rest));
  }

  /**
    Each submission after the first is what one round of flush decides from
    the previous submission and its outcome, and the last round decides what
    is left: the retries are the narrowed batches, not the original again.
   */
  lemma {:induction false} FlushFollowsSteps(b: Backoff, batch: seq<Entry>, script: seq<Outcome>)
    requires ScriptAnswers(batch, script)
    ensures var r := Flush(b, batch, script);
            forall k :: 0 <= k < |r.submitted| - 1 ==>
              && Answers(r.submitted[k], script[k])
              && Step(Backoff(0, 0, 0), r.submitted[k], script[k]).next == Resubmit(r.submitted[k + 1])
    ensures var r := Flush(b, batch, script);
            |r.submitted| > 0 ==>
              && Answers(r.submitted[|r.submitted| - 1], script[|r.submitted| - 1])
              && Step(Backoff(0, 0, 0), r.submitted[|r.submitted| - 1], script[|r.submitted| - 1]).next == r.next
    decreases |script|
  {
    if |script| > 0 {
      var s := Step(b, batch, script[0]);
      StepNextIgnoresBackoff(b, batch, script[0]);
      if s.next.Resubmit? {
        var rest := Flush(s.backoff, s.next.batch, script[1..]);
        FlushFollowsSteps(s.backoff, s.next.batch, script[1..]);
        var r := Flush(b, batch, script);
        assert r.submitted == [batch] + rest.submitted && r.next == rest.next;
        if |rest.submitted| > 0 {
          assert rest.submitted[0] == s.next.batch;
        }
        forall k | 1 <= k < |r.submitted|
          ensures r.submitted[k] == rest.submitted[k - 1] && script[k] == script[1..][k - 1]
        {
        }
      }
    }
  }

  /** What a round decides to submit next does not depend on the backoff state. */
  lemma StepNextIgnoresBackoff(b: Backoff, batch: seq<Entry>, outcome: Outcome)
    requires Answers(batch, outcome)
    ensures Step(b, batch, outcome).next == Step(Backoff(0, 0, 0), batch, outcome).next
    ensures Step(b, batch, outcome).delivered == Step(Backoff(0, 0, 0), batch, outcome).delivered
  {
  }

  /** Backoff state does not influence which batches are submitted. */
  lemma {:induction false} FlushSubmissionsIgnoreBackoff(b: Backoff, b': Backoff, batch: seq<Entry>, script: seq<Outcome>)
    requires ScriptAnswers(batch, script)
    ensures Flush(b, batch, script).submitted == Flush(b', batch, script).submitted
    ensures Flush(b, batch, script).next == Flush(b', batch, script).next
    ensures Flush(b, batch, script).delivered == Flush(b', batch, script).delivered
    decreases |script|
  {
    if |script| > 0 {
      var s := Step(b, batch, script[0]);
      if s.next.Resubmit? {
        FlushSubmissionsIgnoreBackoff(s.backoff, Step(b', batch, script[0]).backoff, s.next.batch, script[1..]);
      }
    }
  }

  /**
    Every batch flush submits, and whatever is left to submit, is drawn from
    the original batch without reordering.
   */
  lemma {:induction false} FlushSubmitsSubsequences(b: Backoff, batch: seq<Entry>, script: seq<Outcome>)
    requires ScriptAnswers(batch, script)
    ensures forall k :: 0 <= k < |Flush(b, batch, script).submitted| ==>
              IsSubsequence(Flush(b, batch, script).submitted[k], batch)
    ensures IsSubsequence(Pending(Flush(b, batch, script).next), batch)
    decreases |script|
  {
    if |script| == 0 {
      SubsequenceReflexive(batch);
    } else {
      var s := Step(b, batch, script[0]);
      SubsequenceReflexive(batch);
      match s.next
      case Finished =>
      case Resubmit(next) =>
        var rest := Flush(s.backoff, next, script[1..]);
        FlushSubmitsSubsequences(s.backoff, next, script[1..]);
        PrependSubsequences(batch, next, rest.submitted);
        SubsequenceTransitive(Pending(rest.next), next, batch);
    }
  }

  lemma PrependSubsequences(batch: seq<Entry>, next: seq<Entry>, later: seq<seq<Entry>>)
    requires IsSubsequence(batch, batch) && IsSubsequence(next, batch)
    requires forall k :: 0 <= k < |later| ==> IsSubsequence(later[k], next)
    ensures forall k :: 0 <= k < |[batch] + later| ==> IsSubsequence(([batch] + later)[k], batch)
  {
    forall k | 0 <= k < |[batch] + later| ensures IsSubsequence(([batch] + later)[k], batch) {
      if k > 0 {
        assert ([batch] + later)[k] == later[k - 1];
        SubsequenceTransitive(later[k - 1], next, batch);
      }
    }
  }

  /**
    When every outcome is consistent, flush stores each entry exactly as
    often as it occurs in the batch, counting what is still to be submitted
    when the script runs out; a completed flush has stored the whole batch.
   */
  lemma {:induction false} FlushConserves(b: Backoff, batch: seq<Entry>, script: seq<Outcome>)
    requires ScriptAnswers(batch, script) && ScriptConsistent(batch, script)
    ensures multiset(Flush(b, batch, script).delivered) + multiset(Pending(Flush(b, batch, script).next))
            == multiset(batch)
    ensures Flush(b, batch, script).next.Finished? ==> multiset(Flush(b, batch, script).delivered) == multiset(batch)
    decreases |script|
  {
    if |script| > 0 {
      var s := Step(b, batch, script[0]);
      StepConserves(b, batch, script[0]);
      assert s.next == Step(Backoff(0, 0, 0), batch, script[0]).next;
      match s.next
      case Finished =>
      case Resubmit(next) =>
        FlushConserves(s.backoff, next, script[1..]);
    }
  }

  /**
    Every request flush sends for a batch the assembler handed it stays
    within the service's limits: non-empty batches of at most `bufferSize`
    entries and MaxRequestSize bytes give retries no larger.
   */
  lemma FlushRespectsLimits(cfg: Producer.Config, b: Backoff, batch: seq<Entry>, script: seq<Outcome>)
    requires Assembler.ValidBatch(cfg, batch) && ScriptAnswers(batch, script)
    ensures forall k :: 0 <= k < |Flush(b, batch, script).submitted| ==>
              |Flush(b, batch, script).submitted[k]| <= cfg.bufferSize
              && TotalSize(Flush(b, batch, script).submitted[k]) <= MaxRequestSize
  {
    var r := Flush(b, batch, script);
    FlushSubmitsSubsequences(b, batch, script);
    forall k | 0 <= k < |r.submitted|
      ensures |r.submitted[k]| <= cfg.bufferSize && TotalSize(r.submitted[k]) <= MaxRequestSize
    {
      SubsequenceBounds(r.submitted[k], batch);
    }
  }

  /**
    A three-entry batch whose second entry alone is rejected is resubmitted as
    the one-entry batch holding that entry, after one Duration call.
   */
  lemma SecondOfThreeRejected(b: Backoff, x: Entry, y: Entry, z: Entry, code: string, message: string)
    ensures Step(b, [x, y, z], Response(1, [ResultEntry(None, None), ResultEntry(Some(code), Some(message)),
                                            ResultEntry(None, None)]))
            == FlushStep(Resubmit([y]), Duration(b), [x, z])
  {
    var ok, bad := ResultEntry(None, None), ResultEntry(Some(code), Some(message));
    var entries := [ok, bad, ok];
    var batch := [x, y, z];
    assert entries[..2] == [ok, bad] && entries[..2][..1] == [ok] && entries[..1] == [ok];
    assert [ok, bad][..1] == [ok] && [ok][..0] == [];
    assert Failures(batch, [ok]) == [];
    assert Failures(batch, [ok, bad]) == [y];
    assert Failures(batch, entries) == [y];
    assert Accepted(batch, [ok]) == [x];
    assert Accepted(batch, [ok, bad]) == [x];
    assert Accepted(batch, entries) == [x, z];
  }
}
