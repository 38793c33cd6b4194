# Batching Kinesis producer — Dafny model

A model of the core of a small batching producer for an AWS Kinesis stream
(`kinesis.go`). Callers `Put` records; a background loop gathers them into
PutRecords batches and flushes a batch when it would exceed the 5 MiB request
limit, when it reaches the configured `BufferSize`, or on a timer tick; `flush`
submits a batch and retries, either the whole batch after a transport error
or only the rejected entries after a partial failure, consulting a backoff
policy.

The model is functional. Each piece of the Go code becomes a pure function
over immutable datatypes:

- `Records`: the byte type, the request entry, the size constants
  (`MegaByte`, `MaxRecordSize` = 1 MiB, `MaxRequestSize` = 5 MiB), byte totals,
  and an order-preserving subsequence relation with its lemmas.
- `Producer`: the configuration fields the core reads and `Put`. The record
  queue is a sequence.
- `Assembler`: the body of `loop` as a state machine. The state is `buf`,
  `bufSize`, `drain`, the pending queue and whether the loop has returned.
  The events are `Record`, `Tick` and `Done`, and each step returns the
  batches it hands to flush. `Run` folds a sequence of events.
- `Flusher`: `failures`, one round of `flush` as a step over an abstract
  outcome (`TransportError` or `Response(failedRecordCount, entries)`), and
  `Flush`, the retry recursion driven by a finite script of outcomes. The
  backoff policy appears only as counts of its `Duration` and `Reset` calls.

Shutdown follows the code, not its comments. The comment on `Stop`
(kinesis.go:59) says Stop flushes any in-flight data. But both exits of the
loop return without flushing `buf`: the record arm while draining
(kinesis.go:103-106) and the stop arm (kinesis.go:116-118). The model keeps
this behaviour. `Assembler.ShutdownLeavesBuffer` proves two things: once the
loop has returned, the flushed batches followed by the final buffer are
exactly the queued records; and that buffer is never flushed afterwards.
`Assembler.ThreeRecordsThenStop` gives a concrete case. With `BufferSize` = 2,
three queued records and a stop signal, one batch of two is flushed and the
third record is never submitted.

Partition keys are modelled by their UTF-8 bytes, because the size check uses
Go's `len` on a string, which counts bytes.

## Model

| member | source | states |
|---|---|---|
| `Producer.Put` | kinesis.go:41-52 | A record is rejected with `RecordSizeExceeded` exactly when payload, key and separator together exceed 1 MiB. Otherwise exactly one entry is added at the end: payload followed by the separator, with the given key, and earlier entries are untouched. |
| `Producer.PutKeepsEntriesFit` | kinesis.go:42-49 | An accepted record, once queued, weighs exactly what the check measured, so every queued entry is within the per-record limit. |
| `Producer.PutAllExtends` | kinesis.go:41-52 | Over any run of Put calls the queue becomes the old queue followed by `Admitted`: one entry (payload plus separator, with its key) for each call within the 1 MiB limit, in call order. Its length grows by exactly the number of such calls. Rejected calls leave no trace, and all entries fit. |
| `Producer.PutAllAdmits` | kinesis.go:41-52 | From any starting queue, a run of Put calls yields the queue followed by the reference list of admitted entries. |
| `Producer.AdmittedLength` | kinesis.go:42-44 | The reference list of admitted entries has one entry per call that passes the size check, so never more than there were calls. |
| `Producer.OversizedRecordRejected` | kinesis.go:42-44 | A record one byte over the limit is refused and the queue stays empty. |
| `Assembler.InitSatisfiesInvariant` | kinesis.go:75-78 | The loop starts with an empty buffer, a zero byte count, not draining and not stopped. With `BufferSize` at least 1 and a queue of records that passed Put's check, this start state satisfies the loop invariant. |
| `Assembler.Step` | kinesis.go:84-119 | Once the loop has returned, an event changes nothing. `drain` is never cleared. Only a record event consumes from the queue, and it consumes exactly the head. The stop signal flushes nothing and leaves the buffer alone. The loop returns only while draining with nothing queued. |
| `Assembler.Run` | kinesis.go:83-120 | Over any sequence of events, the remaining queue is a suffix of the initial one, `drain` is never cleared, and the loop returns only while draining with nothing queued. |
| `Assembler.RecordStepFlushRules` | kinesis.go:88-101 | A record event flushes nothing exactly when the buffer plus the record stays within 5 MiB and the buffer stays under `BufferSize` records. It flushes the old buffer before appending exactly when adding the record would exceed 5 MiB. It flushes after appending exactly when the buffer reaches `BufferSize`: that batch has exactly `BufferSize` records and ends with the new record. Otherwise the record is last in the buffer. |
| `Assembler.RecordStep` | kinesis.go:85-106 | A record event consumes exactly the head of the queue and flushes at most two batches. It keeps `drain`. It makes the loop return exactly when draining with that record the last one queued. |
| `Assembler.RecordStepInvariant` | kinesis.go:86-101 | If every queued record passed Put's check, a record event keeps `bufSize` equal to the byte total of `buf`, at most 5 MiB and under `BufferSize` records. Each batch it flushes is non-empty and within both limits. |
| `Assembler.RecordStepConserves` | kinesis.go:88-101 | A record event loses, duplicates and reorders nothing. The flushed batches, then the buffer, then the queue, equal the old buffer followed by the old queue. |
| `Assembler.StepInvariant` | kinesis.go:84-119 | Every event keeps the loop invariant and flushes only valid batches. |
| `Assembler.StepConserves` | kinesis.go:84-119 | Every event preserves the order-and-content balance of flushed batches, buffer and queue. |
| `Assembler.RunInvariant` | kinesis.go:83-120 | Over any sequence of events, every batch handed to flush is non-empty, has at most `BufferSize` records and at most 5 MiB, and the invariant holds at the end. |
| `Assembler.RunConserves` | kinesis.go:83-120 | Over any sequence of events, the flushed batches concatenated, then the buffer, then the queue, are the initial buffer and queue in dequeue order. |
| `Assembler.PutKeepsInvariant` | kinesis.go:42-49 | A Put that succeeds while the loop is still running leaves the loop invariant intact. |
| `Assembler.TickEmptyIsNoop` | kinesis.go:107-112 | A tick with an empty buffer changes nothing and flushes nothing. |
| `Assembler.TickFlushesBuffer` | kinesis.go:107-112 | A tick with a non-empty buffer flushes exactly the buffer and resets `buf`/`bufSize` to empty/0. The rest of the state is unchanged. |
| `Assembler.DoneDrains` | kinesis.go:113-118 | The stop signal sets `drain`. The loop returns at once exactly when the queue is empty. No flush happens and the buffer is left as it was. |
| `Assembler.DrainingRecordStops` | kinesis.go:103-106 | While draining, a record event ends the loop exactly when it takes the last queued record. The records then left in `buf` are not flushed. |
| `Assembler.DrainTerminates` | kinesis.go:103-106 | Once draining, as many record events as there are queued records bring the loop to a stop with an empty queue. |
| `Assembler.StoppedIsFinal` | kinesis.go:103-118 | After the loop has returned, no later event changes the state or flushes anything. |
| `Assembler.ShutdownLeavesBuffer` | kinesis.go:103-118 | After shutdown, the flushed batches plus the final buffer are the whole queue, and that buffer is never flushed. This contradicts the "Flushes any in-flight data" comment at line 59. |
| `Assembler.ThreeRecordsThenStop` | kinesis.go:85-118 | With `BufferSize` = 2, three queued records and a stop signal, the loop flushes `[a, b]`, returns, and leaves `c` unsubmitted in the buffer. |
| `Flusher.Failures` | kinesis.go:173-180 | The result has one entry per response entry that carries an error code. The i-th request entry sits at the position given by the number of rejected entries before i. So the result is exactly the rejected records, in original order. The response may not be longer than the request. |
| `Flusher.FailuresSubsequence` | kinesis.go:173-180 | The failed entries are an order-preserving subsequence of the request. |
| `Flusher.FailuresAcceptedPartition` | kinesis.go:173-180 | Every request entry the response covers is either failed or accepted, never both: the two multisets add up to the covered entries. |
| `Flusher.Step` | kinesis.go:124-158 | A round calls Reset exactly when it finishes, which happens exactly on a zero failed count, and then calls no Duration. Every failing round makes one Duration call and no Reset. A transport error resubmits the identical batch. Any resubmission is a subsequence of the batch. The round's effect on the backoff policy is exactly one Reset call when it finishes, otherwise exactly one Duration call. |
| `Flusher.RetryNarrows` | kinesis.go:138-157 | After a nonzero failed count, the retry batch has exactly as many entries as carry error codes, and they are the rejected entries in their original relative order. |
| `Flusher.InconsistentCountIsTrusted` | kinesis.go:138-157 | The failed count is trusted over the entries. For any batch, any nonzero count with no error codes retries an empty batch. A zero count ends the flush, recording the whole batch as stored, for any response in which entries carry error codes. |
| `Flusher.StepConserves` | kinesis.go:131-157 | If the response agrees with itself and the batch, one round neither loses nor duplicates an entry. Entries reported as stored plus entries resubmitted make up the batch. |
| `Flusher.Duration` | kinesis.go:160-170 | A backoff pause increases the Duration count, leaves the Reset count alone, and leaves a non-empty run of Duration calls since the last Reset. `Flusher.CallsCount` gives the exact counts. |
| `Flusher.Reset` | kinesis.go:139-143 | A fully stored batch increases the Reset count, leaves the Duration count alone, and starts the run of Duration calls over. `Flusher.CallsCount` gives the exact counts. |
| `Flusher.CallsCount` | kinesis.go:139-170 | After any sequence of Duration and Reset calls, each counter equals the number of calls of its kind, and `sinceReset` is the number of Duration calls after the last Reset. |
| `Flusher.FlushMakesCalls` | kinesis.go:124-170 | The backoff state after a flush is exactly the result of its call log applied in order: one Duration call per failed submission, then one Reset if the flush finished. With `Flusher.CallsCount`, this gives exact counts. |
| `Flusher.Flush` | kinesis.go:124-158 | The first submission is the batch itself, and `Flusher.FlushFollowsSteps` ties every later one to the outcome before it. A finished flush submitted at least once. A flush that completes made exactly one Reset call, after one Duration call per failed round. While it is still retrying it has made one Duration call per outcome and no Reset. |
| `Flusher.FlushFollowsSteps` | kinesis.go:131-157 | Each request after the first is what one round decides from the previous request and its outcome: the same batch after a transport error, only the rejected entries after a partial failure. The last round's decision is what the flush reports as finished or still pending. |
| `Flusher.FlushSubmissionsIgnoreBackoff` | kinesis.go:160-170 | The backoff policy's state does not influence which batches are submitted or what is stored. |
| `Flusher.FlushSubmitsSubsequences` | kinesis.go:131-157 | Every batch submitted during a flush, and whatever remains to submit, is an order-preserving subsequence of the original batch. |
| `Flusher.FlushConserves` | kinesis.go:131-157 | If every response is consistent, stored entries plus pending entries are the original batch as a multiset. A completed flush has stored each entry exactly once. |
| `Flusher.FlushRespectsLimits` | kinesis.go:126-157 | Every request sent while flushing a batch that the assembler produced has at most `BufferSize` entries and at most 5 MiB. |
| `Flusher.SecondOfThreeRejected` | kinesis.go:138-157 | For a three-entry batch where only the second entry is rejected: that entry alone is resubmitted, after one Duration call, and the other two are recorded as stored. |

## Left out

- Goroutine start, channel blocking and backpressure (`BacklogSize`), and the `done`/`close(p.records)` handshake in `Stop`. These are concurrency. The queue is a sequence, the stop signal is the `Done` event, and a `Record` event with nothing queued changes nothing, because the select cannot choose it.
- The ticker and `time.Sleep`. A tick is just an event, and the length of a backoff sleep does not affect control flow.
- Logging, including the per-entry error code and message logged by `flush` and the failure count passed to `backoff`. The values are used only for output, but reading them can fail: see the next line.
- Go nil-pointer panics in `flush`. A response whose `FailedRecordCount` is nil panics at kinesis.go:138. A nonzero count with a rejected entry whose `ErrorMessage` is nil panics at kinesis.go:151-152. The model's count is never nil, so the first panic has no counterpart. For the second, `Flusher.Step` resubmits the rejected entries where Go panics.
- The flush reason string. It is observability only, so flushed batches carry no reason.
- The AWS SDK `PutRecords` call and the stream name. The call is foreign; its result is the `Outcome` datatype, supplied as a script.
- `Config.defaults` and the concrete backoff policy are not part of this model. The policy is seen only through counts of its `Duration` and `Reset` calls, so its durations and ceiling are not modelled.
- Termination of retries. `flush` recurses without bound, so `Flusher.Flush` takes a finite script of outcomes. When the script runs out, the still-pending batch is reported.
- `Flusher.FlushConserves`: the no-loss guarantee assumes responses consistent with their request: one entry per request entry, and a zero failed count exactly when no entry carries an error code. `Flusher.InconsistentCountIsTrusted` shows what the code does otherwise.
- `Flusher.Failures`, `Flusher.Answers`, `Flusher.Step`, `Flusher.Flush`: all require a response with a nonzero failed count to be no longer than the request (`Answers`, and `ScriptAnswers` for a whole script). The Go loop would index past the request only for an extra entry that carries an error code.
- Calls to `Put` after `Stop` (a send on a closed channel), and Puts racing with the stop signal. `Assembler.PutKeepsInvariant` covers only a Put made while the loop is running.
- `Assembler.RunInvariant`: the size and count bounds assume `BufferSize` of at least 1 and that every queued record passed Put's check. With a `BufferSize` of 0, the code flushes after every record. A negative `BufferSize` panics at kinesis.go:75, where `make` is given a negative capacity; that panic is not modelled.
- Go aliasing: `append` may write the separator into the caller's slice. Also left out is a nil record read from a closed channel.
