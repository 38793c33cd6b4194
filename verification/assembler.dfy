/**
  The batch assembler: the body of the producer's background loop as a pure
  state machine. Each event is one arm of the loop's select: a record taken
  from the queue, a tick of the flush timer, or the stop signal. A step
  returns the new state and the batches it handed to flush, in order.
 */
module Assembler {
  import opened Records
  import opened Producer

  /**
    The loop's local variables (`buf`, `bufSize`, `drain`), the records still
    queued, and whether the loop has returned.
   */
  datatype State = State(
    buf: seq<Entry>,
    bufSize: int,
    drain: bool,
    queue: seq<Entry>,
    stopped: bool)

  /** One arm of the loop's select. */
  datatype Event = Record | Tick | Done

  /** A step's result: the next state and the batches flushed on the way. */
  datatype Out = Out(state: State, flushed: seq<seq<Entry>>)

  /** The loop as it starts, with `queue` already waiting. */
  function Init(queue: seq<Entry>): State {
    State([], 0, false, queue, false)
  }

  /**
    The record arm: take the head of the queue, flush first if it would push
    the buffer past MaxRequestSize, append it, flush if the buffer has reached
    `bufferSize` records, and return if draining and the queue is now empty.
   */
  function RecordStep(cfg: Config, s: State): (o: Out)
    requires |s.queue| > 0
    ensures o.state.drain == s.drain && o.state.queue == s.queue[1..]
    ensures o.state.stopped <==> s.stopped || (s.drain && |s.queue| == 1)
    ensures |o.flushed| <= 2
  {
    var r := s.queue[0];
    var overflow := s.bufSize + Size(r) > MaxRequestSize;
    var flushedFirst := if overflow then [s.buf] else [];
    var buf := (if overflow then [] else s.buf) + [r];
    var bufSize := (if overflow then 0 else s.bufSize) + Size(r);
    var full := |buf| >= cfg.bufferSize;
    var flushedSecond := if full then [buf] else [];
    Out(
      State(
        if full then [] else buf,
        if full then 0 else bufSize,
        s.drain,
        s.queue[1..],
        s.stopped || (s.drain && |s.queue| == 1)),
      flushedFirst + flushedSecond)
  }

  /**
    One event. Once the loop has returned nothing happens; a record event with
    nothing queued cannot be selected and changes nothing.
   */
  function Step(cfg: Config, s: State, ev: Event): (o: Out)
    ensures s.stopped ==> o == Out(s, [])
    ensures s.drain ==> o.state.drain
    ensures ev != Record ==> o.state.queue == s.queue
    ensures ev == Record && !s.stopped && |s.queue| > 0 ==> o.state.queue == s.queue[1..]
    ensures ev == Done ==> o.flushed == [] && o.state.buf == s.buf
    ensures o.state.stopped && !s.stopped ==> o.state.drain && |o.state.queue| == 0
  {
    if s.stopped then Out(s, [])
    else
      match ev
      case Record =>
        if |s.queue| == 0 then Out(s, []) else RecordStep(cfg, s)
      case Tick =>
        if |s.buf| > 0 then Out(s.(buf := [], bufSize := 0), [s.buf]) else Out(s, [])
      case Done =>
        Out(s.(drain := true, stopped := |s.queue| == 0), [])
  }

  /** A sequence of events folded over the state; batches are concatenated in order. */
  function Run(cfg: Config, s: State, evs: seq<Event>): (o: Out)
    ensures |o.state.queue| <= |s.queue|
    ensures o.state.queue == s.queue[|s.queue| - |o.state.queue|..]
    ensures s.drain ==> o.state.drain
    ensures o.state.stopped ==> s.stopped || (o.state.drain && |o.state.queue| == 0)
    decreases |evs|
  {
    if |evs| == 0 then Out(s, [])
    else
      var first := Step(cfg, s, evs[0]);
      var rest := Run(cfg, first.state, evs[1..]);
      Out(rest.state, first.flushed + rest.flushed)
  }

  /**
    The loop invariant: `bufSize` is the byte total of `buf`, which stays
    within one request and below the count threshold; every queued entry
    passed Put's check; a returned loop was draining with nothing queued.
   */
  predicate Inv(cfg: Config, s: State) {
    && cfg.bufferSize >= 1
    && s.bufSize == TotalSize(s.buf)
    && s.bufSize <= MaxRequestSize
    && |s.buf| < cfg.bufferSize
    && AllFit(s.queue)
    && (s.stopped ==> s.drain && |s.queue| == 0)
  }

  /** A fresh loop, with any queue of records that passed Put's check, satisfies the invariant. */
  lemma InitSatisfiesInvariant(cfg: Config, queue: seq<Entry>)
    requires cfg.bufferSize >= 1 && AllFit(queue)
    ensures Inv(cfg, Init(queue))
    ensures Init(queue).buf == [] && !Init(queue).drain && !Init(queue).stopped
  {
    assert TotalSize([]) == 0;
  }

  /** A batch the service accepts as one request under this configuration. */
  predicate ValidBatch(cfg: Config, batch: seq<Entry>) {
    0 < |batch| <= cfg.bufferSize && TotalSize(batch) <= MaxRequestSize
  }

  predicate AllValid(cfg: Config, batches: seq<seq<Entry>>) {
    forall k :: 0 <= k < |batches| ==> ValidBatch(cfg, batches[k])
  }

  /**
    Nothing lost, duplicated or reordered: the flushed batches laid end to
    end, then the buffer, then the queue, are exactly `before`.
   */
  predicate Balanced(before: seq<Entry>, o: Out) {
    Flatten(o.flushed) + o.state.buf + o.state.queue == before
  }

  /** One step keeps the invariant and hands flush only valid batches. */
  lemma StepInvariant(cfg: Config, s: State, ev: Event)
    requires Inv(cfg, s)
    ensures Inv(cfg, Step(cfg, s, ev).state)
    ensures AllValid(cfg, Step(cfg, s, ev).flushed)
  {
    if !s.stopped && ev == Record && |s.queue| > 0 {
      RecordStepInvariant(cfg, s);
    }
  }

  /**
    One step loses, duplicates or reorders nothing: the flushed batches, then
    the buffer, then the queue, are the old buffer followed by the old queue.
   */
  lemma StepConserves(cfg: Config, s: State, ev: Event)
    ensures Balanced(s.buf + s.queue, Step(cfg, s, ev))
  {
    var o := Step(cfg, s, ev);
    if s.stopped || ev == Done || (ev == Record && |s.queue| == 0) || (ev == Tick && |s.buf| == 0) {
      assert o.flushed == [] && o.state.buf == s.buf && o.state.queue == s.queue;
    } else if ev == Tick {
      assert o.flushed == [s.buf] && o.state.buf == [] && o.state.queue == s.queue;
      assert Flatten(o.flushed) == s.buf + Flatten([]);
    } else {
      RecordStepConserves(cfg, s);
    }
  }

  lemma RecordStepConserves(cfg: Config, s: State)
    requires |s.queue| > 0
    ensures Balanced(s.buf + s.queue, RecordStep(cfg, s))
  {
    var o := RecordStep(cfg, s);
    var r, rest := s.queue[0], s.queue[1..];
    assert s.queue == [r] + rest;
    var overflow := s.bufSize + Size(r) > MaxRequestSize;
    var kept := if overflow then [] else s.buf;
    var buf := kept + [r];
    var first: seq<seq<Entry>> := if overflow then [s.buf] else [];
    var second: seq<seq<Entry>> := if |buf| >= cfg.bufferSize then [buf] else [];
    assert o.flushed == first + second;
    assert o.state.queue == rest;
    FlattenAppend(first, second);
    assert Flatten(first) + kept == s.buf by {
      if overflow {
        assert first[1..] == [];
      }
    }
    assert Flatten(second) + o.state.buf == buf by {
      if |buf| >= cfg.bufferSize {
        assert second[1..] == [];
      }
    }
    Regroup(Flatten(first), Flatten(second), kept, buf, o.state.buf, r, rest, s.buf);
  }

  /** The sequence bookkeeping of a record step, stated over plain sequences. */
  lemma Regroup(f1: seq<Entry>, f2: seq<Entry>, kept: seq<Entry>, buf: seq<Entry>, buf': seq<Entry>,
                r: Entry, rest: seq<Entry>, old_buf: seq<Entry>)
    requires f1 + kept == old_buf && f2 + buf' == buf && buf == kept + [r]
    ensures f1 + f2 + buf' + rest == old_buf + ([r] + rest)
  {
    calc {
      f1 + f2 + buf' + rest;
      f1 + (f2 + buf') + rest;
      f1 + kept + [r] + rest;
      old_buf + ([r] + rest);
    }
  }

  lemma RecordStepInvariant(cfg: Config, s: State)
    requires Inv(cfg, s) && !s.stopped && |s.queue| > 0
    ensures Inv(cfg, RecordStep(cfg, s).state)
    ensures AllValid(cfg, RecordStep(cfg, s).flushed)
  {
    var o := RecordStep(cfg, s);
    var r, rest := s.queue[0], s.queue[1..];
    assert s.queue == [r] + rest;
    assert Fits(r);
    assert AllFit(rest) by {
      forall i | 0 <= i < |rest| ensures Fits(rest[i]) {
        assert rest[i] == s.queue[i + 1];
      }
    }
    var overflow := s.bufSize + Size(r) > MaxRequestSize;
    var kept := if overflow then [] else s.buf;
    var buf := kept + [r];
    var bufSize := (if overflow then 0 else s.bufSize) + Size(r);
    assert TotalSize(buf) == TotalSize(kept) + Size(r) by {
      assert buf[..|buf| - 1] == kept;
    }
    assert bufSize == TotalSize(buf) <= MaxRequestSize;
    assert |buf| <= cfg.bufferSize;
    var first: seq<seq<Entry>> := if overflow then [s.buf] else [];
    var second: seq<seq<Entry>> := if |buf| >= cfg.bufferSize then [buf] else [];
    assert o.flushed == first + second;
    assert o.state.queue == rest;
    if overflow {
      assert |s.buf| > 0;
      assert ValidBatch(cfg, s.buf);
    }
    if |buf| >= cfg.bufferSize {
      assert ValidBatch(cfg, buf);
    } else {
      assert o.state.buf == buf;
    }
    AllValidAppend(cfg, first, second);
  }

  /**
    When the record arm flushes. Before appending, exactly when the buffer
    plus the record would exceed MaxRequestSize; after appending, exactly when
    the buffer has reached `bufferSize` records. Otherwise nothing is flushed
    and the record joins the buffer.
   */
  lemma RecordStepFlushRules(cfg: Config, s: State)
    requires Inv(cfg, s) && !s.stopped && |s.queue| > 0
    ensures var r := s.queue[0]; var o := RecordStep(cfg, s);
            o.flushed == [] <==> s.bufSize + Size(r) <= MaxRequestSize && |s.buf| + 1 < cfg.bufferSize
    ensures var r := s.queue[0]; var o := RecordStep(cfg, s);
            s.bufSize + Size(r) > MaxRequestSize ==>
              |o.flushed| > 0 && o.flushed[0] == s.buf && TotalSize(o.flushed[0]) + Size(r) > MaxRequestSize
    ensures var r := s.queue[0]; var o := RecordStep(cfg, s);
            s.bufSize + Size(r) <= MaxRequestSize ==> |o.flushed| <= 1
    ensures var r := s.queue[0]; var o := RecordStep(cfg, s);
            o.state.buf == [] ==>
              var last := o.flushed[|o.flushed| - 1];
              |o.flushed| > 0 && |last| == cfg.bufferSize && last[|last| - 1] == r
    ensures var r := s.queue[0]; var o := RecordStep(cfg, s);
            o.state.buf != [] ==>
              && o.state.buf[|o.state.buf| - 1] == r
              && |o.state.buf| < cfg.bufferSize
              && o.flushed == (if s.bufSize + Size(r) > MaxRequestSize then [s.buf] else [])
  {
    var r := s.queue[0];
    assert Fits(r);
    if s.bufSize + Size(r) > MaxRequestSize {
      assert |s.buf| > 0;
    }
  }

  lemma AllValidAppend(cfg: Config, a: seq<seq<Entry>>, b: seq<seq<Entry>>)
    requires AllValid(cfg, a) && AllValid(cfg, b)
    ensures AllValid(cfg, a + b)
  {
    forall k | 0 <= k < |a + b| ensures ValidBatch(cfg, (a + b)[k]) {
      if k < |a| {
        assert (a + b)[k] == a[k];
      } else {
        assert (a + b)[k] == b[k - |a|];
      }
    }
  }

  /**
    Over any run of events the invariant holds, and every batch handed to
    flush is non-empty, at most `bufferSize` records and at most
    MaxRequestSize bytes.
   */
  lemma {:induction false} RunInvariant(cfg: Config, s: State, evs: seq<Event>)
    requires Inv(cfg, s)
    ensures Inv(cfg, Run(cfg, s, evs).state)
    ensures AllValid(cfg, Run(cfg, s, evs).flushed)
    decreases |evs|
  {
    if |evs| > 0 {
      var first := Step(cfg, s, evs[0]);
      StepInvariant(cfg, s, evs[0]);
      RunInvariant(cfg, first.state, evs[1..]);
      AllValidAppend(cfg, first.flushed, Run(cfg, first.state, evs[1..]).flushed);
    }
  }

  /**
    Over any run of events nothing is lost, duplicated or reordered: the
    flushed batches followed by the buffer and the queue are exactly what was
    buffered and queued at the start, in the same order.
   */
  lemma {:induction false} RunConserves(cfg: Config, s: State, evs: seq<Event>)
    ensures Balanced(s.buf + s.queue, Run(cfg, s, evs))
    decreases |evs|
  {
    if |evs| > 0 {
      var first := Step(cfg, s, evs[0]);
      var rest := Run(cfg, first.state, evs[1..]);
      StepConserves(cfg, s, evs[0]);
      RunConserves(cfg, first.state, evs[1..]);
      BalancedCompose(s.buf + s.queue, first, rest);
    }
  }

  /** A balanced step followed by a balanced run is balanced. */
  lemma BalancedCompose(before: seq<Entry>, first: Out, rest: Out)
    requires Balanced(before, first) && Balanced(first.state.buf + first.state.queue, rest)
    ensures Balanced(before, Out(rest.state, first.flushed + rest.flushed))
  {
    FlattenAppend(first.flushed, rest.flushed);
    Chain(Flatten(first.flushed), Flatten(rest.flushed), rest.state.buf + rest.state.queue,
          first.state.buf + first.state.queue, before);
  }

  /** Two balanced steps compose into one. */
  lemma Chain(f1: seq<Entry>, f2: seq<Entry>, after: seq<Entry>, middle: seq<Entry>, before: seq<Entry>)
    requires f2 + after == middle && f1 + middle == before
    ensures f1 + f2 + after == before
  {
    assert f1 + f2 + after == f1 + (f2 + after);
  }

  /** Put enqueues behind the loop's back and keeps its invariant, as long as Stop has not returned. */
  lemma PutKeepsInvariant(cfg: Config, s: State, data: seq<byte>, partitionKey: seq<byte>)
    requires Inv(cfg, s) && !s.stopped
    ensures Put(cfg, s.queue, data, partitionKey).Success? ==>
              Inv(cfg, s.(queue := Put(cfg, s.queue, data, partitionKey).value))
  {
    PutKeepsEntriesFit(cfg, s.queue, data, partitionKey);
  }

  /** A tick with an empty buffer changes nothing and flushes nothing. */
  lemma TickEmptyIsNoop(cfg: Config, s: State)
    requires |s.buf| == 0
    ensures Step(cfg, s, Tick) == Out(s, [])
  {
  }

  /** A tick with a non-empty buffer flushes exactly the buffer and empties it. */
  lemma TickFlushesBuffer(cfg: Config, s: State)
    requires !s.stopped && |s.buf| > 0
    ensures Step(cfg, s, Tick).flushed == [s.buf]
    ensures Step(cfg, s, Tick).state == s.(buf := [], bufSize := 0)
  {
  }

  /**
    The stop signal sets `drain`; the loop returns at once exactly when the
    queue is empty, and in neither case is the buffer flushed.
   */
  lemma DoneDrains(cfg: Config, s: State)
    requires !s.stopped
    ensures Step(cfg, s, Done).state.drain
    ensures Step(cfg, s, Done).state.stopped <==> |s.queue| == 0
    ensures Step(cfg, s, Done).flushed == []
    ensures Step(cfg, s, Done).state.buf == s.buf
  {
  }

  /**
    While draining, the loop returns after the record event that empties the
    queue and not before, and the buffer left at that point is not flushed.
   */
  lemma DrainingRecordStops(cfg: Config, s: State)
    requires s.drain && !s.stopped && |s.queue| > 0
    ensures Step(cfg, s, Record).state.stopped <==> |s.queue| == 1
    ensures Step(cfg, s, Record).state.stopped ==>
              Flatten(Step(cfg, s, Record).flushed) + Step(cfg, s, Record).state.buf == s.buf + s.queue
  {
    StepConserves(cfg, s, Record);
  }

  /** `n` record events in a row. */
  function RecordEvents(n: nat): (evs: seq<Event>)
    ensures |evs| == n
    ensures forall i :: 0 <= i < n ==> evs[i] == Record
  {
    seq(n, _ => Record)
  }

  /** Once draining, as many record events as there are queued records bring the loop to a stop. */
  lemma {:induction false} DrainTerminates(cfg: Config, s: State)
    requires s.drain && !s.stopped && |s.queue| > 0
    ensures Run(cfg, s, RecordEvents(|s.queue|)).state.stopped
    ensures Run(cfg, s, RecordEvents(|s.queue|)).state.queue == []
    decreases |s.queue|
  {
    var evs := RecordEvents(|s.queue|);
    var first := Step(cfg, s, Record);
    assert evs[1..] == RecordEvents(|s.queue| - 1);
    if |s.queue| > 1 {
      DrainTerminates(cfg, first.state);
    }
  }

  /** A returned loop ignores every later event: nothing more is ever flushed. */
  lemma {:induction false} StoppedIsFinal(cfg: Config, s: State, evs: seq<Event>)
    requires s.stopped
    ensures Run(cfg, s, evs) == Out(s, [])
    decreases |evs|
  {
    if |evs| > 0 {
      StoppedIsFinal(cfg, s, evs[1..]);
    }
  }

  /**
    Shutdown as the loop is written: from a fresh loop with `queue` waiting,
    once it has returned, the batches ever flushed followed by the final
    buffer are the whole queue, and that buffer is never flushed afterwards.
    Records still buffered at shutdown are never submitted.
   */
  lemma ShutdownLeavesBuffer(cfg: Config, queue: seq<Entry>, evs: seq<Event>, later: seq<Event>)
    requires Run(cfg, Init(queue), evs).state.stopped
    ensures Flatten(Run(cfg, Init(queue), evs).flushed) + Run(cfg, Init(queue), evs).state.buf == queue
    ensures Run(cfg, Run(cfg, Init(queue), evs).state, later).flushed == []
  {
    RunConserves(cfg, Init(queue), evs);
    var o := Run(cfg, Init(queue), evs);
    assert o.state.queue == [];
    assert Flatten(o.flushed) + o.state.buf + o.state.queue == Flatten(o.flushed) + o.state.buf;
    StoppedIsFinal(cfg, Run(cfg, Init(queue), evs).state, later);
  }

  /**
    With batches of two and three records queued, a stop signal followed by
    the record events flushes one batch of two; the third record is left in
    the buffer when the loop returns.
   */
  lemma ThreeRecordsThenStop(cfg: Config, a: Entry, b: Entry, c: Entry)
    requires cfg.bufferSize == 2 && Fits(a) && Fits(b) && Fits(c)
    ensures Run(cfg, Init([a, b, c]), [Done, Record, Record, Record]).flushed == [[a, b]]
    ensures Run(cfg, Init([a, b, c]), [Done, Record, Record, Record]).state.stopped
    ensures Run(cfg, Init([a, b, c]), [Done, Record, Record, Record]).state.buf == [c]
  {
    var evs := [Done, Record, Record, Record];
    var s0 := Init([a, b, c]);
    var s1 := Step(cfg, s0, Done).state;
    assert s1 == State([], 0, true, [a, b, c], false);
    var o2 := Step(cfg, s1, Record);
    assert o2 == Out(State([a], Size(a), true, [b, c], false), []);
    assert [a] + [b] == [a, b] && [b, c][1..] == [c];
    var o3 := Step(cfg, o2.state, Record);
    assert o3 == Out(State([], 0, true, [c], false), [[a, b]]);
    var o4 := Step(cfg, o3.state, Record);
    assert o4 == Out(State([c], Size(c), true, [], true), []);
    assert evs[1..] == [Record, Record, Record];
    assert evs[1..][1..] == [Record, Record];
    assert evs[1..][1..][1..] == [Record];
  }
}
