/**
  The producer's public boundary: its configuration and `Put`, which checks a
  record against the per-record limit and enqueues one request entry. The
  queue is a plain sequence; blocking on a full queue is not modelled.
 */
module Producer {
  import opened Wrappers
  import opened Records

  /**
    The part of the producer's configuration the core reads: the maximum
    number of records per batch and the bytes appended to every payload.
   */
  datatype Config = Config(bufferSize: int, separator: seq<byte>)

  /** The one error a caller of Put can observe. */
  datatype PutError = RecordSizeExceeded

  /** The bytes Put charges a record against the per-record limit. */
  function RecordSize(cfg: Config, data: seq<byte>, partitionKey: seq<byte>): nat {
    |data| + |partitionKey| + |cfg.separator|
  }

  /**
    Put: reject a record whose payload, key and separator together exceed
    MaxRecordSize, otherwise enqueue one entry whose data is the payload
    followed by the separator.
   */
  function Put(cfg: Config, queue: seq<Entry>, data: seq<byte>, partitionKey: seq<byte>)
    : (r: Result<seq<Entry>, PutError>)
    ensures r.Failure? <==> RecordSize(cfg, data, partitionKey) > MaxRecordSize
    ensures r.Success? ==>
              && |r.value| == |queue| + 1
              && r.value[..|queue|] == queue
              && r.value[|queue|].data == data + cfg.separator
              && r.value[|queue|].partitionKey == partitionKey
  {
    if RecordSize(cfg, data, partitionKey) > MaxRecordSize then
      Failure(RecordSizeExceeded)
    else
      Success(queue + [Entry(data + cfg.separator, partitionKey)])
  }

  /**
    Everything Put accepts is within the per-record limit once queued, so a
    queue built only by Put holds entries the batch assembler can rely on.
   */
  lemma PutKeepsEntriesFit(cfg: Config, queue: seq<Entry>, data: seq<byte>, partitionKey: seq<byte>)
    requires AllFit(queue)
    ensures Put(cfg, queue, data, partitionKey).Success? ==>
              && AllFit(Put(cfg, queue, data, partitionKey).value)
              && Size(Put(cfg, queue, data, partitionKey).value[|queue|])
                 == RecordSize(cfg, data, partitionKey)
  {
    var r := Put(cfg, queue, data, partitionKey);
    if r.Success? {
      assert forall i :: 0 <= i < |queue| ==> r.value[i] == queue[i];
    }
  }

  /** Folding Put over a list of calls: the queue after each accepted call. */
  function PutAll(cfg: Config, queue: seq<Entry>, calls: seq<(seq<byte>, seq<byte>)>): seq<Entry>
    decreases |calls|
  {
    if |calls| == 0 then queue
    else
      match Put(cfg, queue, calls[0].0, calls[0].1)
      case Success(q) => PutAll(cfg, q, calls[1..])
      case Failure(_) => PutAll(cfg, queue, calls[1..])
  }

  /**
    Reference definition, independent of Put: the entries a run of calls
    should enqueue, one per call within the limit, in call order.
   */
  function Admitted(cfg: Config, calls: seq<(seq<byte>, seq<byte>)>): seq<Entry>
    decreases |calls|
  {
    if |calls| == 0 then []
    else
      var (data, key) := calls[|calls| - 1];
      Admitted(cfg, calls[..|calls| - 1])
        + (if RecordSize(cfg, data, key) <= MaxRecordSize then [Entry(data + cfg.separator, key)] else [])
  }

  /** The number of calls within the per-record limit. */
  function AcceptedCount(cfg: Config, calls: seq<(seq<byte>, seq<byte>)>): nat
    decreases |calls|
  {
    if |calls| == 0 then 0
    else
      var (data, key) := calls[|calls| - 1];
      AcceptedCount(cfg, calls[..|calls| - 1]) + (if RecordSize(cfg, data, key) <= MaxRecordSize then 1 else 0)
  }

  lemma {:induction false} AdmittedLength(cfg: Config, calls: seq<(seq<byte>, seq<byte>)>)
    ensures |Admitted(cfg, calls)| == AcceptedCount(cfg, calls) <= |calls|
    decreases |calls|
  {
    if |calls| > 0 {
      AdmittedLength(cfg, calls[..|calls| - 1]);
    }
  }

  /** Admitted distributes over splitting the calls at their first element. */
  lemma {:induction false} AdmittedCons(cfg: Config, calls: seq<(seq<byte>, seq<byte>)>)
    requires |calls| > 0
    ensures Admitted(cfg, calls)
            == Admitted(cfg, calls[..1]) + Admitted(cfg, calls[1..])
    decreases |calls|
  {
    if |calls| > 1 {
      var init := calls[..|calls| - 1];
      assert init[..1] == calls[..1];
      assert init[1..] == calls[1..][..|calls[1..]| - 1];
      assert calls[1..][|calls[1..]| - 1] == calls[|calls| - 1];
      AdmittedCons(cfg, init);
    } else {
      assert calls[..1] == calls;
      assert calls[1..] == [];
    }
  }

  /** One call: Put enqueues exactly what the reference definition admits. */
  lemma PutAdmitsOne(cfg: Config, queue: seq<Entry>, calls: seq<(seq<byte>, seq<byte>)>)
    requires |calls| > 0
    ensures PutAll(cfg, queue, calls) == PutAll(cfg, queue + Admitted(cfg, calls[..1]), calls[1..])
  {
    var first := calls[..1];
    assert |first| == 1 && first[..0] == [] && first[0] == calls[0];
    var (data, key) := calls[0];
    if RecordSize(cfg, data, key) <= MaxRecordSize {
      assert Admitted(cfg, first) == [] + [Entry(data + cfg.separator, key)];
      assert Admitted(cfg, first) == [Entry(data + cfg.separator, key)];
    } else {
      assert Admitted(cfg, first) == [] + [];
      assert queue + Admitted(cfg, first) == queue;
    }
  }

  /** The queue after a run of Put calls is the old queue followed by the admitted entries. */
  lemma {:induction false} PutAllAdmits(cfg: Config, queue: seq<Entry>, calls: seq<(seq<byte>, seq<byte>)>)
    ensures PutAll(cfg, queue, calls) == queue + Admitted(cfg, calls)
    decreases |calls|
  {
    if |calls| == 0 {
      assert queue + [] == queue;
    } else {
      var head := Admitted(cfg, calls[..1]);
      PutAdmitsOne(cfg, queue, calls);
      AdmittedCons(cfg, calls);
      PutAllAdmits(cfg, queue + head, calls[1..]);
      assert (queue + head) + Admitted(cfg, calls[1..]) == queue + (head + Admitted(cfg, calls[1..]));
    }
  }

  /**
    A run of Put calls only ever adds entries at the end of the queue, each of
    them within the per-record limit: the entries already queued are kept in
    place, the new ones are exactly the admitted entries in call order, and a
    rejected call leaves no trace.
   */
  lemma {:induction false} PutAllExtends(cfg: Config, queue: seq<Entry>, calls: seq<(seq<byte>, seq<byte>)>)
    requires AllFit(queue)
    ensures |queue| <= |PutAll(cfg, queue, calls)| <= |queue| + |calls|
    ensures PutAll(cfg, queue, calls)[..|queue|] == queue
    ensures AllFit(PutAll(cfg, queue, calls))
    ensures PutAll(cfg, queue, calls) == queue + Admitted(cfg, calls)
    ensures |PutAll(cfg, queue, calls)| == |queue| + AcceptedCount(cfg, calls)
    decreases |calls|
  {
    PutAllAdmits(cfg, queue, calls);
    AdmittedLength(cfg, calls);
    if |calls| > 0 {
      PutKeepsEntriesFit(cfg, queue, calls[0].0, calls[0].1);
      match Put(cfg, queue, calls[0].0, calls[0].1)
      case Success(q) =>
        PutAllExtends(cfg, q, calls[1..]);
      case Failure(_) =>
        PutAllExtends(cfg, queue, calls[1..]);
    }
  }

  /**
    A record exactly one byte over the limit is refused and the queue is left
    empty.
   */
  lemma OversizedRecordRejected(cfg: Config, data: seq<byte>, partitionKey: seq<byte>)
    requires RecordSize(cfg, data, partitionKey) == MaxRecordSize + 1
    ensures Put(cfg, [], data, partitionKey) == Failure(RecordSizeExceeded)
    ensures PutAll(cfg, [], [(data, partitionKey)]) == []
  {
  }
}
