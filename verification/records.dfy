/**
  Request entries, the service's size limits, and the sequence facts the rest
  of the model needs (byte totals, concatenation of batches, subsequences).
 */
module Records {

  /** An octet. Payloads, separators and partition keys are byte strings. */
  newtype byte = x: int | 0 <= x < 256

  /** The size limits the producer treats as the service's contract. */
  const MegaByte: nat := 0x10_0000
  const MaxRecordSize: nat := MegaByte
  const MaxRequestSize: nat := 5 * MegaByte

  /**
    One entry of a PutRecords request. `data` already carries the configured
    separator; `partitionKey` is the key's UTF-8 encoding, since the producer
    measures keys with Go's byte length.
   */
  datatype Entry = Entry(data: seq<byte>, partitionKey: seq<byte>)

  /** The bytes an entry contributes to a request: key plus payload. */
  function Size(e: Entry): nat {
    |e.partitionKey| + |e.data|
  }

  /** The byte total of a batch, accumulated front to back. */
  function TotalSize(batch: seq<Entry>): nat {
    if |batch| == 0 then 0
    else TotalSize(batch[..|batch| - 1]) + Size(batch[|batch| - 1])
  }

  /** An entry that could have passed the boundary check of Put. */
  predicate Fits(e: Entry) {
    Size(e) <= MaxRecordSize
  }

  predicate AllFit(q: seq<Entry>) {
    forall i :: 0 <= i < |q| ==> Fits(q[i])
  }

  /** The batches of a flush history laid end to end. */
  function Flatten(batches: seq<seq<Entry>>): seq<Entry> {
    if |batches| == 0 then [] else batches[0] + Flatten(batches[1..])
  }

  lemma {:induction false} FlattenAppend(a: seq<seq<Entry>>, b: seq<seq<Entry>>)
    ensures Flatten(a + b) == Flatten(a) + Flatten(b)
    decreases |a|
  {
    if |a| == 0 {
      assert a + b == b;
    } else {
      assert (a + b)[1..] == a[1..] + b;
      FlattenAppend(a[1..], b);
    }
  }

  /**
    `a` is `b` with some entries removed and the rest kept in order. Defined
    from the back, which is the direction in which batches are built.
   */
  predicate IsSubsequence(a: seq<Entry>, b: seq<Entry>)
    decreases |b|
  {
    if |a| == 0 then true
    else if |b| == 0 then false
    else if a[|a| - 1] == b[|b| - 1] then IsSubsequence(a[..|a| - 1], b[..|b| - 1])
    else IsSubsequence(a, b[..|b| - 1])
  }

  /** Appending to the larger sequence keeps a subsequence a subsequence. */
  lemma {:induction false} SubsequenceExtend(a: seq<Entry>, b: seq<Entry>, x: Entry)
    requires IsSubsequence(a, b)
    ensures IsSubsequence(a, b + [x])
    decreases |a| + |b|, 1
  {
    assert (b + [x])[..|b|] == b;
    if |a| > 0 && a[|a| - 1] == x {
      SubsequenceDropLast(a, b);
    }
  }

  /** Dropping the last element of a subsequence keeps it a subsequence. */
  lemma {:induction false} SubsequenceDropLast(a: seq<Entry>, b: seq<Entry>)
    requires |a| > 0 && IsSubsequence(a, b)
    ensures IsSubsequence(a[..|a| - 1], b)
    decreases |a| + |b|, 0
  {
    var a', b' := a[..|a| - 1], b[..|b| - 1];
    assert b' + [b[|b| - 1]] == b;
    if a[|a| - 1] == b[|b| - 1] {
      SubsequenceExtend(a', b', b[|b| - 1]);
    } else {
      SubsequenceDropLast(a, b');
      SubsequenceExtend(a', b', b[|b| - 1]);
    }
  }

  lemma {:induction false} SubsequenceReflexive(a: seq<Entry>)
    ensures IsSubsequence(a, a)
    decreases |a|
  {
    if |a| > 0 {
      SubsequenceReflexive(a[..|a| - 1]);
    }
  }

  lemma {:induction false} SubsequenceTransitive(a: seq<Entry>, b: seq<Entry>, c: seq<Entry>)
    requires IsSubsequence(a, b) && IsSubsequence(b, c)
    ensures IsSubsequence(a, c)
    decreases |c|
  {
    if |a| > 0 {
      var c' := c[..|c| - 1];
      var x := c[|c| - 1];
      assert c' + [x] == c;
      if b[|b| - 1] == x {
        var b' := b[..|b| - 1];
        if a[|a| - 1] == b[|b| - 1] {
          SubsequenceTransitive(a[..|a| - 1], b', c');
        } else {
          SubsequenceTransitive(a, b', c');
          SubsequenceExtend(a, c', x);
        }
      } else {
        SubsequenceTransitive(a, b, c');
        SubsequenceExtend(a, c', x);
      }
    }
  }

  /** A subsequence of a prefix is a subsequence of the whole. */
  lemma {:induction false} SubsequenceOfPrefix(a: seq<Entry>, b: seq<Entry>, k: nat)
    requires k <= |b| && IsSubsequence(a, b[..k])
    ensures IsSubsequence(a, b)
    decreases |b| - k
  {
    if k == |b| {
      assert b[..k] == b;
    } else {
      assert b[..k + 1] == b[..k] + [b[k]];
      SubsequenceExtend(a, b[..k], b[k]);
      SubsequenceOfPrefix(a, b, k + 1);
    }
  }

  /** A subsequence is no longer and no heavier than the sequence it is drawn from. */
  lemma {:induction false} SubsequenceBounds(a: seq<Entry>, b: seq<Entry>)
    requires IsSubsequence(a, b)
    ensures |a| <= |b|
    ensures TotalSize(a) <= TotalSize(b)
    decreases |b|
  {
    if |a| > 0 {
      if a[|a| - 1] == b[|b| - 1] {
        SubsequenceBounds(a[..|a| - 1], b[..|b| - 1]);
      } else {
        SubsequenceBounds(a, b[..|b| - 1]);
      }
    }
  }
}
