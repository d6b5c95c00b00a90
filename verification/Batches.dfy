/**
 Batched writes: a batch is written chunk by chunk, so a crash may leave any of
 the states between two chunks behind.
 */
module Batches {

  function Min(a: nat, b: nat): nat { if a <= b then a else b }

  /** The states after each chunk of at most `size` records. */
  function ChunkTrace<S, R>(write: (S, seq<R>) -> S, s: S, records: seq<R>, size: nat): seq<S>
    requires size >= 1
    decreases |records|
  {
    if records == [] then []
    else
      var n := Min(size, |records|);
      var next := write(s, records[..n]);
      [next] + ChunkTrace(write, next, records[n..], size)
  }

  /** Writing twice is writing the concatenation; writing nothing changes nothing. */
  ghost predicate Composes<S(!new), R(!new)>(write: (S, seq<R>) -> S) {
    && (forall s :: write(s, []) == s)
    && (forall s, a, b :: write(write(s, a), b) == write(s, a + b))
  }

  /** The records written by the first `k + 1` chunks. */
  function Written(k: nat, size: nat, total: nat): (n: nat)
    ensures n <= total
  {
    Min((k + 1) * size, total)
  }

  lemma WrittenGrows(k: nat, m: nat, size: nat, total: nat)
    requires k <= m
    ensures Written(k, size, total) <= Written(m, size, total)
  {
    assert (m + 1) * size == (k + 1) * size + (m - k) * size;
  }

  /** Every state of the trace is the effect of a prefix of the batch. */
  lemma {:induction false} ChunkTraceIsPrefixes<S(!new), R(!new)>(write: (S, seq<R>) -> S, s: S,
          records: seq<R>, size: nat, k: nat)
    requires size >= 1 && Composes(write) && k < |ChunkTrace(write, s, records, size)|
    ensures ChunkTrace(write, s, records, size)[k] == write(s, records[..Written(k, size, |records|)])
    decreases |records|
  {
    var m := Min(size, |records|);
    var next, rest := write(s, records[..m]), records[m..];
    if k > 0 {
      ChunkTraceIsPrefixes(write, next, rest, size, k - 1);
      WrittenAfterFirst(k, size, |records|);
      PrefixInTwo(records, size, Written(k - 1, size, |rest|));
    }
  }

  /** The last one has all of the batch. */
  lemma {:induction false} ChunkTraceEnds<S, R>(write: (S, seq<R>) -> S, s: S, records: seq<R>, size: nat)
    requires size >= 1 && records != []
    ensures var n := |ChunkTrace(write, s, records, size)|;
            n >= 1 && Written(n - 1, size, |records|) == |records|
    decreases |records|
  {
    if |records| > size {
      var n := |ChunkTrace(write, s, records, size)|;
      ChunkTraceEnds(write, write(s, records[..size]), records[size..], size);
      WrittenAfterFirst(n - 1, size, |records|);
    }
  }

  /** So the trace ends with the effect of the whole batch. */
  lemma ChunkTraceLast<S(!new), R(!new)>(write: (S, seq<R>) -> S, s: S, records: seq<R>, size: nat)
    requires size >= 1 && records != [] && Composes(write)
    ensures var trace := ChunkTrace(write, s, records, size);
            trace != [] && trace[|trace| - 1] == write(s, records)
  {
    var n := |ChunkTrace(write, s, records, size)|;
    ChunkTraceEnds(write, s, records, size);
    ChunkTraceIsPrefixes(write, s, records, size, n - 1);
    assert records[..|records|] == records;
  }

  lemma PrefixInTwo<T>(s: seq<T>, m: nat, n: nat)
    requires m + n <= |s|
    ensures s[..m] + s[m..][..n] == s[..m + n]
  {
  }

  /** The next slice of what is left, and what is left after it. */
  lemma SlicesOfRest<T>(s: seq<T>, i: nat, end: nat)
    requires i <= end <= |s|
    ensures s[i..][..end - i] == s[i..end] && s[i..][end - i..] == s[end..] && s[i..] == s[i..end] + s[end..]
  {
  }

  lemma WrittenAfterFirst(k: nat, size: nat, total: nat)
    requires k >= 1 && size <= total
    ensures Written(k, size, total) == size + Written(k - 1, size, total - size)
  {
    assert (k + 1) * size == k * size + size;
  }

  /** The loop over the chunks from index `i` on: the state and the history it ends with. */
  function Chunked<S, R>(write: (S, seq<R>) -> S, s: S, history: seq<S>, records: seq<R>, i: nat,
          size: nat): (S, seq<S>)
    requires size >= 1
    decreases |records| - i
  {
    if i >= |records| then (s, history)
    else
      var end := Min(i + size, |records|);
      var next := write(s, records[i..end]);
      Chunked(write, next, history + [next], records, end, size)
  }

  /** It writes all of the rest, and the history grows by the trace. */
  lemma {:induction false} ChunkedWritesAll<S(!new), R(!new)>(write: (S, seq<R>) -> S, s: S, history: seq<S>,
          records: seq<R>, i: nat, size: nat)
    requires size >= 1 && i <= |records| && Composes(write)
    ensures Chunked(write, s, history, records, i, size)
         == (write(s, records[i..]), history + ChunkTrace(write, s, records[i..], size))
    decreases |records| - i
  {
    var rest := records[i..];
    if i == |records| {
      assert rest == [] && history + [] == history;
    } else {
      var end := Min(i + size, |records|);
      var next := write(s, records[i..end]);
      ChunkedWritesAll(write, next, history + [next], records, end, size);
      SlicesOfRest(records, i, end);
      HistoryStep(history, next, ChunkTrace(write, next, records[end..], size));
    }
  }

  lemma ChunkedFromStart<S(!new), R(!new)>(write: (S, seq<R>) -> S, s: S, history: seq<S>, records: seq<R>, size: nat)
    requires size >= 1 && Composes(write)
    ensures Chunked(write, s, history, records, 0, size)
         == (write(s, records), history + ChunkTrace(write, s, records, size))
  {
    ChunkedWritesAll(write, s, history, records, 0, size);
    assert records[0..] == records;
  }

  /** A history that grows by the states of a trace. */
  lemma HistoryStep<S>(history: seq<S>, next: S, trace: seq<S>)
    ensures (history + [next]) + trace == history + ([next] + trace)
  {
  }

  lemma Regroup<T>(a: seq<T>, b: seq<T>, c: seq<T>)
    ensures a + (b + c) == (a + b) + c
  {
  }
}
