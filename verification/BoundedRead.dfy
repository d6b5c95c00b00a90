/** Reading a response body with a limit on its size, however it is cut into chunks. */
module BoundedRead {
  import opened Batches

  datatype Body = Body(bytes: seq<bv8>) | TooLarge

  /**
   A body that arrives piecewise: `piece` says how much a read returns when it may return
   less than it was asked for.
   */
  class Content {
    const piece: nat -> nat
    var calls: nat
    var rest: seq<bv8>

    constructor (body: seq<bv8>, piece: nat -> nat)
      ensures rest == body && this.piece == piece && calls == 0
    {
      this.piece := piece;
      rest := body;
      calls := 0;
    }

    /** At least one byte and at most `n`; none only at the end of the body. */
    method Read(n: nat) returns (chunk: seq<bv8>)
      requires n >= 1
      modifies this
      ensures chunk + rest == old(rest)
      ensures |chunk| <= n && (chunk == [] <==> old(rest) == [])
    {
      var size := if rest == [] then 0 else 1 + piece(calls) % Min(n, |rest|);
      chunk := rest[..size];
      rest := rest[size..];
      calls := calls + 1;
    }
  }

  function Joined(chunks: seq<seq<bv8>>): seq<bv8> {
    if chunks == [] then [] else Joined(chunks[..|chunks| - 1]) + chunks[|chunks| - 1]
  }

  /** The whole body, or a failure if it is larger than the limit; no more than one byte beyond the limit is read. */
  method ReadBounded(content: Content, maxSize: nat) returns (body: Body)
    modifies content
    ensures body == if |old(content.rest)| <= maxSize then Body(old(content.rest)) else TooLarge
    ensures |old(content.rest)| - |content.rest| <= maxSize + 1
    ensures body.Body? ==> content.rest == []
  {
    var chunks, total := [], 0;
    while true
      invariant total == |Joined(chunks)| <= maxSize
      invariant Joined(chunks) + content.rest == old(content.rest)
      decreases |content.rest|
    {
      ghost var before := content.rest;
      var chunk := content.Read(maxSize + 1 - total);
      if chunk == [] {
        break;
      }
      total := total + |chunk|;
      Regroup(Joined(chunks), chunk, content.rest);
      if total > maxSize {
        return TooLarge;
      }
      assert (chunks + [chunk])[..|chunks|] == chunks;
      chunks := chunks + [chunk];
    }
    body := Body(Joined(chunks));
  }
}
