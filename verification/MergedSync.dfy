/** What the concurrent merge delivers to the synchronizer is a legal order of arrivals. */
module MergedSync {
  import opened Keyset
  import opened Nostr
  import opened CursorStore
  import opened Synchronizer
  import opened NoLoss
  import Merge = ConcurrentStream
  import MergeOrder

  /** Worker `i` yields the events of `outs[i]`, each with its relay. */
  function Rows(out: seq<Event>, url: Url): seq<Row> {
    seq(|out|, k requires 0 <= k < |out| => Row(out[k], url))
  }

  function Outputs(urls: seq<Url>, outs: seq<seq<Event>>): seq<seq<Row>>
    requires |urls| == |outs|
  {
    seq(|urls|, i requires 0 <= i < |urls| => Rows(outs[i], urls[i]))
  }

  function Arrivals(delivered: seq<Merge.Result<Row>>): seq<Row> {
    seq(|delivered|, k requires 0 <= k < |delivered| => delivered[k].value)
  }

  /** Every delivered row carries the relay of the worker that made it. */
  ghost predicate Labelled(urls: seq<Url>, delivered: seq<Merge.Result<Row>>) {
    forall k :: 0 <= k < |delivered| ==>
        delivered[k].worker < |urls| && delivered[k].value.relay == urls[delivered[k].worker]
  }

  ghost predicate Distinct(urls: seq<Url>) {
    forall i, j :: 0 <= i < j < |urls| ==> urls[i] != urls[j]
  }

  lemma {:induction false} OfAppend<R>(results: seq<Merge.Result<R>>, i: nat)
    requires results != []
    ensures Merge.Of(results, i) == Merge.Of(results[..|results| - 1], i) + Merge.OfOne(results[|results| - 1], i)
  {
    var n := |results| - 1;
    assert results == results[..n] + [results[n]];
    Merge.OfConcat(results[..n], [results[n]], i);
    assert Merge.Of([results[n]], i) == Merge.OfOne(results[n], i);
  }

  /** With distinct relays, the events of a relay are what its worker delivered. */
  lemma {:induction false} ProjectIsOf(urls: seq<Url>, delivered: seq<Merge.Result<Row>>, i: nat)
    requires Labelled(urls, delivered) && Distinct(urls) && i < |urls|
    ensures Rows(Project(Arrivals(delivered), urls[i]), urls[i]) == Merge.Of(delivered, i)
  {
    if delivered != [] {
      var n := |delivered| - 1;
      ProjectIsOf(urls, delivered[..n], i);
      OfAppend(delivered, i);
      assert Arrivals(delivered)[..n] == Arrivals(delivered[..n]);
      assert delivered[n].worker == i <==> delivered[n].value.relay == urls[i];
    }
  }

  lemma {:induction false} OfElems<R>(results: seq<Merge.Result<R>>, k: nat)
    requires k < |results|
    ensures results[k].value in Merge.Of(results, results[k].worker)
  {
    if k > 0 {
      OfElems(results[1..], k - 1);
    }
  }

  /** On any schedule the delivered rows are labelled by their workers. */
  lemma DeliveredIsLabelled(pool: Merge.Pool, urls: seq<Url>, outs: seq<seq<Event>>, schedule: seq<Merge.Action>)
    requires |urls| == |outs| == |pool.network|
    ensures Labelled(urls, Merge.Run(pool, Merge.Init(Outputs(urls, outs)), schedule).delivered)
  {
    var outputs := Outputs(urls, outs);
    var delivered := Merge.Run(pool, Merge.Init(outputs), schedule).delivered;
    MergeOrder.ResultsHaveWorkers(pool, outputs, schedule);
    forall k | 0 <= k < |delivered| ensures delivered[k].value.relay == urls[delivered[k].worker] {
      var i := delivered[k].worker;
      OfElems(delivered, k);
      Merge.DeliversPrefixes(pool, outputs, schedule, i);
      assert delivered[k].value in outputs[i];
    }
  }

  /** A prefix of what a worker yields is what a worker yields. */
  lemma PrefixIsYielded(w: World, url: Url, start: nat, out: seq<Event>, got: seq<Event>)
    requires WorkerYields(w, url, start, out) && got <= out
    ensures WorkerYields(w, url, start, got)
  {
    var ctx, cap, idle, requests, end :| YieldsFrom(w, url, start, out, ctx, cap, idle, requests, end);
    assert YieldsFrom(w, url, start, got, ctx, cap, idle, requests, end);
  }

  lemma ProjectOfOthers(arrivals: seq<Row>, url: Url)
    requires forall r :: r in arrivals ==> r.relay != url
    ensures Project(arrivals, url) == []
  {
    ProjectElems(arrivals, url);
    assert Elems(Project(arrivals, url)) == {};
    NoElems(Project(arrivals, url));
  }

  /** Whatever the schedule, and wherever the consumer stops, the arrivals are legal. */
  lemma MergeIsLegal(w: World, t: Tables, pool: Merge.Pool, urls: seq<Url>, outs: seq<seq<Event>>,
          schedule: seq<Merge.Action>)
    requires |urls| == |outs| == |pool.network| && Distinct(urls)
    requires forall i :: 0 <= i < |urls| ==>
        urls[i] in t.relays && WorkerYields(w, urls[i], Timestamp(t.cursors, urls[i]), outs[i])
    ensures Legal(w, t, Arrivals(Merge.Run(pool, Merge.Init(Outputs(urls, outs)), schedule).delivered))
  {
    var outputs := Outputs(urls, outs);
    var delivered := Merge.Run(pool, Merge.Init(outputs), schedule).delivered;
    var arrivals := Arrivals(delivered);
    DeliveredIsLabelled(pool, urls, outs, schedule);
    forall url
      ensures Project(arrivals, url) == [] || WorkerYields(w, url, Timestamp(t.cursors, url), Project(arrivals, url))
    {
      if url in urls {
        var i :| 0 <= i < |urls| && urls[i] == url;
        ProjectIsOf(urls, delivered, i);
        Merge.DeliversPrefixes(pool, outputs, schedule, i);
        RowsPrefix(Project(arrivals, url), outs[i], url);
        PrefixIsYielded(w, url, Timestamp(t.cursors, url), outs[i], Project(arrivals, url));
      } else {
        ProjectOfOthers(arrivals, url);
      }
    }
  }

  lemma RowsPrefix(a: seq<Event>, b: seq<Event>, url: Url)
    requires Rows(a, url) <= Rows(b, url)
    ensures a <= b
  {
    var ra, rb := Rows(a, url), Rows(b, url);
    forall k | 0 <= k < |a| ensures a[k] == b[k] {
      assert ra[k] == rb[k] && ra[k] == Row(a[k], url) && rb[k] == Row(b[k], url);
    }
  }
}
