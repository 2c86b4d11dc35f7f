/** Runs of a system that answers one request at a time: each request is a transaction, so any interleaving is a sequence. */
module Histories {

  /** The state after all requests, and the answers to them. */
  function RunAll<S, R, A>(handle: (S, R) -> (S, A), s: S, requests: seq<R>): (result: (S, seq<A>))
    ensures |result.1| == |requests|
    decreases |requests|
  {
    if requests == [] then (s, [])
    else
      var (after, reply) := handle(s, requests[0]);
      var (last, replies) := RunAll(handle, after, requests[1..]);
      (last, [reply] + replies)
  }

  lemma RunOne<S, R, A>(handle: (S, R) -> (S, A), s: S, r: R)
    ensures RunAll(handle, s, [r]).0 == handle(s, r).0
  {
    assert [r][1..] == [];
  }

  lemma {:induction false} RunThen<S, R, A>(handle: (S, R) -> (S, A), s: S, requests: seq<R>, last: R)
    ensures RunAll(handle, s, requests + [last]).0 == handle(RunAll(handle, s, requests).0, last).0
    decreases |requests|
  {
    if requests == [] {
      assert requests + [last] == [last];
      RunOne(handle, s, last);
    } else {
      assert (requests + [last])[0] == requests[0] && (requests + [last])[1..] == requests[1..] + [last];
      RunThen(handle, handle(s, requests[0]).0, requests[1..], last);
    }
  }

  lemma RunTwo<S, R, A>(handle: (S, R) -> (S, A), s: S, first: R, second: R)
    ensures RunAll(handle, s, [first, second]).0 == handle(handle(s, first).0, second).0
  {
    assert [first] + [second] == [first, second];
    RunThen(handle, s, [first], second);
    RunOne(handle, s, first);
  }
}
