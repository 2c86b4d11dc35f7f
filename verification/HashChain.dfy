/** Records that each name the hash of the record before: the hash of the last one fixes them all. */
module HashChain {

  /** The hash that the next record has to name. */
  function Head<R, H>(hash: R -> H, genesis: H, records: seq<R>): H {
    if records == [] then genesis else hash(records[|records| - 1])
  }

  /** Each record is in order at its position, after the hash of the record before. */
  predicate Chained<R, H>(ok: (R, nat, H) -> bool, hash: R -> H, genesis: H, records: seq<R>) {
    records == []
    || var n := |records| - 1;
       Chained(ok, hash, genesis, records[..n]) && ok(records[n], n, Head(hash, genesis, records[..n]))
  }

  lemma ChainedStep<R, H>(ok: (R, nat, H) -> bool, hash: R -> H, genesis: H, records: seq<R>, n: nat)
    requires n < |records|
    ensures Chained(ok, hash, genesis, records[..n + 1])
       <==> Chained(ok, hash, genesis, records[..n]) && ok(records[n], n, Head(hash, genesis, records[..n]))
  {
    assert records[..n + 1][..n] == records[..n];
  }

  lemma {:induction false} ChainedPrefix<R, H>(ok: (R, nat, H) -> bool, hash: R -> H, genesis: H, records: seq<R>, n: nat)
    requires Chained(ok, hash, genesis, records) && n <= |records|
    ensures Chained(ok, hash, genesis, records[..n])
    decreases |records| - n
  {
    if n == |records| {
      assert records[..n] == records;
    } else {
      ChainedPrefix(ok, hash, genesis, records, n + 1);
      ChainedStep(ok, hash, genesis, records, n);
    }
  }

  lemma {:induction false} ChainedAt<R, H>(ok: (R, nat, H) -> bool, hash: R -> H, genesis: H, records: seq<R>, n: nat)
    requires Chained(ok, hash, genesis, records) && n < |records|
    ensures ok(records[n], n, Head(hash, genesis, records[..n]))
  {
    ChainedPrefix(ok, hash, genesis, records, n + 1);
    ChainedStep(ok, hash, genesis, records, n);
  }

  /** If two records have one hash, they mean the same at the same place. */
  predicate Agree<R, H(==), M(==)>(hash: R -> H, genesis: H, meaning: R -> M, a: seq<R>, b: seq<R>, i: nat, j: nat)
    requires i < |a| && j < |b|
  {
    hash(a[i]) == hash(b[j]) ==>
      meaning(a[i]) == meaning(b[j]) && i == j && Head(hash, genesis, a[..i]) == Head(hash, genesis, b[..j])
  }

  predicate Avoids<R, H(==)>(hash: R -> H, genesis: H, records: seq<R>) {
    forall i :: 0 <= i < |records| ==> hash(records[i]) != genesis
  }

  /** The hashes of two chains fix their records. */
  predicate HashesFixRecords<R, H(==), M(==)>(hash: R -> H, genesis: H, meaning: R -> M, a: seq<R>, b: seq<R>) {
    && Avoids(hash, genesis, a) && Avoids(hash, genesis, b)
    && forall i, j :: 0 <= i < |a| && 0 <= j < |b| ==> Agree(hash, genesis, meaning, a, b, i, j)
  }

  predicate SameMeaning<R, M(==)>(meaning: R -> M, a: seq<R>, b: seq<R>) {
    |a| == |b| && forall i :: 0 <= i < |a| ==> meaning(a[i]) == meaning(b[i])
  }

  /** Then the head determines the meaning of the whole chain. */
  lemma {:induction false} HeadFixesChain<R, H, M>(hash: R -> H, genesis: H, meaning: R -> M, a: seq<R>, b: seq<R>)
    requires HashesFixRecords(hash, genesis, meaning, a, b)
    requires Head(hash, genesis, a) == Head(hash, genesis, b)
    ensures SameMeaning(meaning, a, b)
    decreases |a|
  {
    if a != [] && b != [] {
      var m, n := |a| - 1, |b| - 1;
      assert Agree(hash, genesis, meaning, a, b, m, n);
      forall i, j | 0 <= i < m && 0 <= j < n ensures Agree(hash, genesis, meaning, a[..m], b[..n], i, j) {
        assert Agree(hash, genesis, meaning, a, b, i, j) && a[..m][..i] == a[..i] && b[..n][..j] == b[..j];
      }
      HeadFixesChain(hash, genesis, meaning, a[..m], b[..n]);
      assert forall i :: 0 <= i < m ==> a[..m][i] == a[i] && b[..n][i] == b[i];
    }
  }
}
