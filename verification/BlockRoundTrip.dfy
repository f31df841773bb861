/** Blocks from the outside: prefix compression and restart points cannot be observed. */
module BlockRoundTrip {
  import opened DbFormat
  import opened Coding
  import opened BlockFormat
  import opened BlockIter
  import BlockBuilder

  method Build(pairs: seq<Pair>, interval: nat) returns (block: Bytes, ghost starts: seq<nat>)
    requires interval >= 1
    ensures Starts(pairs, starts) && block == Finished(pairs, starts)
  {
    hide Finished, Data;
    var builder := new BlockBuilder.Builder(interval);
    for i := 0 to |pairs|
      invariant builder.Valid() && !builder.finished && builder.interval == interval && builder.kvs == pairs[..i]
    {
      builder.Add(pairs[i].key, pairs[i].value);
    }
    assert pairs[..|pairs|] == pairs;
    block := builder.Finish();
    starts := builder.starts;
  }

  function Reversed(pairs: seq<Pair>): seq<Pair> {
    seq(|pairs|, i requires 0 <= i < |pairs| => pairs[|pairs| - 1 - i])
  }

  /** From the first entry to the last. */
  method ScanForward(less: (Bytes, Bytes) -> bool, block: Bytes, ghost kvs: seq<Pair>, ghost starts: seq<nat>)
    returns (pairs: seq<Pair>)
    requires Laid(block, kvs, starts) && Open(block).Restarts?
    ensures pairs == kvs
  {
    hide Laid, Open, Offset;
    var iter := new Iter(less, block, kvs, starts);
    pairs := [];
    iter.SeekToFirst();
    iter.ValidIfShown();
    while iter.Valid()
      invariant iter.Sane() && iter.At(|pairs|) && iter.kvs == kvs && iter.data == block
      invariant pairs == kvs[..|pairs|]
      invariant iter.Valid() <==> |pairs| < |kvs|
      decreases |kvs| - |pairs|
    {
      pairs := pairs + [Pair(iter.key, iter.Value())];
      iter.Next();
      iter.ValidIfShown();
    }
  }

  /** From the last entry to the first. */
  method ScanBackward(less: (Bytes, Bytes) -> bool, block: Bytes, ghost kvs: seq<Pair>, ghost starts: seq<nat>)
    returns (pairs: seq<Pair>)
    requires Laid(block, kvs, starts) && Open(block).Restarts?
    ensures pairs == Reversed(kvs)
  {
    hide Laid, Open, Offset;
    var iter := new Iter(less, block, kvs, starts);
    pairs := [];
    iter.SeekToLast();
    iter.ValidIfShown();
    while iter.Valid()
      invariant iter.Sane() && iter.kvs == kvs && iter.data == block && |pairs| <= |kvs|
      invariant iter.At(if |pairs| == |kvs| then |kvs| else |kvs| - 1 - |pairs|)
      invariant pairs == Reversed(kvs)[..|pairs|]
      invariant iter.Valid() <==> |pairs| < |kvs|
      decreases |kvs| - |pairs|
    {
      pairs := pairs + [Pair(iter.key, iter.Value())];
      iter.Prev();
      iter.ValidIfShown();
    }
  }

  /** The first entry whose key is not before the target, if there is one. */
  method Find(less: (Bytes, Bytes) -> bool, block: Bytes, target: Bytes, ghost kvs: seq<Pair>, ghost starts: seq<nat>)
    returns (found: Option<Pair>)
    requires Laid(block, kvs, starts) && Open(block).Restarts? && Transitive(less) && Increasing(less, kvs)
    ensures found.None? ==> forall p :: p in kvs ==> less(p.key, target)
    ensures found.Some? ==> found.value in kvs && !less(found.value.key, target)
    ensures found.Some? ==> forall p :: p in kvs && !less(p.key, target) ==>
            p == found.value || less(found.value.key, p.key)
  {
    hide Laid, Open, Offset, Transitive;
    var iter := new Iter(less, block, kvs, starts);
    iter.Seek(target);
    iter.ValidIfShown();
    if iter.Valid() {
      found := Some(Pair(iter.key, iter.Value()));
      assert found.value == kvs[iter.pos];
    } else {
      found := None;
    }
  }

  /** Every list of pairs, built into a block of less than 4 GB, is read back from both ends. */
  method RoundTrip(less: (Bytes, Bytes) -> bool, pairs: seq<Pair>, interval: nat)
    returns (block: Bytes, forward: seq<Pair>, backward: seq<Pair>)
    requires interval >= 1
    ensures |block| < WORD ==> forward == pairs && backward == Reversed(pairs)
  {
    hide Open, Finished;
    ghost var starts;
    block, starts := Build(pairs, interval);
    forward, backward := [], [];
    if |block| < WORD {
      LaidOpens(block, pairs, starts);
      forward := ScanForward(less, block, pairs, starts);
      backward := ScanBackward(less, block, pairs, starts);
    }
  }
}
