/** Building a block (table/block_builder.cc:38-106). */
module BlockBuilder {
  import opened DbFormat
  import opened Coding
  import opened BlockFormat

  function Last(starts: seq<nat>): nat
    requires starts != []
  {
    starts[|starts| - 1]
  }

  /** The offsets that the builder remembers for its restart points. */
  ghost predicate RestartsAre(kvs: seq<Pair>, starts: seq<nat>, restarts: seq<nat>) {
    && |restarts| == |starts|
    && forall j :: 0 <= j < |starts| ==> starts[j] <= |kvs| && restarts[j] == Offset(kvs, starts, starts[j])
  }

  /** What one more entry does to the list of restart points. */
  function StartsAfter(starts: seq<nat>, n: nat, interval: nat): seq<nat>
    requires starts != []
  {
    if n < Last(starts) + interval then starts else starts + [n]
  }

  lemma StartsGrow(kvs: seq<Pair>, starts: seq<nat>, interval: nat, pair: Pair)
    requires Starts(kvs, starts) && Spaced(starts, interval) && interval >= 1
    requires Last(starts) <= |kvs| <= Last(starts) + interval
    ensures var s := StartsAfter(starts, |kvs|, interval);
            && Starts(kvs + [pair], s) && Spaced(s, interval) && Last(s) <= |kvs| < Last(s) + interval
            && (|kvs| in s <==> |kvs| == 0 || |kvs| == Last(starts) + interval)
  {
    var s := StartsAfter(starts, |kvs|, interval);
    if |kvs| in starts {
      var j :| 0 <= j < |starts| && starts[j] == |kvs|;
      assert j == 0;
    }
    assert |kvs| == 0 ==> starts[0] == |kvs|;
    assert |kvs| == Last(starts) + interval ==> s[|s| - 1] == |kvs|;
  }

  /** Later entries and restart points do not change the bytes already written. */
  lemma {:induction false} DataStays(kvs: seq<Pair>, starts: seq<nat>, pair: Pair, s: seq<nat>, n: nat)
    requires n <= |kvs| && (s == starts || s == starts + [|kvs|])
    ensures Data(kvs + [pair], s, n) == Data(kvs, starts, n)
  {
    hide EntryBytes, Shared;
    if n > 0 {
      DataStays(kvs, starts, pair, s, n - 1);
      assert n - 1 in s <==> n - 1 in starts;
    }
  }

  /** What a new entry shares with the one before it. */
  lemma SharedWithLast(kvs: seq<Pair>, pair: Pair, s: seq<nat>, lastKey: Bytes)
    requires lastKey == if kvs == [] then [] else kvs[|kvs| - 1].key
    ensures SharedAt(kvs + [pair], s, |kvs|) == if |kvs| in s then 0 else Shared(lastKey, pair.key)
  {
  }

  lemma Rejoined(lastKey: Bytes, key: Bytes, shared: nat)
    requires shared <= |lastKey| && shared <= |key| && lastKey[..shared] == key[..shared]
    ensures lastKey[..shared] + key[shared..] == key
  {
  }

  lemma NoRestarts(kvs: seq<Pair>, starts: seq<nat>, restarts: seq<nat>, data: Bytes)
    requires Starts(kvs, starts) && RestartsAre(kvs, starts, restarts)
    ensures |starts| == |restarts| && data == data + RestartArray(kvs, starts, 0)
  {
  }

  lemma OneRestart(kvs: seq<Pair>, starts: seq<nat>, restarts: seq<nat>, data: Bytes, i: nat)
    requires Starts(kvs, starts) && RestartsAre(kvs, starts, restarts) && i < |starts| == |restarts|
    ensures data + RestartArray(kvs, starts, i) + Fixed32(restarts[i] % WORD) == data + RestartArray(kvs, starts, i + 1)
  {
    hide Fixed32, Offset;
  }

  class Builder {
    const interval: nat
    var buffer: Bytes
    var restarts: seq<nat>
    var counter: nat
    var finished: bool
    var lastKey: Bytes
    /** The entries added, and which of them are restart points. */
    ghost var kvs: seq<Pair>
    ghost var starts: seq<nat>

    constructor (interval: nat)
      requires interval >= 1
      ensures Valid() && kvs == [] && !finished && this.interval == interval
    {
      this.interval := interval;
      buffer, restarts, counter, finished, lastKey := [], [0], 0, false, [];
      kvs, starts := [], [0];
    }

    ghost predicate Valid()
      reads this
    {
      && interval >= 1 && Starts(kvs, starts) && Spaced(starts, interval)
      && RestartsAre(kvs, starts, restarts)
      && Last(starts) + counter == |kvs| && counter <= interval
      && lastKey == (if kvs == [] then [] else kvs[|kvs| - 1].key)
      && buffer == if finished then Finished(kvs, starts) else Data(kvs, starts, |kvs|)
    }

    method Reset()
      requires Valid()
      modifies this
      ensures Valid() && kvs == [] && !finished
    {
      buffer, restarts, counter, finished, lastKey := [], [0], 0, false, [];
      kvs, starts := [], [0];
    }

    method Add(key: Bytes, value: Bytes)
      requires Valid() && !finished
      modifies this
      ensures Valid() && !finished && kvs == old(kvs) + [Pair(key, value)]
    {
      hide EntryBytes, Data, Starts, Spaced, RestartsAre, Shared, SharedAt, Varint;
      ghost var pair := Pair(key, value);
      StartsGrow(kvs, starts, interval, pair);
      ghost var s := StartsAfter(starts, |kvs|, interval);
      assert Last(starts) <= |kvs|;
      AddedRestarts(kvs, starts, restarts, pair, s);
      AddedData(kvs, starts, pair, s);
      var shared := 0;
      if counter < interval {
        shared := SharedLength(lastKey, key);
      } else {
        restarts := restarts + [|buffer|];
        counter := 0;
      }
      SharedWithLast(kvs, pair, s, lastKey);
      AppendEntry(shared, key, value);
      Rejoined(lastKey, key, shared);
      lastKey := lastKey[..shared] + key[shared..];
      counter := counter + 1;
      kvs, starts := kvs + [pair], s;
    }

    /** "<shared><non_shared><value_size>", then the string delta and the value. */
    method AppendEntry(shared: nat, key: Bytes, value: Bytes)
      requires shared <= |key|
      modifies this`buffer
      ensures buffer == old(buffer) + EntryBytes(shared, Pair(key, value))
    {
      var nonShared := |key| - shared;
      Assembled(buffer, shared, Pair(key, value));
      var a := EncodeVarint32(shared % WORD);
      var b := EncodeVarint32(nonShared % WORD);
      var c := EncodeVarint32(|value| % WORD);
      buffer := buffer + a;
      buffer := buffer + b;
      buffer := buffer + c;
      buffer := buffer + key[shared..];
      buffer := buffer + value;
    }

    method SharedLength(a: Bytes, b: Bytes) returns (shared: nat)
      ensures shared == Shared(a, b)
    {
      var minLength := if |a| < |b| then |a| else |b|;
      shared := 0;
      while shared < minLength && a[shared] == b[shared]
        invariant shared <= minLength && forall i :: 0 <= i < shared ==> a[i] == b[i]
      {
        shared := shared + 1;
      }
      SharedIs(a, b, shared);
    }

    method Finish() returns (block: Bytes)
      requires Valid() && !finished
      modifies this
      ensures Valid() && finished && kvs == old(kvs) && block == buffer
    {
      hide Data, Starts, Spaced, Fixed32, RestartArray, Offset;
      ghost var data := buffer;
      NoRestarts(kvs, starts, restarts, data);
      for i := 0 to |restarts|
        invariant unchanged(this`restarts, this`kvs, this`starts, this`counter, this`lastKey, this`finished)
        invariant RestartsAre(kvs, starts, restarts) && |starts| == |restarts|
        invariant buffer == data + RestartArray(kvs, starts, i)
      {
        OneRestart(kvs, starts, restarts, data, i);
        buffer := buffer + Fixed32(restarts[i] % WORD);
      }
      buffer := buffer + Fixed32(|restarts| % WORD);
      finished := true;
      block := buffer;
    }
  }

  lemma AddedData(kvs: seq<Pair>, starts: seq<nat>, pair: Pair, s: seq<nat>)
    requires s == starts || s == starts + [|kvs|]
    ensures Data(kvs + [pair], s, |kvs| + 1)
            == Data(kvs, starts, |kvs|) + EntryBytes(SharedAt(kvs + [pair], s, |kvs|), pair)
  {
    hide EntryBytes;
    DataStays(kvs, starts, pair, s, |kvs|);
  }

  lemma AddedRestarts(kvs: seq<Pair>, starts: seq<nat>, restarts: seq<nat>, pair: Pair, s: seq<nat>)
    requires RestartsAre(kvs, starts, restarts) && (s == starts || s == starts + [|kvs|])
    ensures RestartsAre(kvs + [pair], s, if s == starts then restarts else restarts + [Offset(kvs, starts, |kvs|)])
  {
    hide Data;
    var after := if s == starts then restarts else restarts + [Offset(kvs, starts, |kvs|)];
    forall j | 0 <= j < |s| ensures s[j] <= |kvs| && after[j] == Offset(kvs + [pair], s, s[j]) {
      DataStays(kvs, starts, pair, s, s[j]);
    }
  }

  lemma Assembled(buffer: Bytes, shared: nat, pair: Pair)
    requires shared <= |pair.key|
    ensures buffer + Varint(shared % WORD) + Varint((|pair.key| - shared) % WORD) + Varint(|pair.value| % WORD)
              + pair.key[shared..] + pair.value
            == buffer + EntryBytes(shared, pair)
  {
  }
}
