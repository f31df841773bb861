/** Iterating over a block and seeking in it by binary search over the restart points
    (table/block.cc:15-290). */
module BlockIter {
  import opened DbFormat
  import opened Coding
  import opened BlockFormat

  // ------------------------------------------------------------ the reader's view

  /** The block has the bytes of these entries and restart points. */
  ghost predicate Laid(data: Bytes, kvs: seq<Pair>, starts: seq<nat>) {
    Starts(kvs, starts) && data == Finished(kvs, starts) && |data| < WORD
  }

  function FixedAt(data: Bytes, p: nat): Word
    requires p + 4 <= |data|
  {
    DecodeFixed32(data[p..p + 4])
  }

  datatype Contents = Malformed | Empty | Restarts(offset: nat, count: nat)

  /** What the constructor finds at the end of a block. */
  function Open(data: Bytes): (c: Contents)
    ensures c.Restarts? ==> c.count > 0 && c.offset + 4 * c.count + 4 == |data|
  {
    if |data| < 4 then Malformed
    else
      var count := FixedAt(data, |data| - 4);
      if count > (|data| - 4) / 4 then Malformed
      else if count == 0 then Empty
      else Restarts(|data| - 4 * (1 + count), count)
  }

  lemma {:induction false} RestartIs(kvs: seq<Pair>, starts: seq<nat>, n: nat, j: nat)
    requires j < n <= |starts| && forall i :: 0 <= i < n ==> starts[i] <= |kvs|
    ensures RestartArray(kvs, starts, n)[4 * j..4 * j + 4] == Fixed32(Offset(kvs, starts, starts[j]) % WORD)
    decreases n
  {
    hide Data, Fixed32;
    var a := RestartArray(kvs, starts, n - 1);
    if j < n - 1 {
      RestartIs(kvs, starts, n - 1, j);
      assert RestartArray(kvs, starts, n)[4 * j..4 * j + 4] == a[4 * j..4 * j + 4];
    }
  }

  lemma LaidOpens(data: Bytes, kvs: seq<Pair>, starts: seq<nat>)
    requires Laid(data, kvs, starts)
    ensures Open(data) == Restarts(Offset(kvs, starts, |kvs|), |starts|)
  {
    hide Data, RestartArray, Fixed32, DecodeFixed32;
    Fixed32RoundTrip(|starts|);
    assert data[|data| - 4..|data|] == Fixed32(|starts|);
  }

  lemma LaidRestart(data: Bytes, kvs: seq<Pair>, starts: seq<nat>, j: nat)
    requires Laid(data, kvs, starts) && j < |starts|
    ensures Offset(kvs, starts, |kvs|) + 4 * j + 4 <= |data| && starts[j] <= |kvs|
    ensures FixedAt(data, Offset(kvs, starts, |kvs|) + 4 * j) == Offset(kvs, starts, starts[j])
  {
    hide Data, RestartArray, Fixed32, DecodeFixed32;
    var end := Offset(kvs, starts, |kvs|);
    var a := RestartArray(kvs, starts, |starts|);
    DataGrows(kvs, starts, starts[j], |kvs|);
    RestartIs(kvs, starts, |starts|, j);
    Fixed32RoundTrip(Offset(kvs, starts, starts[j]));
    assert data[end..end + |a|] == a;
    assert data[end + 4 * j..end + 4 * j + 4] == data[end..end + |a|][4 * j..4 * j + 4];
  }

  /** Entry `i` as the reader finds it. */
  lemma LaidEntry(data: Bytes, kvs: seq<Pair>, starts: seq<nat>, i: nat)
    requires Laid(data, kvs, starts) && i < |kvs|
    ensures var shared, end := SharedAt(kvs, starts, i), Offset(kvs, starts, i + 1);
            var n, size, limit := |kvs[i].key| - shared, |kvs[i].value|, Offset(kvs, starts, |kvs|);
            && Offset(kvs, starts, i) < end <= limit <= |data| && n + size <= end
            && LengthsAt(data, Offset(kvs, starts, i), limit) == Some(Lengths(shared, n, size, end - size - n))
            && data[end - size - n..end - size] == kvs[i].key[shared..] && data[end - size..end] == kvs[i].value
  {
    hide Data, RestartArray, Fixed32, EntryBytes, LengthsAt;
    var p, end, limit := Offset(kvs, starts, i), Offset(kvs, starts, i + 1), Offset(kvs, starts, |kvs|);
    DataGrows(kvs, starts, i, i + 1);
    DataGrows(kvs, starts, i + 1, |kvs|);
    KeysFit(kvs, starts, i);
    EntryLies(data, kvs, starts, i);
    EntryIsRead(data, p, limit, SharedAt(kvs, starts, i), kvs[i]);
  }

  lemma EntryLies(data: Bytes, kvs: seq<Pair>, starts: seq<nat>, i: nat)
    requires Starts(kvs, starts) && data == Finished(kvs, starts) && i < |kvs|
    ensures Offset(kvs, starts, i) + |EntryAt(kvs, starts, i)| == Offset(kvs, starts, i + 1) <= |data|
    ensures data[Offset(kvs, starts, i)..Offset(kvs, starts, i + 1)] == EntryAt(kvs, starts, i)
  {
    hide EntryAt, RestartArray, Fixed32;
    DataGrows(kvs, starts, i + 1, |kvs|);
    var all := Data(kvs, starts, |kvs|);
    assert Data(kvs, starts, i + 1) == Data(kvs, starts, i) + EntryAt(kvs, starts, i);
    assert data[..|all|] == all && all[..Offset(kvs, starts, i + 1)] == Data(kvs, starts, i + 1);
    MiddlePiece(data, Data(kvs, starts, i), EntryAt(kvs, starts, i));
  }

  lemma MiddlePiece(data: Bytes, a: Bytes, b: Bytes)
    requires a + b <= data
    ensures data[|a|..|a + b|] == b
  {
  }

  // ------------------------------------------------------------- comparators

  ghost predicate Transitive(less: (Bytes, Bytes) -> bool) {
    forall a, b, c :: less(a, b) && less(b, c) ==> less(a, c)
  }

  ghost predicate Increasing(less: (Bytes, Bytes) -> bool, kvs: seq<Pair>) {
    forall i, j :: 0 <= i < j < |kvs| ==> less(kvs[i].key, kvs[j].key)
  }

  /** Entry `i` is the first whose key is not before the target; |kvs| when there is none. */
  ghost predicate FirstFrom(less: (Bytes, Bytes) -> bool, kvs: seq<Pair>, target: Bytes, i: nat) {
    && i <= |kvs|
    && (forall j :: 0 <= j < i ==> less(kvs[j].key, target))
    && (i < |kvs| ==> !less(kvs[i].key, target))
  }

  // --------------------------------------------------------------- iterator

  /** What ParseNextKey finds. */
  datatype Parse = End | Damaged | Parsed(key: Bytes, valueOffset: nat, valueLength: nat)

  class Iter {
    const less: (Bytes, Bytes) -> bool
    const data: Bytes
    /** Where the restart array begins, and how many restart points it holds. */
    const restarts: nat
    const numRestarts: nat
    /** The entry at offset `current` is shown; there is none when it is not before `restarts`. */
    var current: nat
    var restartIndex: nat
    var key: Bytes
    var valueOffset: nat
    var valueLength: nat
    var corrupt: bool
    /** The entries of a well-made block, and the index of the one shown. */
    ghost const kvs: seq<Pair>
    ghost const starts: seq<nat>
    ghost var pos: nat

    constructor (less: (Bytes, Bytes) -> bool, data: Bytes, ghost kvs: seq<Pair>, ghost starts: seq<nat>)
      requires Open(data).Restarts?
      ensures Sane() && this.less == less && this.data == data && this.kvs == kvs && this.starts == starts
      ensures Laid(data, kvs, starts) ==> At(|kvs|)
      ensures !corrupt
    {
      this.less, this.data, this.kvs, this.starts := less, data, kvs, starts;
      restarts, numRestarts := Open(data).offset, Open(data).count;
      current, restartIndex := Open(data).offset, Open(data).count;
      key, valueOffset, valueLength, corrupt := [], 0, 0, false;
      pos := |kvs|;
      new;
      if Laid(data, kvs, starts) { LaidOpens(data, kvs, starts); }
    }

    /** What holds for any block, however damaged. */
    ghost predicate Sane()
      reads this
    {
      && numRestarts > 0 && restarts + 4 * numRestarts + 4 == |data|
      && (current < restarts ==> restartIndex < numRestarts)
    }

    ghost predicate WellMade() {
      Laid(data, kvs, starts) && restarts == Offset(kvs, starts, |kvs|) && numRestarts == |starts|
    }

    ghost predicate Shows(i: nat)
      requires WellMade() && i < |kvs|
      reads this
    {
      && current == Offset(kvs, starts, i)
      && key == kvs[i].key
      && valueOffset + valueLength == Offset(kvs, starts, i + 1) <= |data|
      && data[valueOffset..valueOffset + valueLength] == kvs[i].value
      && restartIndex < |starts| && starts[restartIndex] <= i
      && (restartIndex + 1 < |starts| ==> i <= starts[restartIndex + 1])
    }

    /** In a well-made block: entry `i` is shown, or none when there is no such entry. */
    ghost predicate At(i: nat)
      reads this
    {
      && WellMade() && pos == i <= |kvs|
      && if i < |kvs| then Shows(i) else current == restarts
    }

    predicate Valid()
      reads this
    {
      current < restarts
    }

    function Value(): Bytes
      requires valueOffset + valueLength <= |data|
      reads this
    {
      data[valueOffset..valueOffset + valueLength]
    }

    lemma ValidIfShown()
      requires At(pos)
      ensures Valid() <==> pos < |kvs|
    {
      if pos < |kvs| { OffsetsAscend(kvs, starts, pos, |kvs|); }
    }

    /** In a well-made block: entry `i` comes next, and the key so far has its shared prefix. */
    ghost predicate Ready(i: nat)
      reads this
    {
      && WellMade() && i <= |kvs|
      && valueOffset + valueLength == Offset(kvs, starts, i)
      && (i < |kvs| ==>
         SharedAt(kvs, starts, i) <= |key|
         && key[..SharedAt(kvs, starts, i)] == kvs[i].key[..SharedAt(kvs, starts, i)])
      && restartIndex < |starts| && starts[restartIndex] <= i
    }

    function NextEntryOffset(): nat
      reads this
    {
      valueOffset + valueLength
    }

    method GetRestartPoint(index: nat) returns (offset: nat)
      requires Sane() && index < numRestarts
      ensures WellMade() ==> offset == Offset(kvs, starts, starts[index])
    {
      offset := FixedAt(data, restarts + 4 * index);
      if WellMade() { LaidRestart(data, kvs, starts, index); }
    }

    method SeekToRestartPoint(index: nat)
      requires Sane() && index < numRestarts
      modifies this`key, this`restartIndex, this`valueOffset, this`valueLength
      ensures Sane() && restartIndex == index
      ensures WellMade() ==> Ready(starts[index])
    {
      key := [];
      restartIndex := index;
      var offset := GetRestartPoint(index);
      valueOffset, valueLength := offset, 0;
    }

    method CorruptionError()
      requires Sane()
      modifies this
      ensures Sane() && corrupt && !Valid()
    {
      current, restartIndex := restarts, numRestarts;
      corrupt := true;
      key, valueOffset, valueLength := [], 0, 0;
    }

    /** What parsing at `offset` gives in any block, the key so far being `was`. */
    function ParseAt(offset: nat, was: Bytes): (r: Parse)
      requires restarts <= |data|
      ensures r.Parsed? ==> offset < r.valueOffset && offset < restarts
    {
      if offset >= restarts then End
      else
        var h := LengthsAt(data, offset, restarts);
        if h.None? || |was| < h.value.shared then Damaged
        else
          Parsed(was[..h.value.shared] + Clip(h.value.delta, h.value.nonShared),
                h.value.delta + h.value.nonShared, h.value.valueLength)
    }

    /** In any block the entry is the one that lies at the end of the last value; in a well-made one
        it is entry `i`, which should come next, and nothing is found damaged. */
    method ParseNextKey(ghost i: nat) returns (ok: bool)
      requires Sane() && restartIndex < numRestarts
      modifies this
      ensures Sane() && ok == Valid()
      ensures ok ==> current == old(NextEntryOffset()) < NextEntryOffset() && old(restartIndex) <= restartIndex
      ensures match old(ParseAt(NextEntryOffset(), key))
              case End => !ok && corrupt == old(corrupt)
              case Damaged => !ok && corrupt
              case Parsed(k, offset, length) =>
                ok && key == k && valueOffset == offset && valueLength == length && corrupt == old(corrupt)
      ensures old(Ready(i)) ==> At(i) && (ok <==> i < |kvs|) && corrupt == old(corrupt)
    {
      hide Laid, Offset, LengthsAt, FirstFrom, Open, SharedAt;
      ghost var ready := Ready(i);
      current := NextEntryOffset();
      if current >= restarts {
        if ready && i < |kvs| { OffsetsAscend(kvs, starts, i, |kvs|); }
        current, restartIndex := restarts, numRestarts;
        pos := |kvs|;
        return false;
      }
      if ready { NextEntry(data, kvs, starts, i, current, key); }
      var h := DecodeEntry(data, current, restarts);
      if h.None? || |key| < h.value.shared {
        CorruptionError();
        return false;
      }
      key := key[..h.value.shared];
      key := key + Clip(h.value.delta, h.value.nonShared);
      valueOffset, valueLength := h.value.delta + h.value.nonShared, h.value.valueLength;
      SkipRestarts(i);
      pos := i;
      ok := true;
    }

    lemma ReadyAfter()
      requires At(pos) && pos < |kvs|
      ensures Ready(pos + 1)
    {
      hide Laid;
      if pos + 1 < |kvs| {
        var n := SharedAt(kvs, starts, pos + 1);
        assert n == 0 || n == Shared(kvs[pos].key, kvs[pos + 1].key);
      }
    }

    method Next()
      requires Sane() && Valid()
      modifies this
      ensures Sane() && (old(corrupt) ==> corrupt)
      ensures old(At(pos)) ==> At(old(pos) + 1) && corrupt == old(corrupt)
    {
      hide Laid, Offset, SharedAt, ParseAt;
      ghost var good := At(pos);
      if good {
        ValidIfShown();
        ReadyAfter();
      }
      var _ := ParseNextKey(pos + 1);
    }

    method Prev()
      requires Sane() && Valid()
      modifies this
      ensures Sane() && (old(corrupt) ==> corrupt)
      ensures old(At(pos)) ==> At(if old(pos) == 0 then |kvs| else old(pos) - 1) && corrupt == old(corrupt)
    {
      hide Laid, Offset, SharedAt, ParseAt;
      ghost var good, p := At(pos), pos;
      if good { ValidIfShown(); }
      var original := current;
      while true
        invariant Sane() && current == original && restartIndex < numRestarts
        invariant corrupt == old(corrupt)
        invariant good ==> WellMade() && p < |kvs| && current == Offset(kvs, starts, p) && starts[restartIndex] <= p
        decreases restartIndex
      {
        var point := GetRestartPoint(restartIndex);
        if good {
          StartBefore(restartIndex);
          OffsetsAscend(kvs, starts, starts[restartIndex], p);
        }
        if point < original { break; }
        if restartIndex == 0 {
          current, restartIndex := restarts, numRestarts;
          pos := |kvs|;
          return;
        }
        restartIndex := restartIndex - 1;
      }
      ghost var i: nat := if good then starts[restartIndex] else 0;
      SeekToRestartPoint(restartIndex);
      while true
        invariant Sane() && restartIndex < numRestarts && corrupt == old(corrupt)
        invariant good ==> Ready(i) && i < p && original == Offset(kvs, starts, p)
        decreases if NextEntryOffset() <= restarts then restarts - NextEntryOffset() + 1 else 0
      {
        var ok := ParseNextKey(i);
        if good { OffsetsAscend(kvs, starts, i + 1, p); }
        if !ok || NextEntryOffset() >= original { break; }
        if good { ReadyAfter(); }
        i := i + 1;
      }
    }

    method SeekToFirst()
      requires Sane()
      modifies this
      ensures Sane() && (old(corrupt) ==> corrupt)
      ensures WellMade() ==> At(0) && corrupt == old(corrupt)
    {
      hide Laid, Offset, SharedAt, ParseAt;
      SeekToRestartPoint(0);
      if WellMade() { FirstStart(); }
      var _ := ParseNextKey(0);
    }

    lemma FirstStart()
      requires WellMade()
      ensures starts[0] == 0 && forall j :: 0 <= j < |starts| ==> starts[j] <= |kvs|
    {
    }

    method SeekToLast()
      requires Sane()
      modifies this
      ensures Sane() && (old(corrupt) ==> corrupt)
      ensures WellMade() ==> At(if kvs == [] then 0 else |kvs| - 1) && corrupt == old(corrupt)
    {
      hide Laid, Offset, SharedAt, ParseAt;
      ghost var good := WellMade();
      if good { FirstStart(); LastStart(); }
      SeekToRestartPoint(numRestarts - 1);
      ghost var i: nat := if good then starts[numRestarts - 1] else 0;
      while true
        invariant Sane() && restartIndex < numRestarts && corrupt == old(corrupt)
        invariant good ==> Ready(i) && (i < |kvs| || kvs == [])
        decreases if NextEntryOffset() <= restarts then restarts - NextEntryOffset() + 1 else 0
      {
        var ok := ParseNextKey(i);
        if good && i < |kvs| { OffsetsAscend(kvs, starts, i + 1, |kvs|); }
        if !ok || NextEntryOffset() >= restarts { break; }
        if good { ReadyAfter(); }
        i := i + 1;
      }
    }

    lemma StartBefore(j: nat)
      requires WellMade() && j < |starts|
      ensures if j == 0 then starts[j] == 0 else starts[j - 1] < starts[j]
    {
    }

    lemma LastStart()
      requires WellMade()
      ensures starts[|starts| - 1] < |kvs| || kvs == []
    {
    }

    /** Restart point `j` begins before the target. */
    ghost predicate Before(j: nat, target: Bytes)
      requires WellMade() && j < |starts|
    {
      j == 0 || (starts[j] < |kvs| && less(kvs[starts[j]].key, target))
    }

    method Seek(target: Bytes)
      requires Sane()
      modifies this
      ensures Sane() && (old(corrupt) ==> corrupt)
      ensures WellMade() && Transitive(less) && Increasing(less, kvs) ==>
                (exists i :: FirstFrom(less, kvs, target, i) && At(i)) && corrupt == old(corrupt)
    {
      hide Laid, Offset, SharedAt, FirstFrom, LengthsAt, Transitive, Increasing, ParseAt;
      ghost var good := WellMade() && Transitive(less) && Increasing(less, kvs);
      var left: nat, right: nat := 0, numRestarts - 1;
      while left < right
        invariant Sane() && corrupt == old(corrupt) && left <= right < numRestarts
        invariant good ==> Before(left, target)
        decreases right - left
      {
        var mid := (left + right + 1) / 2;
        var offset := GetRestartPoint(mid);
        if good { RestartKey(mid); }
        var h := DecodeEntry(data, offset, restarts);
        if h.None? || h.value.shared != 0 {
          CorruptionError();
          return;
        }
        var midKey := Clip(h.value.delta, h.value.nonShared);
        if less(midKey, target) {
          left := mid;
        } else {
          right := mid - 1;
        }
      }
      SeekToRestartPoint(left);
      ghost var i: nat := if good then starts[left] else 0;
      if good { StartsBefore(left, target); }
      while true
        invariant Sane() && restartIndex < numRestarts && corrupt == old(corrupt)
        invariant good ==> Ready(i) && (forall j :: 0 <= j < i ==> less(kvs[j].key, target))
        decreases if NextEntryOffset() <= restarts then restarts - NextEntryOffset() + 1 else 0
      {
        var ok := ParseNextKey(i);
        if good { Found(i, ok, target); }
        if !ok || !less(key, target) { break; }
        if good { ReadyAfter(); }
        i := i + 1;
      }
    }

    lemma Found(i: nat, ok: bool, target: Bytes)
      requires At(i) && (ok <==> i < |kvs|) && forall j :: 0 <= j < i ==> less(kvs[j].key, target)
      ensures !ok || !less(key, target) ==> FirstFrom(less, kvs, target, i)
    {
      hide Laid;
    }

    /** The first entry of a restart block is stored with its whole key. */
    lemma RestartKey(j: nat)
      requires WellMade() && 0 < j < |starts|
      ensures starts[j] < |kvs| && restarts <= |data|
      ensures var h := LengthsAt(data, Offset(kvs, starts, starts[j]), restarts);
              h.Some? && h.value.shared == 0 && h.value.delta + h.value.nonShared <= |data|
              && data[h.value.delta..h.value.delta + h.value.nonShared] == kvs[starts[j]].key
    {
      LaidEntry(data, kvs, starts, starts[j]);
    }

    /** If a restart point begins before the target, so does every entry before it. */
    lemma StartsBefore(j: nat, target: Bytes)
      requires WellMade() && Transitive(less) && Increasing(less, kvs) && j < |starts| && Before(j, target)
      ensures starts[j] <= |kvs| && forall i :: 0 <= i < starts[j] ==> less(kvs[i].key, target)
    {
      if j == 0 {
      } else {
        forall i | 0 <= i < starts[j] ensures less(kvs[i].key, target) {
          assert less(kvs[i].key, kvs[starts[j]].key);
        }
      }
    }

    /** Lengths whose 32-bit sum wraps could reach past a damaged block. */
    function Clip(p: nat, n: nat): Bytes
      requires p <= |data|
    {
      data[p..if p + n <= |data| then p + n else |data|]
    }

    method SkipRestarts(ghost i: nat)
      requires Sane() && Valid()
      modifies this`restartIndex
      ensures Sane() && old(restartIndex) <= restartIndex
      ensures WellMade() && i < |kvs| && current == Offset(kvs, starts, i) && starts[old(restartIndex)] <= i
              ==> starts[restartIndex] <= i && (restartIndex + 1 < |starts| ==> i <= starts[restartIndex + 1])
    {
      ghost var ready := WellMade() && i < |kvs| && current == Offset(kvs, starts, i) && starts[restartIndex] <= i;
      while restartIndex + 1 < numRestarts
        invariant old(restartIndex) <= restartIndex < numRestarts
        invariant ready ==> starts[restartIndex] <= i
      {
        var point := GetRestartPoint(restartIndex + 1);
        if ready { OffsetsAscend(kvs, starts, starts[restartIndex + 1], i); }
        if point >= current { break; }
        restartIndex := restartIndex + 1;
      }
    }
  }

  lemma NextEntry(data: Bytes, kvs: seq<Pair>, starts: seq<nat>, i: nat, current: nat, key: Bytes)
    requires Laid(data, kvs, starts) && i <= |kvs| && current == Offset(kvs, starts, i) < Offset(kvs, starts, |kvs|)
    requires i < |kvs| ==> SharedAt(kvs, starts, i) <= |key|
    requires i < |kvs| ==> key[..SharedAt(kvs, starts, i)] == kvs[i].key[..SharedAt(kvs, starts, i)]
    ensures i < |kvs| && Offset(kvs, starts, |kvs|) <= |data|
    ensures var h := LengthsAt(data, current, Offset(kvs, starts, |kvs|));
            && h.Some? && h.value.shared <= |key|
            && h.value.delta + h.value.nonShared + h.value.valueLength == Offset(kvs, starts, i + 1) <= |data|
            && key[..h.value.shared] + data[h.value.delta..h.value.delta + h.value.nonShared] == kvs[i].key
            && data[h.value.delta + h.value.nonShared..Offset(kvs, starts, i + 1)] == kvs[i].value
  {
    hide Laid, LengthsAt, Data;
    LaidEntry(data, kvs, starts, i);
    var shared := SharedAt(kvs, starts, i);
    assert kvs[i].key[..shared] + kvs[i].key[shared..] == kvs[i].key;
  }
}
