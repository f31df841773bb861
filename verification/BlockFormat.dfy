/** The layout of a table block: prefix-compressed entries, then the restart array
    (table/block_builder.cc, table/block.cc:37-77). */
module BlockFormat {
  import opened DbFormat
  import opened Coding

  datatype Pair = Pair(key: Bytes, value: Bytes)

  /** The length of the longest common prefix. */
  function Shared(a: Bytes, b: Bytes): (n: nat)
    ensures n <= |a| && n <= |b| && a[..n] == b[..n]
    ensures n < |a| && n < |b| ==> a[n] != b[n]
  {
    if a == [] || b == [] || a[0] != b[0] then 0
    else
      var n := 1 + Shared(a[1..], b[1..]);
      assert a[..n] == [a[0]] + a[1..][..n - 1];
      assert b[..n] == [b[0]] + b[1..][..n - 1];
      n
  }

  lemma {:induction false} SharedIs(a: Bytes, b: Bytes, n: nat)
    requires n <= |a| && n <= |b| && (forall i :: 0 <= i < n ==> a[i] == b[i])
    requires n < |a| && n < |b| ==> a[n] != b[n]
    ensures Shared(a, b) == n
  {
    if n > 0 { SharedIs(a[1..], b[1..], n - 1); }
  }

  /** `starts` are the indices of the entries that restart the prefix compression. */
  ghost predicate Starts(kvs: seq<Pair>, starts: seq<nat>) {
    && starts != [] && starts[0] == 0
    && (forall j :: 0 < j < |starts| ==> starts[j] < |kvs|)
    && (forall i, j :: 0 <= i < j < |starts| ==> starts[i] < starts[j])
  }

  /** The restart points lie `interval` entries apart. */
  ghost predicate Spaced(starts: seq<nat>, interval: nat) {
    forall j :: 0 < j < |starts| ==> starts[j] == starts[j - 1] + interval
  }

  function SharedAt(kvs: seq<Pair>, starts: seq<nat>, i: nat): (n: nat)
    requires i < |kvs|
    ensures n <= |kvs[i].key|
  {
    if i == 0 || i in starts then 0 else Shared(kvs[i - 1].key, kvs[i].key)
  }

  function EntryBytes(shared: nat, pair: Pair): Bytes
    requires shared <= |pair.key|
  {
    Varint(shared % WORD) + Varint((|pair.key| - shared) % WORD) + Varint(|pair.value| % WORD)
      + (pair.key[shared..] + pair.value)
  }

  function EntryAt(kvs: seq<Pair>, starts: seq<nat>, i: nat): (s: Bytes)
    requires i < |kvs|
    ensures |s| >= 3
  {
    EntryBytes(SharedAt(kvs, starts, i), kvs[i])
  }

  function Data(kvs: seq<Pair>, starts: seq<nat>, n: nat): Bytes
    requires n <= |kvs|
  {
    if n == 0 then [] else Data(kvs, starts, n - 1) + EntryAt(kvs, starts, n - 1)
  }

  /** The offset of entry `i`. */
  function Offset(kvs: seq<Pair>, starts: seq<nat>, i: nat): nat
    requires i <= |kvs|
  {
    |Data(kvs, starts, i)|
  }

  function RestartArray(kvs: seq<Pair>, starts: seq<nat>, n: nat): (s: Bytes)
    requires n <= |starts| && forall j :: 0 <= j < n ==> starts[j] <= |kvs|
    ensures |s| == 4 * n
  {
    if n == 0 then []
    else RestartArray(kvs, starts, n - 1) + Fixed32(Offset(kvs, starts, starts[n - 1]) % WORD)
  }

  ghost function Finished(kvs: seq<Pair>, starts: seq<nat>): Bytes
    requires Starts(kvs, starts)
  {
    Data(kvs, starts, |kvs|) + RestartArray(kvs, starts, |starts|) + Fixed32(|starts| % WORD)
  }

  // --------------------------------------------------------------- offsets

  lemma {:induction false} DataGrows(kvs: seq<Pair>, starts: seq<nat>, i: nat, n: nat)
    requires i <= n <= |kvs|
    ensures Data(kvs, starts, i) <= Data(kvs, starts, n)
    ensures Offset(kvs, starts, i) + 3 * (n - i) <= Offset(kvs, starts, n)
    decreases n
  {
    hide EntryAt;
    if i < n { DataGrows(kvs, starts, i, n - 1); }
  }

  lemma OffsetsAscend(kvs: seq<Pair>, starts: seq<nat>, i: nat, j: nat)
    requires i <= |kvs| && j <= |kvs|
    ensures Offset(kvs, starts, i) < Offset(kvs, starts, j) <==> i < j
    ensures Offset(kvs, starts, i) == Offset(kvs, starts, j) <==> i == j
  {
    hide Data, Offset;
    if i <= j { DataGrows(kvs, starts, i, j); } else { DataGrows(kvs, starts, j, i); }
  }

  /** No key or value is longer than the data. */
  lemma {:induction false} KeysFit(kvs: seq<Pair>, starts: seq<nat>, i: nat)
    requires i < |kvs|
    ensures |kvs[i].key| <= Offset(kvs, starts, i + 1) && |kvs[i].value| <= Offset(kvs, starts, i + 1)
    decreases i
  {
    hide Shared, Varint;
    if i > 0 { KeysFit(kvs, starts, i - 1); }
    assert |EntryAt(kvs, starts, i)| >= |kvs[i].key| - SharedAt(kvs, starts, i) + |kvs[i].value|;
  }

  // --------------------------------------------------------- entry headers

  /** Lengths decoded from an entry's header, and where its key delta begins. */
  datatype Lengths = Lengths(shared: nat, nonShared: nat, valueLength: nat, delta: nat)

  function LengthsAt(s: Bytes, p: nat, limit: nat): (r: Option<Lengths>)
    requires limit <= |s|
    ensures r.Some? ==> p + 3 <= r.value.delta <= limit
  {
    if limit - p < 3 then None
    else if s[p] < 128 && s[p + 1] < 128 && s[p + 2] < 128 then
      Enough(limit, Lengths(s[p], s[p + 1], s[p + 2], p + 3))
    else
      match Varint32At(s, p, limit)
      case None => None
      case Some(a) =>
        match Varint32At(s, a.next, limit)
        case None => None
        case Some(b) =>
          match Varint32At(s, b.next, limit)
          case None => None
          case Some(c) => Enough(limit, Lengths(a.value, b.value, c.value, c.next))
  }

  /** The sum of two 32-bit lengths wraps. */
  function Enough(limit: nat, h: Lengths): (r: Option<Lengths>)
    requires h.delta <= limit
    ensures r.Some? ==> r.value == h
  {
    if (limit - h.delta) % WORD < (h.nonShared + h.valueLength) % WORD then None else Some(h)
  }

  method DecodeEntry(s: Bytes, p: nat, limit: nat) returns (r: Option<Lengths>)
    requires limit <= |s|
    ensures r == LengthsAt(s, p, limit)
  {
    hide Varint32At;
    if limit - p < 3 { return None; }
    var h: Lengths;
    if s[p] < 128 && s[p + 1] < 128 && s[p + 2] < 128 {
      h := Lengths(s[p], s[p + 1], s[p + 2], p + 3);
    } else {
      var a := GetVarint32(s, p, limit);
      if a.None? { return None; }
      var b := GetVarint32(s, a.value.next, limit);
      if b.None? { return None; }
      var c := GetVarint32(s, b.value.next, limit);
      if c.None? { return None; }
      h := Lengths(a.value.value, b.value.value, c.value.value, c.value.next);
    }
    if (limit - h.delta) % WORD < (h.nonShared + h.valueLength) % WORD { return None; }
    r := Some(h);
  }

  /** `x` is what lies in `s` from `p` to `q`. */
  ghost predicate Between(s: Bytes, p: nat, q: nat, x: Bytes) {
    p <= q <= |s| && s[p..q] == x
  }

  lemma BetweenParts(s: Bytes, p: nat, end: nat, x: Bytes, y: Bytes)
    requires Between(s, p, end, x + y)
    ensures Between(s, p, p + |x|, x) && Between(s, p + |x|, end, y)
  {
    assert s[p..p + |x|] == s[p..end][..|x|];
    assert s[p + |x|..end] == s[p..end][|x|..];
  }

  lemma HeaderIsRead(s: Bytes, p: nat, q: nat, t: nat, u: nat, limit: nat, a: Word, b: Word, c: Word)
    requires Between(s, p, q, Varint(a)) && Between(s, q, t, Varint(b)) && Between(s, t, u, Varint(c))
    requires u + b + c <= limit <= |s| < WORD
    ensures LengthsAt(s, p, limit) == Some(Lengths(a, b, c, u))
  {
    hide Varint, Varint32At, LengthsAt;
    if s[p] < 128 && s[p + 1] < 128 && s[p + 2] < 128 {
      OneByteVarint(s, p, a);
      OneByteVarint(s, p + 1, b);
      OneByteVarint(s, p + 2, c);
      ShortHeader(s, p, limit);
    } else {
      Varint32RoundTrip(s, p, limit, a);
      Varint32RoundTrip(s, q, limit, b);
      Varint32RoundTrip(s, t, limit, c);
      LongHeader(s, p, q, t, u, limit, a, b, c);
    }
  }

  lemma ShortHeader(s: Bytes, p: nat, limit: nat)
    requires p + 3 <= limit <= |s| < WORD && s[p] < 128 && s[p + 1] < 128 && s[p + 2] < 128
    requires p + 3 + s[p + 1] as int + s[p + 2] as int <= limit
    ensures LengthsAt(s, p, limit) == Some(Lengths(s[p], s[p + 1], s[p + 2], p + 3))
  {
    hide Varint32At;
  }

  lemma LongHeader(s: Bytes, p: nat, q: nat, t: nat, u: nat, limit: nat, a: Word, b: Word, c: Word)
    requires p + 3 <= u && u + b + c <= limit <= |s| < WORD && (s[p] >= 128 || s[p + 1] >= 128 || s[p + 2] >= 128)
    requires Varint32At(s, p, limit) == Some(Decoded(a, q)) && Varint32At(s, q, limit) == Some(Decoded(b, t))
    requires Varint32At(s, t, limit) == Some(Decoded(c, u))
    ensures LengthsAt(s, p, limit) == Some(Lengths(a, b, c, u))
  {
    hide Varint32At;
  }

  lemma OneByteVarint(s: Bytes, p: nat, v: nat)
    requires p + |Varint(v)| <= |s| && s[p..p + |Varint(v)|] == Varint(v) && s[p] < 128
    ensures v == s[p] as int && |Varint(v)| == 1
  {
    assert s[p] == Varint(v)[0];
  }

  /** The entry at its offset decodes to its lengths, and its delta and value follow. */
  lemma EntryIsRead(s: Bytes, p: nat, limit: nat, shared: nat, pair: Pair)
    requires shared <= |pair.key| < WORD && |pair.value| < WORD
    requires p + |EntryBytes(shared, pair)| <= limit <= |s| < WORD
    requires s[p..p + |EntryBytes(shared, pair)|] == EntryBytes(shared, pair)
    ensures var n, end := |pair.key| - shared, p + |EntryBytes(shared, pair)|;
            var d := end - |pair.value| - n;
            && LengthsAt(s, p, limit) == Some(Lengths(shared, n, |pair.value|, d))
            && s[d..d + n] == pair.key[shared..] && s[d + n..end] == pair.value
  {
    hide Varint, LengthsAt;
    var n, end := |pair.key| - shared, p + |EntryBytes(shared, pair)|;
    var a, b, c := Varint(shared), Varint(n), Varint(|pair.value|);
    BetweenParts(s, p, end, a + b + c, pair.key[shared..] + pair.value);
    var u := p + |a + b + c|;
    BetweenParts(s, p, u, a + b, c);
    BetweenParts(s, p, p + |a + b|, a, b);
    BetweenParts(s, u, end, pair.key[shared..], pair.value);
    HeaderIsRead(s, p, p + |a|, p + |a + b|, u, limit, shared, n, |pair.value|);
  }
}
