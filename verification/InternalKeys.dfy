/** Internal keys as bytes, their order, and separators between them
    (db/dbformat.h, db/dbformat.cc, util/comparator.cc). */
module InternalKeys {
  import opened DbFormat
  import opened Coding

  datatype ParsedKey = ParsedKey(user: Bytes, sequence: nat, kind: ValueType)

  /** The assertion of packing. */
  predicate InRange(k: ParsedKey) {
    k.sequence <= MAX_SEQUENCE
  }

  function PackSequenceAndType(sequence: nat, kind: ValueType): Dword
    requires sequence <= MAX_SEQUENCE
  {
    sequence * 256 + TypeCode(kind)
  }

  /** AppendInternalKey */
  function Appended(k: ParsedKey): (s: Bytes)
    requires InRange(k)
    ensures |s| == |k.user| + 8
  {
    k.user + Fixed64(PackSequenceAndType(k.sequence, k.kind))
  }

  /** ExtractUserKey */
  function UserPart(s: Bytes): Bytes
    requires |s| >= 8
  {
    s[..|s| - 8]
  }

  function TagPart(s: Bytes): Dword
    requires |s| >= 8
  {
    DecodeFixed64(s[|s| - 8..])
  }

  function Parsed(s: Bytes): Option<ParsedKey> {
    if |s| < 8 then None
    else
      var c := TagPart(s) % 256;
      if c > 1 then None
      else Some(ParsedKey(UserPart(s), TagPart(s) / 256, if c == 1 then TypeValue else TypeDeletion))
  }

  lemma Fixed32OfDecoded(s: Bytes)
    requires |s| == 4
    ensures Fixed32(DecodeFixed32(s)) == s
  {
    var v: nat := DecodeFixed32(s);
    var a: nat, b: nat, c: nat, d: nat := s[0], s[1], s[2], s[3];
    assert v % 0x100 == a && v / 0x100 == b + c * 0x100 + d * 0x1_0000;
    assert v / 0x100 % 0x100 == b && v / 0x1_0000 == c + d * 0x100;
    assert v / 0x1_0000 % 0x100 == c && v / 0x100_0000 == d;
  }

  lemma Fixed64OfDecoded(s: Bytes)
    requires |s| == 8
    ensures Fixed64(DecodeFixed64(s)) == s
  {
    hide Fixed32, DecodeFixed32;
    var low: nat, high: nat := DecodeFixed32(s[..4]), DecodeFixed32(s[4..]);
    assert (low + high * WORD) % WORD == low && (low + high * WORD) / WORD == high;
    Fixed32OfDecoded(s[..4]);
    Fixed32OfDecoded(s[4..]);
    assert s[..4] + s[4..] == s;
  }

  lemma Parts(user: Bytes, tag: Dword)
    ensures var s := user + Fixed64(tag);
            |s| == |user| + 8 && UserPart(s) == user && TagPart(s) == tag
  {
    hide Fixed64, DecodeFixed64;
    Fixed64RoundTrip(tag);
    var s := user + Fixed64(tag);
    assert s[..|user|] == user && s[|user|..] == Fixed64(tag);
  }

  /** A byte string parses exactly when it is what appending the parsed key gives. */
  lemma ParsedIsAppended(s: Bytes, k: ParsedKey)
    ensures Parsed(s) == Some(k) <==> InRange(k) && s == Appended(k)
  {
    hide Fixed64, DecodeFixed64;
    if InRange(k) {
      var tag: nat := PackSequenceAndType(k.sequence, k.kind);
      Parts(k.user, tag);
      assert tag % 256 == TypeCode(k.kind) && tag / 256 == k.sequence;
    }
    if Parsed(s) == Some(k) {
      Fixed64OfDecoded(s[|s| - 8..]);
      var tag: nat := TagPart(s);
      assert tag / 256 * 256 + tag % 256 == tag;
      assert tag / 256 <= MAX_SEQUENCE;
      assert UserPart(s) + s[|s| - 8..] == s;
    }
  }

  // ---------------------------------------------------------------- the order

  /** A user comparator. */
  type Compare = (Bytes, Bytes) -> int

  /** A three-way comparison by an order. */
  ghost predicate IsOrder(cmp: Compare) {
    && (forall a, b :: cmp(a, b) < 0 <==> cmp(b, a) > 0)
    && (forall a, b, c :: cmp(a, b) <= 0 && cmp(b, c) <= 0 ==> cmp(a, c) <= 0)
    && (forall a, b, c :: cmp(a, b) < 0 && cmp(b, c) <= 0 ==> cmp(a, c) < 0)
    && (forall a, b, c :: cmp(a, b) <= 0 && cmp(b, c) < 0 ==> cmp(a, c) < 0)
  }

  /** InternalKeyComparator::Compare */
  function CompareKeys(cmp: Compare, a: Bytes, b: Bytes): int
    requires |a| >= 8 && |b| >= 8
  {
    var r := cmp(UserPart(a), UserPart(b));
    if r != 0 then r
    else if TagPart(a) > TagPart(b) then -1
    else if TagPart(a) < TagPart(b) then 1
    else 0
  }

  /** By user key, then the newer first, then values before deletions. */
  lemma CompareIs(cmp: Compare, x: ParsedKey, y: ParsedKey)
    requires InRange(x) && InRange(y)
    ensures CompareKeys(cmp, Appended(x), Appended(y)) < 0
        <==> cmp(x.user, y.user) < 0
             || (cmp(x.user, y.user) == 0
                 && (x.sequence > y.sequence || (x.sequence == y.sequence && x.kind.TypeValue?
                    && y.kind.TypeDeletion?)))
  {
    hide Fixed64, DecodeFixed64, UserPart, TagPart;
    Parts(x.user, PackSequenceAndType(x.sequence, x.kind));
    Parts(y.user, PackSequenceAndType(y.sequence, y.kind));
  }

  /** With user keys ranked by the comparator, this is the order of the rest of the model. */
  lemma RanksAgree(cmp: Compare, rank: Bytes -> UserKey, x: ParsedKey, y: ParsedKey)
    requires InRange(x) && InRange(y)
    requires cmp(x.user, y.user) < 0 <==> rank(x.user) < rank(y.user)
    requires cmp(x.user, y.user) == 0 <==> rank(x.user) == rank(y.user)
    ensures CompareKeys(cmp, Appended(x), Appended(y)) < 0
        <==> Less(InternalKey(rank(x.user), x.sequence, x.kind), InternalKey(rank(y.user), y.sequence, y.kind))
  {
    hide CompareKeys, Appended;
    CompareIs(cmp, x, y);
  }

  /** Seeking to a user key at a snapshot passes over exactly the smaller user keys, and the
      entries of this one that are newer than the snapshot. */
  lemma SeekKeySplits(cmp: Compare, user: Bytes, snapshot: nat, k: ParsedKey)
    requires InRange(k) && snapshot <= MAX_SEQUENCE && (cmp(k.user, user) < 0 <==> cmp(user, k.user) > 0)
    ensures CompareKeys(cmp, Appended(ParsedKey(user, snapshot, TypeValue)), Appended(k)) <= 0
        <==> !(cmp(k.user, user) < 0) && (cmp(user, k.user) == 0 ==> k.sequence <= snapshot)
  {
    hide Fixed64, DecodeFixed64, UserPart, TagPart;
    Parts(user, PackSequenceAndType(snapshot, TypeValue));
    Parts(k.user, PackSequenceAndType(k.sequence, k.kind));
  }

  /** LookupKey: the length of the seek key, then the seek key. */
  method LookupKey(user: Bytes, snapshot: nat) returns (memtableKey: Bytes, kstart: nat)
    requires snapshot <= MAX_SEQUENCE && |user| + 8 < WORD
    ensures memtableKey == LengthPrefixed(Appended(ParsedKey(user, snapshot, TypeValue)))
    ensures kstart <= |memtableKey| && memtableKey[kstart..] == Appended(ParsedKey(user, snapshot, TypeValue))
  {
    hide Varint, Fixed64;
    var dst := EncodeVarint32(|user| + 8);
    kstart := |dst|;
    memtableKey := dst + user;
    memtableKey := memtableKey + Fixed64(PackSequenceAndType(snapshot, TypeValue));
    assert memtableKey == dst + Appended(ParsedKey(user, snapshot, TypeValue));
  }

  // ---------------------------------------------------- bytewise comparison

  /** Slice::compare: as unsigned bytes, a proper prefix first. */
  function Bytewise(a: Bytes, b: Bytes): int {
    if a == [] then (if b == [] then 0 else -1)
    else if b == [] then 1
    else if a[0] != b[0] then (if a[0] < b[0] then -1 else 1)
    else Bytewise(a[1..], b[1..])
  }

  /** The first difference decides. */
  lemma {:induction false} BytewiseIs(a: Bytes, b: Bytes, n: nat)
    requires n <= |a| && n <= |b| && a[..n] == b[..n]
    requires n < |a| && n < |b| ==> a[n] != b[n]
    ensures Bytewise(a, b) == if n < |a| && n < |b| then (if a[n] < b[n] then -1 else 1)
                              else if n < |a| then 1 else if n < |b| then -1 else 0
    decreases n
  {
    if n > 0 {
      assert a[0] == a[..n][0] == b[..n][0] == b[0];
      assert a[1..][..n - 1] == a[..n][1..] == b[..n][1..] == b[1..][..n - 1];
      BytewiseIs(a[1..], b[1..], n - 1);
    }
  }

  lemma {:induction false} BytewiseFlips(a: Bytes, b: Bytes)
    ensures Bytewise(a, b) == -Bytewise(b, a)
  {
    if a != [] && b != [] && a[0] == b[0] { BytewiseFlips(a[1..], b[1..]); }
  }

  lemma {:induction false} BytewiseFollows(a: Bytes, b: Bytes, c: Bytes)
    requires Bytewise(a, b) <= 0 && Bytewise(b, c) <= 0
    ensures Bytewise(a, c) <= 0 && (Bytewise(a, b) < 0 || Bytewise(b, c) < 0 ==> Bytewise(a, c) < 0)
  {
    if a != [] && b != [] && c != [] && a[0] == b[0] == c[0] { BytewiseFollows(a[1..], b[1..], c[1..]); }
  }

  lemma BytewiseIsOrder()
    ensures IsOrder(Bytewise)
  {
    hide Bytewise;
    forall a, b ensures Bytewise(a, b) < 0 <==> Bytewise(b, a) > 0 {
      BytewiseFlips(a, b);
    }
    forall a, b, c | Bytewise(a, b) <= 0 && Bytewise(b, c) <= 0
      ensures Bytewise(a, c) <= 0 && (Bytewise(a, b) < 0 || Bytewise(b, c) < 0 ==> Bytewise(a, c) < 0)
    {
      BytewiseFollows(a, b, c);
    }
  }

  // --------------------------------------------------------------- separators

  /** What Comparator asks of FindShortestSeparator: a start before the limit may only become a key
      from there to before the limit, and any other start stays as it is. */
  ghost predicate Separates(cmp: Compare, separate: (Bytes, Bytes) -> Bytes) {
    && (forall a, b :: cmp(a, b) < 0 ==> cmp(a, separate(a, b)) <= 0 && cmp(separate(a, b), b) < 0)
    && forall a, b :: cmp(a, b) >= 0 ==> separate(a, b) == a
  }

  /** The bytewise separator: after the common bytes, one more than the next byte if that is still
      below the limit's. */
  function BytewiseSeparator(start: Bytes, limit: Bytes): Bytes {
    if start == [] || limit == [] then start
    else if start[0] == limit[0] then [start[0]] + BytewiseSeparator(start[1..], limit[1..])
    else if start[0] < 0xff && start[0] + 1 < limit[0] then [start[0] + 1]
    else start
  }

  lemma SeparatorStep(start: Bytes, limit: Bytes)
    requires start != [] && limit != [] && start[0] == limit[0]
    ensures BytewiseSeparator(start, limit) == [start[0]] + BytewiseSeparator(start[1..], limit[1..])
  {
  }

  lemma {:induction false} SeparatorIs(start: Bytes, limit: Bytes, n: nat)
    requires n <= |start| && n <= |limit| && start[..n] == limit[..n]
    ensures BytewiseSeparator(start, limit) == start[..n] + BytewiseSeparator(start[n..], limit[n..])
    decreases n
  {
    hide BytewiseSeparator;
    if n > 0 {
      var m := n - 1;
      assert start[..m] == start[..n][..m] == limit[..n][..m] == limit[..m];
      SeparatorIs(start, limit, m);
      assert start[m] == start[..n][m] == limit[..n][m] == limit[m];
      SeparatorStep(start[m..], limit[m..]);
      assert start[m..][1..] == start[n..] && limit[m..][1..] == limit[n..];
      assert start[..n] == start[..m] + [start[m]];
    } else {
      assert start[0..] == start && limit[0..] == limit;
    }
  }

  lemma {:induction false} SeparatorLies(start: Bytes, limit: Bytes)
    ensures var r := BytewiseSeparator(start, limit);
            && (Bytewise(start, limit) < 0 ==> Bytewise(start, r) <= 0 && Bytewise(r, limit) < 0)
            && (Bytewise(start, limit) >= 0 ==> r == start)
  {
    if start != [] && limit != [] && start[0] == limit[0] {
      SeparatorLies(start[1..], limit[1..]);
      assert start == [start[0]] + start[1..];
      var rest := BytewiseSeparator(start[1..], limit[1..]);
      assert ([start[0]] + rest)[1..] == rest;
    } else {
      BytewiseIs(start, start, |start|);
    }
  }

  /** The bytewise comparator keeps to it. */
  lemma BytewiseSeparates()
    ensures Separates(Bytewise, BytewiseSeparator)
  {
    hide Bytewise, BytewiseSeparator;
    forall a, b ensures Bytewise(a, b) < 0 ==>
                          Bytewise(a, BytewiseSeparator(a, b)) <= 0 && Bytewise(BytewiseSeparator(a, b), b) < 0
    {
      SeparatorLies(a, b);
    }
    forall a, b ensures Bytewise(a, b) >= 0 ==> BytewiseSeparator(a, b) == a { SeparatorLies(a, b); }
  }

  lemma SeparatorHead(a: Bytes, b: Bytes)
    ensures a == [] || b == [] ==> BytewiseSeparator(a, b) == a
    ensures a != [] && b != [] && a[0] != b[0] ==>
              BytewiseSeparator(a, b) == if a[0] < 0xff && a[0] + 1 < b[0] then [a[0] + 1] else a
  {
  }

  /** BytewiseComparatorImpl::FindShortestSeparator: no longer than `start`, and between the
      two where there is a between. */
  method FindShortestSeparator(start: Bytes, limit: Bytes) returns (r: Bytes)
    ensures r == BytewiseSeparator(start, limit)
    ensures |r| <= |start| && (r == start || Bytewise(start, r) < 0)
    ensures start <= limit || limit <= start ==> r == start
    ensures Bytewise(start, limit) < 0 ==> Bytewise(r, limit) < 0
  {
    hide Bytewise, BytewiseSeparator;
    r := start;
    var minLength := if |start| < |limit| then |start| else |limit|;
    var diff := 0;
    while diff < minLength && start[diff] == limit[diff]
      invariant diff <= minLength && start[..diff] == limit[..diff]
    {
      diff := diff + 1;
    }
    SeparatorIs(start, limit, diff);
    SeparatorHead(start[diff..], limit[diff..]);
    assert start == start[..diff] + start[diff..];
    if diff < minLength {
      if start[diff] < 0xff && start[diff] + 1 < limit[diff] {
        r := start[..diff] + [start[diff] + 1];
        assert r[..diff] == start[..diff];
        BytewiseIs(start, r, diff);
        BytewiseIs(r, limit, diff);
      }
    }
  }

  /** BytewiseComparatorImpl::FindShortSuccessor */
  method FindShortSuccessor(key: Bytes) returns (r: Bytes)
    ensures |r| <= |key| && (r == key || Bytewise(key, r) < 0)
  {
    hide Bytewise;
    for i := 0 to |key| {
      if key[i] != 0xff {
        r := key[..i] + [key[i] + 1];
        assert r[..i] == key[..i];
        BytewiseIs(key, r, i);
        return;
      }
    }
    r := key;
  }

  /** A shorter user key with the earliest tag lies between what its user key lies between. */
  lemma ShortenedIs(user: Bytes)
    ensures var s := user + Fixed64(PackSequenceAndType(MAX_SEQUENCE, TypeValue));
            |s| == |user| + 8 && UserPart(s) == user
  {
    hide Fixed64, UserPart, TagPart;
    Parts(user, PackSequenceAndType(MAX_SEQUENCE, TypeValue));
  }

  /** InternalKeyComparator::FindShortestSeparator, over any user comparator: an index key that is
      not before `start`, before `limit`, and no longer than `start`. */
  method ShortestInternalSeparator(cmp: Compare, separate: (Bytes, Bytes) -> Bytes, start: Bytes, limit: Bytes)
    returns (r: Bytes)
    requires IsOrder(cmp) && Separates(cmp, separate)
    requires |start| >= 8 && |limit| >= 8 && CompareKeys(cmp, start, limit) < 0
    ensures 8 <= |r| <= |start|
    ensures CompareKeys(cmp, start, r) <= 0 && CompareKeys(cmp, r, limit) < 0
  {
    hide Fixed64, DecodeFixed64;
    r := start;
    var userStart, userLimit := UserPart(start), UserPart(limit);
    var tmp := separate(userStart, userLimit);
    assert cmp(userStart, userStart) == 0;
    if |tmp| < |userStart| && cmp(userStart, tmp) < 0 {
      ShortenedIs(tmp);
      tmp := tmp + Fixed64(PackSequenceAndType(MAX_SEQUENCE, TypeValue));
      assert CompareKeys(cmp, start, tmp) < 0;
      assert CompareKeys(cmp, tmp, limit) < 0;
      r := tmp;
    }
  }

  /** InternalKeyComparator::FindShortSuccessor, over any user comparator and any successor of its. */
  method ShortInternalSuccessor(cmp: Compare, successor: Bytes -> Bytes, key: Bytes) returns (r: Bytes)
    requires IsOrder(cmp) && |key| >= 8
    ensures 8 <= |r| <= |key| && CompareKeys(cmp, key, r) <= 0
  {
    hide Fixed64, DecodeFixed64;
    r := key;
    var userKey := UserPart(key);
    var tmp := successor(userKey);
    assert cmp(userKey, userKey) == 0;
    if |tmp| < |userKey| && cmp(userKey, tmp) < 0 {
      ShortenedIs(tmp);
      tmp := tmp + Fixed64(PackSequenceAndType(MAX_SEQUENCE, TypeValue));
      assert CompareKeys(cmp, key, tmp) < 0;
      r := tmp;
    }
  }
}
