/** Filter blocks: one filter for the keys of every 2 KiB of file offsets
    (table/filter_block.cc). */
module FilterBlocks {
  import opened DbFormat
  import opened Coding

  const FILTER_BASE_LG: nat := 11
  const FILTER_BASE: nat := 2048

  /** A filter policy; a filter is appended to what is there already. */
  datatype Policy = Policy(create: seq<Bytes> -> Bytes, mayMatch: (Bytes, Bytes) -> bool)

  /** What is promised of a policy: it matches the keys a filter was made of. */
  ghost predicate Accepts(p: Policy) {
    forall keys: seq<Bytes>, k: Bytes :: k in keys ==> p.mayMatch(k, p.create(keys))
  }

  // ------------------------------------------------------------------ layout

  function FilterOf(p: Policy, keys: seq<Bytes>): Bytes {
    if keys == [] then [] else p.create(keys)
  }

  /** The filters of the first `n` groups of keys. */
  function FilterData(p: Policy, groups: seq<seq<Bytes>>, n: nat): Bytes
    requires n <= |groups|
  {
    if n == 0 then [] else FilterData(p, groups, n - 1) + FilterOf(p, groups[n - 1])
  }

  function Words(offsets: seq<nat>, n: nat): (s: Bytes)
    requires n <= |offsets|
    ensures |s| == 4 * n
  {
    if n == 0 then [] else Words(offsets, n - 1) + Fixed32(offsets[n - 1] % WORD)
  }

  function Starts(p: Policy, groups: seq<seq<Bytes>>): (r: seq<nat>)
    ensures |r| == |groups|
    ensures forall i :: 0 <= i < |groups| ==> r[i] == |FilterData(p, groups, i)|
  {
    seq(|groups|, i requires 0 <= i < |groups| => |FilterData(p, groups, i)|)
  }

  /** The last group has a filter only if it has a key. */
  function Kept(groups: seq<seq<Bytes>>): seq<seq<Bytes>> {
    if groups != [] && groups[|groups| - 1] == [] then groups[..|groups| - 1] else groups
  }

  /** Filters, where each begins, where the last ends, and the base. */
  function Layout(p: Policy, groups: seq<seq<Bytes>>): Bytes {
    var data := FilterData(p, groups, |groups|);
    data + Words(Starts(p, groups), |groups|) + Fixed32(|data| % WORD) + [FILTER_BASE_LG]
  }

  // ----------------------------------------------------------------- builder

  class FilterBlockBuilder {
    const policy: Policy
    var keys: Bytes
    var start: seq<nat>
    var result: Bytes
    var filterOffsets: seq<nat>
    /** The keys that each filter so far was made of. */
    ghost var done: seq<seq<Bytes>>

    predicate KeysOk()
      reads this
    {
      && (forall i :: 0 <= i < |start| ==> start[i] <= |keys|)
      && forall i, j :: 0 <= i < j < |start| ==> start[i] <= start[j]
    }

    ghost predicate Valid()
      reads this
    {
      KeysOk() && result == FilterData(policy, done, |done|) && filterOffsets == Starts(policy, done)
    }

    function Limit(i: nat): nat
      reads this
      requires i < |start|
    {
      if i + 1 < |start| then start[i + 1] else |keys|
    }

    /** The keys added since the last filter. */
    function Pending(): (r: seq<Bytes>)
      reads this
      requires KeysOk()
      ensures |r| == |start|
    {
      seq(|start|, i requires 0 <= i < |start| reads this requires KeysOk() => keys[start[i]..Limit(i)])
    }

    /** Group by group, the keys added so far; the last group is still open. */
    ghost function Groups(): (r: seq<seq<Bytes>>)
      reads this
      requires Valid()
      ensures r != []
    {
      done + [Pending()]
    }

    constructor (policy: Policy)
      ensures Valid() && this.policy == policy && Groups() == [[]]
    {
      this.policy := policy;
      keys, start, result, filterOffsets, done := [], [], [], [], [];
      new;
      assert Pending() == [];
    }

    method AddKey(key: Bytes)
      requires Valid()
      modifies this
      ensures Valid()
      ensures Groups() == old(Groups()[..|Groups()| - 1]) + [old(Groups()[|Groups()| - 1]) + [key]]
    {
      ghost var before, groups, was, ends := Pending(), Groups(), keys, start + [|keys|];
      start := start + [|keys|];
      keys := keys + key;
      forall i | 0 <= i < |before| ensures Pending()[i] == before[i] {
        assert before[i] == was[ends[i]..ends[i + 1]] == keys[ends[i]..ends[i + 1]];
      }
      assert Pending()[|before|] == keys[|was|..|keys|] == key;
      assert Pending() == before + [key];
      assert groups[..|groups| - 1] == done && groups[|groups| - 1] == before;
    }

    method GenerateFilter()
      requires Valid()
      modifies this
      ensures Valid() && Groups() == old(Groups()) + [[]]
    {
      hide FilterData, Starts;
      ghost var before, pending, groups := done, Pending(), Groups();
      if |start| == 0 {
        filterOffsets := filterOffsets + [|result|];
        assert pending == [] && result == result + FilterOf(policy, pending);
      } else {
        var ends := start + [|keys|];
        var tmpKeys: seq<Bytes> := [];
        for i := 0 to |start|
          modifies {}
          invariant tmpKeys == pending[..i]
        {
          tmpKeys := tmpKeys + [keys[ends[i]..ends[i + 1]]];
        }
        filterOffsets := filterOffsets + [|result|];
        assert tmpKeys == pending != [];
        result := result + policy.create(tmpKeys);
        keys, start := [], [];
      }
      done := done + [pending];
      DataOfMore(policy, before, pending);
      assert Pending() == [];
      assert Groups() == groups + [[]];
    }

    method StartBlock(blockOffset: nat)
      requires Valid() && blockOffset / FILTER_BASE >= |Groups()| - 1
      modifies this
      ensures Valid() && Groups() == Padded(old(Groups()), blockOffset / FILTER_BASE + 1)
    {
      var filterIndex := blockOffset / FILTER_BASE;
      while filterIndex > |filterOffsets|
        invariant Valid() && |done| <= filterIndex
        invariant Padded(Groups(), filterIndex + 1) == Padded(old(Groups()), filterIndex + 1)
        decreases filterIndex - |filterOffsets|
      {
        GenerateFilter();
      }
    }

    method Finish() returns (contents: Bytes)
      requires Valid()
      modifies this
      ensures contents == Layout(policy, Kept(old(Groups())))
    {
      hide FilterData, FilterOf, Starts, Fixed32;
      ghost var groups := Groups();
      assert groups[|groups| - 1] == Pending() && groups[..|groups| - 1] == done;
      if |start| > 0 {
        GenerateFilter();
        assert done == Groups()[..|Groups()| - 1] == groups;
      }
      assert done == Kept(groups);
      var arrayOffset := |result|;
      ghost var data := result;
      for i := 0 to |filterOffsets|
        invariant done == Kept(groups) && filterOffsets == Starts(policy, done)
        invariant result == data + Words(filterOffsets, i)
      {
        result := result + Fixed32(filterOffsets[i] % WORD);
      }
      result := result + Fixed32(arrayOffset % WORD);
      result := result + [FILTER_BASE_LG];
      contents := result;
    }
  }

  /** Empty groups up to `n`. */
  function Padded(groups: seq<seq<Bytes>>, n: nat): seq<seq<Bytes>>
    decreases n - |groups|
  {
    if |groups| >= n then groups else Padded(groups + [[]], n)
  }

  lemma {:induction false} DataOfPrefix(p: Policy, groups: seq<seq<Bytes>>, last: seq<Bytes>, n: nat)
    requires n <= |groups|
    ensures FilterData(p, groups + [last], n) == FilterData(p, groups, n)
  {
    if n > 0 { DataOfPrefix(p, groups, last, n - 1); }
  }

  lemma DataOfMore(p: Policy, groups: seq<seq<Bytes>>, last: seq<Bytes>)
    ensures FilterData(p, groups + [last], |groups| + 1) == FilterData(p, groups, |groups|) + FilterOf(p, last)
    ensures Starts(p, groups + [last]) == Starts(p, groups) + [|FilterData(p, groups, |groups|)|]
  {
    forall i | 0 <= i <= |groups| ensures FilterData(p, groups + [last], i) == FilterData(p, groups, i) {
      DataOfPrefix(p, groups, last, i);
    }
  }

  // ------------------------------------------------------------------ reader

  /** What the reader keeps of the contents; `num` is 0 when they do not parse. */
  datatype Reader = Reader(data: Bytes, offset: nat, num: nat, baseLg: nat) {
    predicate Valid() {
      num > 0 ==> offset + 4 * num + 4 <= |data|
    }

    function WordAt(p: nat): Word
      requires p + 4 <= |data|
    {
      DecodeFixed32(data[p..p + 4])
    }

    predicate KeyMayMatch(policy: Policy, blockOffset: nat, key: Bytes)
      requires Valid()
    {
      var index := ShiftedRight(blockOffset, baseLg);
      if index < num then
        var start, limit := WordAt(offset + index * 4), WordAt(offset + index * 4 + 4);
        if start <= limit && limit <= offset then policy.mayMatch(key, data[start..limit])
        else start != limit
      else true
    }
  }

  function ShiftedRight(v: nat, n: nat): nat {
    if n == 0 then v else ShiftedRight(v / 2, n - 1)
  }

  lemma ShiftedByBase(v: nat)
    ensures ShiftedRight(v, FILTER_BASE_LG) == v / FILTER_BASE
  {
    assert ShiftedRight(v, 11) == ShiftedRight(v / 2, 10) == ShiftedRight(v / 2 / 2, 9);
    assert v / 2 / 2 == v / 4;
    assert ShiftedRight(v / 4, 9) == ShiftedRight(v / 4 / 2, 8) == ShiftedRight(v / 4 / 2 / 2, 7);
    assert v / 4 / 2 / 2 == v / 16;
    assert ShiftedRight(v / 16, 7) == ShiftedRight(v / 16 / 2, 6) == ShiftedRight(v / 16 / 2 / 2, 5);
    assert v / 16 / 2 / 2 == v / 64;
    assert ShiftedRight(v / 64, 5) == ShiftedRight(v / 64 / 2, 4) == ShiftedRight(v / 64 / 2 / 2, 3);
    assert v / 64 / 2 / 2 == v / 256;
    assert ShiftedRight(v / 256, 3) == ShiftedRight(v / 256 / 2, 2) == ShiftedRight(v / 256 / 2 / 2, 1);
    assert v / 256 / 2 / 2 == v / 1024;
    assert ShiftedRight(v / 1024, 1) == ShiftedRight(v / 1024 / 2, 0);
  }

  function Open(contents: Bytes): (r: Reader)
    ensures r.Valid()
  {
    var n := |contents|;
    if n < 5 then Reader([], 0, 0, 0)
    else
      var lastWord := DecodeFixed32(contents[n - 5..n - 1]);
      if lastWord > n - 5 then Reader([], 0, 0, contents[n - 1])
      else Reader(contents, lastWord, (n - 5 - lastWord) / 4, contents[n - 1])
  }

  /** Where each filter begins, and where the last one ends. */
  function Ends(p: Policy, groups: seq<seq<Bytes>>): (r: seq<nat>)
    ensures |r| == |groups| + 1
    ensures forall i :: 0 <= i <= |groups| ==> r[i] == |FilterData(p, groups, i)|
  {
    seq(|groups| + 1, i requires 0 <= i <= |groups| => |FilterData(p, groups, i)|)
  }

  lemma {:induction false} WordsOfPrefix(a: seq<nat>, b: seq<nat>, n: nat)
    requires n <= |a| && n <= |b| && forall i :: 0 <= i < n ==> a[i] == b[i]
    ensures Words(a, n) == Words(b, n)
  {
    if n > 0 { WordsOfPrefix(a, b, n - 1); }
  }

  /** The end of the filters stands where the start of one more would. */
  lemma LayoutIs(p: Policy, groups: seq<seq<Bytes>>)
    ensures Layout(p, groups)
         == FilterData(p, groups, |groups|) + Words(Ends(p, groups), |groups| + 1) + [FILTER_BASE_LG]
  {
    hide FilterData, Fixed32;
    WordsOfPrefix(Starts(p, groups), Ends(p, groups), |groups|);
    var data, w, e := FilterData(p, groups, |groups|), Words(Starts(p, groups), |groups|),
        Fixed32(|FilterData(p, groups, |groups|)| % WORD);
    assert data + w + e + [FILTER_BASE_LG] == data + (w + e) + [FILTER_BASE_LG];
  }

  lemma {:induction false} WordIsAt(offsets: seq<nat>, n: nat, i: nat)
    requires i < n <= |offsets|
    ensures Words(offsets, n)[4 * i..4 * i + 4] == Fixed32(offsets[i] % WORD)
  {
    hide Fixed32;
    if i < n - 1 {
      WordIsAt(offsets, n - 1, i);
      assert Words(offsets, n)[4 * i..4 * i + 4] == Words(offsets, n - 1)[4 * i..4 * i + 4];
    }
  }

  lemma {:induction false} DataGrows(p: Policy, groups: seq<seq<Bytes>>, i: nat, n: nat)
    requires i <= n <= |groups|
    ensures FilterData(p, groups, i) <= FilterData(p, groups, n)
    decreases n
  {
    if i < n { DataGrows(p, groups, i, n - 1); }
  }

  /** The bytes of one filter, where the offsets say. */
  lemma FilterIsAt(p: Policy, groups: seq<seq<Bytes>>, i: nat)
    requires i < |groups|
    ensures var data, ends := FilterData(p, groups, |groups|), Ends(p, groups);
            ends[i] <= ends[i + 1] <= |data| && data[ends[i]..ends[i + 1]] == FilterOf(p, groups[i])
  {
    hide FilterOf;
    DataGrows(p, groups, i + 1, |groups|);
    var data, some := FilterData(p, groups, |groups|), FilterData(p, groups, i + 1);
    assert data[..|some|] == some;
    assert data[Ends(p, groups)[i]..|some|] == some[Ends(p, groups)[i]..];
  }

  /** What follows the filters is read back as it was put. */
  lemma EndIsRead(p: Policy, groups: seq<seq<Bytes>>, i: nat)
    requires |Layout(p, groups)| < WORD && i <= |groups|
    ensures var data := FilterData(p, groups, |groups|);
            |Layout(p, groups)| == |data| + 4 * |groups| + 5
            && DecodeFixed32(Layout(p, groups)[|data| + 4 * i..|data| + 4 * i + 4]) == Ends(p, groups)[i]
  {
    hide FilterData, Fixed32, DecodeFixed32, Layout;
    var data, ends := FilterData(p, groups, |groups|), Ends(p, groups);
    LayoutIs(p, groups);
    WordIsAt(ends, |groups| + 1, i);
    DataGrows(p, groups, i, |groups|);
    assert Layout(p, groups)[|data| + 4 * i..|data| + 4 * i + 4] == Words(ends, |groups| + 1)[4 * i..4 * i + 4];
    Fixed32RoundTrip(ends[i]);
  }

  lemma LayoutIsOpened(p: Policy, groups: seq<seq<Bytes>>)
    requires |Layout(p, groups)| < WORD
    ensures Open(Layout(p, groups))
         == Reader(Layout(p, groups), |FilterData(p, groups, |groups|)|, |groups|, FILTER_BASE_LG)
  {
    hide FilterData, Fixed32, DecodeFixed32, Words;
    EndIsRead(p, groups, |groups|);
  }

  /** A lookup asks the filter of the offset's group, and says yes behind the last group. */
  lemma LookupIs(p: Policy, groups: seq<seq<Bytes>>, blockOffset: nat, key: Bytes)
    requires |Layout(p, groups)| < WORD
    ensures Open(Layout(p, groups)).KeyMayMatch(p, blockOffset, key)
        <==> (blockOffset / FILTER_BASE < |groups| ==> p.mayMatch(key, FilterOf(p, groups[blockOffset / FILTER_BASE])))
  {
    hide FilterData, FilterOf, DecodeFixed32, Layout, Open;
    LayoutIsOpened(p, groups);
    ShiftedByBase(blockOffset);
    var i, data, s := blockOffset / FILTER_BASE, FilterData(p, groups, |groups|), Layout(p, groups);
    if i < |groups| {
      EndIsRead(p, groups, i);
      EndIsRead(p, groups, i + 1);
      FilterIsAt(p, groups, i);
      LayoutIs(p, groups);
      var ends := Ends(p, groups);
      assert s[..|data|] == data;
      assert s[ends[i]..ends[i + 1]] == data[ends[i]..ends[i + 1]];
      assert |data| + 4 * i + 4 == |data| + 4 * (i + 1);
    }
  }

  // -------------------------------------------------------------------- runs

  /** What the table builder does: it starts a data block, or adds a key to it. */
  datatype Op = Start(blockOffset: nat) | Add(key: Bytes)

  /** The offset of the block that is open after `n` operations. */
  function OffsetAt(ops: seq<Op>, n: nat): nat
    requires n <= |ops|
  {
    if n == 0 then 0 else if ops[n - 1].Start? then ops[n - 1].blockOffset else OffsetAt(ops, n - 1)
  }

  predicate Nondecreasing(ops: seq<Op>) {
    forall i :: 0 <= i < |ops| && ops[i].Start? ==> OffsetAt(ops, i) <= ops[i].blockOffset
  }

  function Applied(groups: seq<seq<Bytes>>, op: Op): (r: seq<seq<Bytes>>)
    requires groups != []
  {
    match op
    case Start(offset) => Padded(groups, offset / FILTER_BASE + 1)
    case Add(key) => groups[..|groups| - 1] + [groups[|groups| - 1] + [key]]
  }

  function GroupsAfter(ops: seq<Op>, n: nat): (r: seq<seq<Bytes>>)
    requires n <= |ops|
    ensures r != []
  {
    if n == 0 then [[]]
    else
      var groups := GroupsAfter(ops, n - 1);
      PaddedIs(groups, if ops[n - 1].Start? then ops[n - 1].blockOffset / FILTER_BASE + 1 else 0);
      Applied(groups, ops[n - 1])
  }

  lemma {:induction false} PaddedIs(groups: seq<seq<Bytes>>, n: nat)
    ensures groups <= Padded(groups, n) && |Padded(groups, n)| == if |groups| >= n then |groups| else n
    decreases n - |groups|
  {
    if |groups| < n { PaddedIs(groups + [[]], n); }
  }

  /** The open group is the one of the open block's offset, so StartBlock's assertion holds. */
  lemma {:induction false} OpenGroup(ops: seq<Op>, n: nat)
    requires Nondecreasing(ops) && n <= |ops|
    ensures |GroupsAfter(ops, n)| == OffsetAt(ops, n) / FILTER_BASE + 1
  {
    if n > 0 {
      OpenGroup(ops, n - 1);
      if ops[n - 1].Start? {
        assert OffsetAt(ops, n - 1) <= ops[n - 1].blockOffset;
        PaddedIs(GroupsAfter(ops, n - 1), ops[n - 1].blockOffset / FILTER_BASE + 1);
      }
    }
  }

  lemma {:induction false} KeyStays(ops: seq<Op>, i: nat, n: nat)
    requires Nondecreasing(ops) && i < n <= |ops| && ops[i].Add?
    ensures OffsetAt(ops, i) / FILTER_BASE < |GroupsAfter(ops, n)|
    ensures ops[i].key in GroupsAfter(ops, n)[OffsetAt(ops, i) / FILTER_BASE]
    decreases n
  {
    OpenGroup(ops, i);
    var before := GroupsAfter(ops, n - 1);
    if i < n - 1 {
      KeyStays(ops, i, n - 1);
      PaddedIs(before, if ops[n - 1].Start? then ops[n - 1].blockOffset / FILTER_BASE + 1 else 0);
    } else {
      var last := before[|before| - 1];
      assert (last + [ops[i].key])[|last|] == ops[i].key;
    }
  }

  method Build(policy: Policy, ops: seq<Op>) returns (contents: Bytes)
    requires Nondecreasing(ops)
    ensures contents == Layout(policy, Kept(GroupsAfter(ops, |ops|)))
  {
    var builder := new FilterBlockBuilder(policy);
    for i := 0 to |ops|
      invariant builder.Valid() && builder.policy == policy && builder.Groups() == GroupsAfter(ops, i)
    {
      OpenGroup(ops, i);
      match ops[i]
      case Start(offset) =>
        assert OffsetAt(ops, i) <= offset;
        builder.StartBlock(offset);
      case Add(key) => builder.AddKey(key);
    }
    contents := builder.Finish();
  }

  /** A key added while a block was open is never denied at that block's offset. */
  lemma NoFalseNegatives(policy: Policy, ops: seq<Op>, i: nat)
    requires Accepts(policy) && Nondecreasing(ops) && i < |ops| && ops[i].Add?
    requires |Layout(policy, Kept(GroupsAfter(ops, |ops|)))| < WORD
    ensures Open(Layout(policy, Kept(GroupsAfter(ops, |ops|)))).KeyMayMatch(policy, OffsetAt(ops, i), ops[i].key)
  {
    hide GroupsAfter, OffsetAt, Layout, Open, Nondecreasing;
    var groups := GroupsAfter(ops, |ops|);
    KeyStays(ops, i, |ops|);
    LookupIs(policy, Kept(groups), OffsetAt(ops, i), ops[i].key);
  }
}
