/** Replaying log files into level-0 tables, and deleting obsolete files
    (db/db_impl.cc:223-278, 367-533; db/version_set.cc:1167-1177). */
module Recovery {
  import opened DbFormat
  import opened Versions
  import Db = Engine
  import opened Durability

  // ------------------------------------------------------------- memtables

  /** Where a key belongs in a sorted list of entries. */
  method FindPosition(mem: seq<Entry>, key: InternalKey) returns (p: nat)
    requires Sorted(mem)
    ensures p <= |mem|
    ensures forall i :: 0 <= i < p ==> Less(mem[i].key, key)
    ensures forall i :: p <= i < |mem| ==> !Less(mem[i].key, key)
  {
    p := 0;
    while p < |mem| && Less(mem[p].key, key)
      invariant p <= |mem| && forall i :: 0 <= i < p ==> Less(mem[i].key, key)
    {
      p := p + 1;
    }
    if p < |mem| {
      forall i | p < i < |mem| ensures !Less(mem[i].key, key) {
        assert Less(mem[p].key, mem[i].key);
      }
    }
  }

  /** MemTable::Add: no entry of the table has the key and sequence number of the new one. */
  method Add(mem: seq<Entry>, e: Entry) returns (after: seq<Entry>)
    requires Sorted(mem) && forall o :: o in mem ==> o.key.user != e.key.user || o.key.sequence != e.key.sequence
    ensures Sorted(after) && SetOf(after) == SetOf(mem) + iset{e}
  {
    var p := FindPosition(mem, e.key);
    after := mem[..p] + [e] + mem[p..];
    forall i | p <= i < |mem| ensures Less(e.key, mem[i].key) {
      assert mem[i] in mem;
    }
  }

  ghost predicate UpToGroup(mem: seq<Entry>, g: Group) {
    forall e :: e in mem ==> e.key.sequence <= g.before
  }

  ghost function FirstEntries(g: Group, n: nat): iset<Entry>
    requires n <= |g.ops|
  {
    iset i | 0 <= i < n :: Db.EntryOf(g.ops[i], g.before + i)
  }

  /** WriteBatchInternal::InsertInto: the operations of a batch under consecutive numbers. */
  method InsertInto(mem: seq<Entry>, g: Group) returns (after: seq<Entry>)
    requires Sorted(mem) && UpToGroup(mem, g)
    ensures Sorted(after) && SetOf(after) == SetOf(mem) + EntriesIn([g])
    ensures forall e :: e in after ==> e.key.sequence <= g.before + |g.ops|
  {
    after := mem;
    assert FirstEntries(g, 0) == iset{};
    for i := 0 to |g.ops|
      invariant Sorted(after) && SetOf(after) == SetOf(mem) + FirstEntries(g, i)
      invariant forall e :: e in after ==> e.key.sequence <= g.before + i
    {
      ghost var was := after;
      OneMoreEntry(g, i);
      after := Add(after, Db.EntryOf(g.ops[i], g.before + i));
      AddedUpTo(was, after, Db.EntryOf(g.ops[i], g.before + i), g.before + i + 1);
    }
    assert EntriesIn([g]) == FirstEntries(g, |g.ops|) by { GroupEntries(g); }
    assert forall e :: e in after ==> e in SetOf(after);
  }

  lemma OneMoreEntry(g: Group, i: nat)
    requires i < |g.ops|
    ensures FirstEntries(g, i + 1) == FirstEntries(g, i) + iset{Db.EntryOf(g.ops[i], g.before + i)}
  {
  }

  lemma AddedUpTo(was: seq<Entry>, after: seq<Entry>, e: Entry, n: nat)
    requires SetOf(after) == SetOf(was) + iset{e} && e.key.sequence <= n && forall o :: o in was ==> o.key.sequence <= n
    ensures forall o :: o in after ==> o.key.sequence <= n
  {
    forall o | o in after ensures o.key.sequence <= n {
      assert o in SetOf(after);
    }
  }

  lemma GroupEntries(g: Group)
    ensures EntriesIn([g]) == FirstEntries(g, |g.ops|)
  {
    assert g in [g];
    forall e ensures e in EntriesIn([g]) <==> e in FirstEntries(g, |g.ops|) {
      if i :| 0 <= i < |g.ops| && e == Db.EntryOf(g.ops[i], g.before + i) {
      }
    }
  }

  // --------------------------------------------------------- replaying a log

  /** BuildTable: an empty memtable makes no table. */
  method WriteLevel0Table(mem: seq<Entry>, number: nat, size: nat) returns (files: seq<File>)
    ensures files == if mem == [] then [] else [File(number, size, mem[0].key, mem[|mem| - 1].key, mem)]
  {
    files := if mem == [] then [] else [File(number, size, mem[0].key, mem[|mem| - 1].key, mem)];
  }

  lemma OneMoreTable(chunks: seq<seq<Group>>, files: seq<File>, chunk: seq<Group>, mem: seq<Entry>, more: seq<File>,
                     number: nat, size: nat, from: nat)
    requires Rebuilt(chunks, files) && Ascending(files, from) && from <= number
             && (forall f :: f in files ==> f.number < number)
    requires Sorted(mem) && SetOf(mem) == EntriesIn(chunk)
    requires more == if mem == [] then [] else [File(number, size, mem[0].key, mem[|mem| - 1].key, mem)]
    ensures Rebuilt(chunks + [chunk], files + more) && Ascending(files + more, from)
            && Flat(chunks + [chunk]) == Flat(chunks) + chunk
  {
    hide EntriesIn, Rebuilt, Sorted, Flat;
    OneMoreChunk(chunks, chunk);
    if mem == [] {
      assert SetOf(mem) == iset{};
      assert files + more == files;
      RebuiltOfEmpty(chunks, files, chunk);
    } else {
      assert mem[0] in SetOf(mem);
      hide Ascending;
      OneMoreNumber(files, more[0], from);
      RebuiltOfFull(chunks, files, chunk, more[0]);
    }
  }

  lemma OneMoreChunk(chunks: seq<seq<Group>>, chunk: seq<Group>)
    ensures Flat(chunks + [chunk]) == Flat(chunks) + chunk
  {
    assert (chunks + [chunk])[..|chunks|] == chunks;
  }

  lemma OneMoreNumber(files: seq<File>, f: File, from: nat)
    requires Ascending(files, from) && from <= f.number && forall g :: g in files ==> g.number < f.number
    ensures Ascending(files + [f], from)
  {
  }

  lemma RebuiltOfEmpty(chunks: seq<seq<Group>>, files: seq<File>, chunk: seq<Group>)
    requires Rebuilt(chunks, files) && EntriesIn(chunk) == iset{}
    ensures Rebuilt(chunks + [chunk], files)
  {
    hide EntriesIn;
    assert (chunks + [chunk])[..|chunks|] == chunks;
  }

  lemma RebuiltOfFull(chunks: seq<seq<Group>>, files: seq<File>, chunk: seq<Group>, f: File)
    requires Rebuilt(chunks, files) && EntriesIn(chunk) != iset{}
    requires Sorted(f.entries) && Db.Built(f) && SetOf(f.entries) == EntriesIn(chunk)
    ensures Rebuilt(chunks + [chunk], files + [f])
  {
    hide EntriesIn, Sorted, Db.Built;
    assert (chunks + [chunk])[..|chunks|] == chunks && (files + [f])[..|files|] == files;
  }

  /** After `i` records: the tables written hold the first of them, the memtable the others. */
  ghost predicate SoFar(records: seq<Group>, i: nat, next: nat, chunks: seq<seq<Group>>, chunk: seq<Group>,
                        mem: seq<Entry>, files: seq<File>, after: nat, maxSequence: nat)
  {
    && i <= |records| && Flat(chunks) + chunk == records[..i]
    && Rebuilt(chunks, files) && Ascending(files, next)
    && next <= after && (forall f :: f in files ==> f.number < after)
    && maxSequence == MaxSequence(records[..i])
    && Sorted(mem) && SetOf(mem) == EntriesIn(chunk)
  }

  lemma NothingYet(next: nat, records: seq<Group>)
    ensures SoFar(records, 0, next, [], [], [], [], next, 0)
  {
    assert records[..0] == [];
  }

  lemma RecordAdded(records: seq<Group>, i: nat, next: nat, chunks: seq<seq<Group>>, chunk: seq<Group>, mem: seq<Entry>,
                    files: seq<File>, after: nat, maxSequence: nat, grown: seq<Entry>)
    requires SoFar(records, i, next, chunks, chunk, mem, files, after, maxSequence) && i < |records|
    requires Sorted(grown) && SetOf(grown) == SetOf(mem) + EntriesIn([records[i]])
    ensures SoFar(records, i + 1, next, chunks, chunk + [records[i]], grown, files, after,
                  Db.Max(maxSequence, records[i].before + |records[i].ops|))
  {
    hide Flat, EntriesIn, Rebuilt, Ascending, Sorted;
    EntriesInBoth(chunk, [records[i]]);
    assert records[..i + 1][..i] == records[..i];
    assert Flat(chunks) + (chunk + [records[i]]) == records[..i + 1];
  }

  lemma TableWritten(records: seq<Group>, i: nat, next: nat, chunks: seq<seq<Group>>, chunk: seq<Group>,
                     mem: seq<Entry>, files: seq<File>, after: nat, maxSequence: nat, size: nat, more: seq<File>)
    requires SoFar(records, i, next, chunks, chunk, mem, files, after, maxSequence)
    requires more == if mem == [] then [] else [File(after, size, mem[0].key, mem[|mem| - 1].key, mem)]
    ensures SoFar(records, i, next, chunks + [chunk], [], [], files + more, after + 1, maxSequence)
  {
    hide Flat, EntriesIn, Rebuilt, Ascending, MaxSequence;
    OneMoreTable(chunks, files, chunk, mem, more, after, size, next);
    EmptySlice([], 0);
    assert Flat(chunks + [chunk]) + [] == records[..i];
  }

  lemma AllReplayed(records: seq<Group>, next: nat, chunks: seq<seq<Group>>, mem: seq<Entry>,
                    files: seq<File>, after: nat, maxSequence: nat)
    requires SoFar(records, |records|, next, chunks, [], mem, files, after, maxSequence)
    ensures Flat(chunks) == records && Rebuilt(chunks, files) && Ascending(files, next)
    ensures next <= after && forall f :: f in files ==> f.number < after
    ensures maxSequence == MaxSequence(records)
  {
    hide Flat, EntriesIn, Rebuilt, Ascending, MaxSequence, Sorted;
    assert records[..|records|] == records && Flat(chunks) + [] == Flat(chunks);
  }

  /** RecoverLogFile: the records go into a memtable, which becomes a level-0 table whenever it
      has grown past the write buffer's size, and at the end. `usage` is its memory usage, and
      `sizes` gives the sizes of the tables built. */
  method RecoverLogFile(records: seq<Group>, usage: seq<Entry> -> nat, writeBufferSize: nat, next: nat,
                        sizes: nat -> nat,
                        ghost ops: seq<Db.Op>, ghost a: nat, ghost b: nat)
    returns (chunks: seq<seq<Group>>, files: seq<File>, after: nat, maxSequence: nat)
    requires b <= |ops| && Holds(records, ops, a, b)
    ensures Flat(chunks) == records && Rebuilt(chunks, files) && Ascending(files, next)
    ensures next <= after && forall f :: f in files ==> f.number < after
    ensures maxSequence == MaxSequence(records)
  {
    hide EntriesIn, Db.Built, Holds, Rebuilt, Ascending, Flat, MaxSequence;
    chunks, files, after, maxSequence := [], [], next, 0;
    var mem, chunk: seq<Group> := [], [];
    NothingYet(next, records);
    for i := 0 to |records|
      invariant SoFar(records, i, next, chunks, chunk, mem, files, after, maxSequence)
      invariant i < |records| ==> UpToGroup(mem, records[i])
    {
      hide SoFar;
      var g := records[i];
      SortedSoFar(records, i, next, chunks, chunk, mem, files, after, maxSequence);
      var grown := InsertInto(mem, g);
      RecordAdded(records, i, next, chunks, chunk, mem, files, after, maxSequence, grown);
      mem, chunk := grown, chunk + [g];
      var lastSequence := g.before + |g.ops|;
      if lastSequence > maxSequence {
        maxSequence := lastSequence;
      }
      if i + 1 < |records| { NextFollows(records, ops, a, b, i); }
      if usage(mem) > writeBufferSize {
        var more := WriteLevel0Table(mem, after, sizes(after));
        TableWritten(records, i + 1, next, chunks, chunk, mem, files, after, maxSequence, sizes(after), more);
        chunks, files, after := chunks + [chunk], files + more, after + 1;
        mem, chunk := [], [];
      }
    }
    hide SoFar;
    if chunk != [] {
      var more := WriteLevel0Table(mem, after, sizes(after));
      TableWritten(records, |records|, next, chunks, chunk, mem, files, after, maxSequence, sizes(after), more);
      chunks, files, after := chunks + [chunk], files + more, after + 1;
      mem, chunk := [], [];
    }
    AllReplayed(records, next, chunks, mem, files, after, maxSequence);
  }

  lemma SortedSoFar(records: seq<Group>, i: nat, next: nat, chunks: seq<seq<Group>>, chunk: seq<Group>, mem: seq<Entry>,
                    files: seq<File>, after: nat, maxSequence: nat)
    requires SoFar(records, i, next, chunks, chunk, mem, files, after, maxSequence)
    ensures Sorted(mem)
  {
  }

  lemma {:induction false} NextFollows(records: seq<Group>, ops: seq<Db.Op>, a: nat, b: nat, i: nat)
    requires b <= |ops| && Holds(records, ops, a, b) && i + 1 < |records|
    ensures records[i + 1].before == records[i].before + |records[i].ops|
    decreases |records|
  {
    var n := |records| - 1;
    if i + 1 < n {
      NextFollows(records[..n], ops, a, b - |records[n].ops|, i);
    } else {
      assert records[..n][n - 1] == records[i];
    }
  }

  // -------------------------------------------------- replaying all the logs

  lemma {:induction false} ReplaySplits(logs: map<nat, seq<Group>>, lo: nat, mid: nat, hi: nat)
    requires lo <= mid <= hi
    ensures ReplayLogs(logs, lo, hi) == ReplayLogs(logs, lo, mid) + ReplayLogs(logs, mid, hi)
    decreases hi
  {
    if mid < hi { ReplaySplits(logs, lo, mid, hi - 1); }
  }

  /** The records of log `n` are a piece of what recovery replays. */
  lemma LogHolds(disk: Disk, ops: seq<Db.Op>, a: nat, n: nat) returns (from: nat, to: nat)
    requires Holds(Needed(disk), ops, a, |ops|) && disk.descriptor.logNumber <= n < disk.logEnd && n in disk.logs
    ensures to <= |ops| && Holds(disk.logs[n], ops, from, to)
  {
    hide ReplayLogs, Holds;
    var lo := disk.descriptor.logNumber;
    ReplaySplits(disk.logs, lo, n + 1, disk.logEnd);
    ReplaySplits(disk.logs, lo, n, n + 1);
    ReplayOne(disk.logs, n);
    var rest := ReplayLogs(disk.logs, n + 1, disk.logEnd);
    HoldsParts(ReplayLogs(disk.logs, lo, n) + disk.logs[n], rest, ops, a, |ops|);
    to := |ops| - OpCount(rest);
    HoldsParts(ReplayLogs(disk.logs, lo, n), disk.logs[n], ops, a, to);
    from := to - OpCount(disk.logs[n]);
  }

  lemma {:induction false} TablesOfBoth(x: seq<seq<Group>>, f: seq<File>, y: seq<seq<Group>>, g: seq<File>)
    requires Rebuilt(x, f) && Rebuilt(y, g)
    ensures Rebuilt(x + y, f + g)
  {
    hide EntriesIn, Db.Built, Sorted;
    if y == [] {
      assert x + y == x && f + g == f;
    } else {
      var n := |y| - 1;
      assert (x + y)[..|x + y| - 1] == x + y[..n];
      if EntriesIn(y[n]) == iset{} {
        TablesOfBoth(x, f, y[..n], g);
      } else {
        TablesOfBoth(x, f, y[..n], g[..|g| - 1]);
        assert (f + g)[..|f + g| - 1] == f + g[..|g| - 1];
      }
    }
  }

  lemma {:induction false} FlatOfBoth(x: seq<seq<Group>>, y: seq<seq<Group>>)
    ensures Flat(x + y) == Flat(x) + Flat(y)
  {
    if y == [] {
      assert x + y == x;
    } else {
      hide Flat;
      var n := |y| - 1;
      assert x + y == (x + y[..n]) + [y[n]] && y == y[..n] + [y[n]];
      FlatOfBoth(x, y[..n]);
      OneMoreChunk(x + y[..n], y[n]);
      OneMoreChunk(y[..n], y[n]);
    }
  }

  lemma NumbersOfBoth(f: seq<File>, g: seq<File>, from: nat, mid: nat)
    requires Ascending(f, from) && Ascending(g, mid) && from <= mid && forall x :: x in f ==> x.number < mid
    ensures Ascending(f + g, from)
  {
    forall i, j | 0 <= i < j < |f + g| ensures (f + g)[i].number < (f + g)[j].number {
      if i < |f| { assert f[i] in f; }
    }
  }

  lemma {:induction false} MaxOfBoth(x: seq<Group>, y: seq<Group>)
    ensures MaxSequence(x + y) == Db.Max(MaxSequence(x), MaxSequence(y))
  {
    if y == [] {
      assert x + y == x;
    } else {
      var n := |y| - 1;
      assert (x + y)[..|x + y| - 1] == x + y[..n] && (x + y)[|x + y| - 1] == y[n];
      MaxOfBoth(x, y[..n]);
    }
  }

  /** DBImpl::Recover after the manifest: every log not older than the one it names, in order. */
  method RecoverLogs(disk: Disk, usage: seq<Entry> -> nat, writeBufferSize: nat, sizes: nat -> nat,
                     ghost ops: seq<Db.Op>, ghost start: nat)
    returns (chunks: seq<seq<Group>>, files: seq<File>, next: nat, lastSequence: nat)
    requires Holds(Needed(disk), ops, start, |ops|) && disk.descriptor.logNumber < disk.logEnd
    ensures Flat(chunks) == Needed(disk) && Rebuilt(chunks, files) && Ascending(files, disk.descriptor.nextFile + 1)
    ensures forall f :: f in files ==> f.number < next
    ensures forall n :: n in disk.logs && disk.descriptor.logNumber <= n < disk.logEnd ==> n < next
    ensures lastSequence == RecoveredSequence(disk)
  {
    hide Rebuilt, Flat, Holds, Ascending, MaxSequence;
    var lo, maxSequence := disk.descriptor.logNumber, 0;
    chunks, files, next := [], [], disk.descriptor.nextFile + 1;
    NothingYet(next, []);
    AllReplayed([], next, [], [], [], next, 0);
    assert ReplayLogs(disk.logs, lo, lo) == [];
    for n := lo to disk.logEnd
      invariant Flat(chunks) == ReplayLogs(disk.logs, lo, n) && Rebuilt(chunks, files)
      invariant disk.descriptor.nextFile + 1 <= next && Ascending(files, disk.descriptor.nextFile + 1)
      invariant forall f :: f in files ==> f.number < next
      invariant forall k :: k in disk.logs && lo <= k < n ==> k < next
      invariant maxSequence == MaxSequence(ReplayLogs(disk.logs, lo, n))
    {
      if n in disk.logs {
        ghost var from, to := LogHolds(disk, ops, start, n);
        var c, f, after, m := RecoverLogFile(disk.logs[n], usage, writeBufferSize, next, sizes, ops, from, to);
        TablesOfBoth(chunks, files, c, f);
        FlatOfBoth(chunks, c);
        NumbersOfBoth(files, f, disk.descriptor.nextFile + 1, next);
        MaxOfBoth(ReplayLogs(disk.logs, lo, n), disk.logs[n]);
        chunks, files := chunks + c, files + f;
        // MarkFileNumberUsed
        next := if after <= n then n + 1 else after;
        maxSequence := Db.Max(maxSequence, m);
      }
    }
    lastSequence := Db.Max(disk.descriptor.lastSequence, maxSequence);
  }

  // ------------------------------------------------------ names of files

  datatype FileName =
    | LogFile(number: nat)
    | DescriptorFile(number: nat)
    | TableFile(number: nat)
    | TempFile(number: nat)
    | CurrentFile
    | DBLockFile
    | InfoLogFile

  /** VersionSet::AddLiveFiles: the tables of every listed version, added to `live`. */
  method AddLiveFiles(versions: seq<Version>, pending: set<nat>) returns (live: set<nat>)
    ensures forall n :: n in live <==> n in pending || exists v :: v in versions && InVersion(v, n)
  {
    live := pending;
    for i := 0 to |versions|
      invariant forall n :: n in live <==> n in pending || exists k :: 0 <= k < i && InVersion(versions[k], n)
    {
      var v := versions[i];
      ghost var before := live;
      for l := 0 to |v.levels|
        invariant forall n :: n in live <==>
                              n in before || exists k, f :: 0 <= k < l && f in v.levels[k] && f.number == n
      {
        live := live + set f | f in v.levels[l] :: f.number;
      }
      assert forall n :: n in live <==> n in before || InVersion(v, n);
    }
    forall n ensures n in live <==> n in pending || exists v :: v in versions && InVersion(v, n) {
      if k :| 0 <= k < |versions| && InVersion(versions[k], n) {
        assert versions[k] in versions;
      }
    }
  }

  /** What ParseFileName gives as the number. */
  function NumberOf(name: FileName): nat {
    match name
    case LogFile(n) => n
    case DescriptorFile(n) => n
    case TableFile(n) => n
    case TempFile(n) => n
    case _ => 0
  }

  /** The check of DBImpl::Recover: the live tables of whose number the directory has no file, of any type. */
  method MissingTables(v: Version, names: seq<FileName>) returns (missing: set<nat>)
    ensures forall n :: n in missing <==> InVersion(v, n) && forall name :: name in names ==> NumberOf(name) != n
  {
    missing := AddLiveFiles([v], {});
    assert forall n :: n in missing <==> InVersion(v, n);
    for i := 0 to |names|
      invariant forall n :: n in missing <==> InVersion(v, n) && forall k :: 0 <= k < i ==> NumberOf(names[k]) != n
    {
      missing := missing - {NumberOf(names[i])};
    }
  }

  /** From every disk that a crash can leave, no table is missing, and recovery has tables to write
      that let it reopen; `names` lists at least the tables. */
  method Replayed(n: Node, names: seq<FileName>, usage: seq<Entry> -> nat, writeBufferSize: nat, sizes: nat -> nat)
    returns (missing: set<nat>, chunks: seq<seq<Group>>, files: seq<File>)
    requires n.Down? && Invariant(n)
    requires forall k :: k in n.disk.tables ==> TableFile(k) in names
    ensures missing == {}
    ensures Flat(chunks) == Needed(n.disk) && Rebuilt(chunks, files) && Ascending(files, n.disk.descriptor.nextFile)
  {
    hide Db.Invariant, Stored, Db.NumbersOk, Contents;
    missing := MissingTables(n.disk.descriptor.version, names);
    NothingMissing(n.disk, names);
    ghost var ops := n.view.ops + n.tail;
    var next, lastSequence;
    chunks, files, next, lastSequence := RecoverLogs(n.disk, usage, writeBufferSize, sizes, ops, n.start);
  }

  lemma NothingMissing(disk: Disk, names: seq<FileName>)
    requires Stored(disk.tables, disk.descriptor.nextFile, disk.descriptor.version)
    requires forall k :: k in disk.tables ==> TableFile(k) in names
    ensures forall k :: InVersion(disk.descriptor.version, k) ==> exists name :: name in names && NumberOf(name) == k
  {
    forall k | InVersion(disk.descriptor.version, k) ensures exists name :: name in names && NumberOf(name) == k {
      var l, f :| 0 <= l < |disk.descriptor.version.levels| && f in disk.descriptor.version.levels[l] && f.number == k;
      assert StoredFile(disk.tables, disk.descriptor.nextFile, f);
      assert NumberOf(TableFile(k)) == k;
    }
  }

  // ------------------------------------------------- deleting obsolete files

  predicate Keep(name: FileName, live: set<nat>, logNumber: nat, prevLogNumber: nat, manifest: nat) {
    match name
    case LogFile(n) => n >= logNumber || n == prevLogNumber
    case DescriptorFile(n) => n >= manifest
    case TableFile(n) => n in live
    case TempFile(n) => n in live
    case _ => true
  }

  /** DeleteObsoleteFiles, over the names found in the directory; `kept` are those left. */
  method DeleteObsoleteFiles(r: Running, names: seq<FileName>, live: set<nat>, manifest: nat)
    returns (disk: Disk, kept: seq<FileName>)
    requires forall n :: n in live <==> Live(r, n)
    requires 0 !in r.disk.logs
    requires forall n :: n in r.disk.logs ==> LogFile(n) in names
    requires forall n :: n in r.disk.tables ==> TableFile(n) in names
    ensures disk == if r.failed then r.disk else Collected(r)
    ensures forall name :: name in kept <==> name in names && (r.failed || Keep(name, live, r.logNumber, 0, manifest))
  {
    disk, kept := r.disk, names;
    if r.failed { return; }
    kept := [];
    for i := 0 to |names|
      invariant disk.descriptor == r.disk.descriptor && disk.logEnd == r.disk.logEnd
      invariant forall n :: n in disk.logs <==> n in r.disk.logs && (n >= r.logNumber || LogFile(n) !in names[..i])
      invariant forall n :: n in disk.logs ==> disk.logs[n] == r.disk.logs[n]
      invariant forall n :: n in disk.tables <==> n in r.disk.tables && (n in live || TableFile(n) !in names[..i])
      invariant forall n :: n in disk.tables ==> disk.tables[n] == r.disk.tables[n]
      invariant forall name :: name in kept <==> name in names[..i] && Keep(name, live, r.logNumber, 0, manifest)
    {
      assert names[..i + 1] == names[..i] + [names[i]];
      if Keep(names[i], live, r.logNumber, 0, manifest) {
        kept := kept + [names[i]];
      } else {
        match names[i]
        case LogFile(n) => disk := disk.(logs := disk.logs - {n});
        case TableFile(n) => disk := disk.(tables := disk.tables - {n});
        case _ =>
      }
    }
    assert names[..|names|] == names;
    assert disk.logs == Collected(r).logs && disk.tables == Collected(r).tables;
  }

  /** What a working database needs stays: its log and manifest, CURRENT, and each table it may read. */
  lemma NeededStays(r: Running, names: seq<FileName>, kept: seq<FileName>, live: set<nat>, manifest: nat)
    requires RunningInvariant(r) && forall n :: n in live <==> Live(r, n)
    requires forall name :: name in kept <==> name in names && (r.failed || Keep(name, live, r.logNumber, 0, manifest))
    ensures CurrentFile in names ==> CurrentFile in kept
    ensures DescriptorFile(manifest) in names ==> DescriptorFile(manifest) in kept
    ensures !r.job.Logged? && LogFile(r.logFile) in names ==> LogFile(r.logFile) in kept
    ensures forall f :: f in r.outs && TempFile(f.number) in names ==> TempFile(f.number) in kept
    ensures forall v, n ::
            v in [r.db.version] + r.pinned && InVersion(v, n) && TableFile(n) in names ==> TableFile(n) in kept
  {
    hide Db.Invariant, PartsOk, JobOk, OutsOk, HeldOk, DiskOk, ReplayLogs, Holds, InVersion;
    forall v, n | v in [r.db.version] + r.pinned && InVersion(v, n) ensures Live(r, n) {
    }
  }
}
