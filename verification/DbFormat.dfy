/** Internal keys, entries and the meaning of a read (db/dbformat.h, db/dbformat.cc).

    The engine compares user keys only through the user-supplied comparator, so a
    user key is modelled by its rank in that total order. */
module DbFormat {
  type byte = x: int | 0 <= x < 256
  type Bytes = seq<byte>
  type UserKey = int

  datatype Option<+T> = None | Some(value: T)

  const NUM_LEVELS: nat := 7
  const MAX_MEM_COMPACT_LEVEL: nat := 2
  const MAX_SEQUENCE: nat := 0xFF_FFFF_FFFF_FFFF

  datatype ValueType = TypeDeletion | TypeValue

  function TypeCode(t: ValueType): nat {
    if t.TypeDeletion? then 0 else 1
  }

  datatype InternalKey = InternalKey(user: UserKey, sequence: nat, kind: ValueType)

  datatype Entry = Entry(key: InternalKey, value: Bytes)

  /** The number packed behind the user key: the sequence above eight bits of type. */
  function Tag(k: InternalKey): nat {
    k.sequence * 256 + TypeCode(k.kind)
  }

  /** Internal order: increasing user key, then decreasing tag. */
  predicate Less(a: InternalKey, b: InternalKey) {
    a.user < b.user || (a.user == b.user && Tag(a) > Tag(b))
  }

  /** The key a lookup of `user` at snapshot `s` seeks to. */
  function SeekKey(user: UserKey, s: nat): InternalKey {
    InternalKey(user, s, TypeValue)
  }

  ghost predicate Sorted(es: seq<Entry>) {
    forall i, j :: 0 <= i < j < |es| ==> Less(es[i].key, es[j].key)
  }

  /** The 56-bit limit that packing a sequence number asserts. */
  ghost predicate Bounded(es: seq<Entry>) {
    forall i :: 0 <= i < |es| ==> es[i].key.sequence <= MAX_SEQUENCE
  }

  ghost function SetOf(es: seq<Entry>): iset<Entry> {
    iset e | e in es
  }

  /** No two different entries carry the same user key and sequence number. */
  ghost predicate Unambiguous(es: iset<Entry>) {
    forall e, o :: e in es && o in es && e.key.user == o.key.user && e.key.sequence == o.key.sequence ==> e == o
  }

  /** For every user key, all of `a` is newer than all of `b`. */
  ghost predicate Newer(a: iset<Entry>, b: iset<Entry>) {
    forall e, o :: e in a && o in b && e.key.user == o.key.user ==> e.key.sequence > o.key.sequence
  }

  /** `e` is what snapshot `s` sees of `user`: its newest entry not after `s`. */
  ghost predicate IsNewest(es: iset<Entry>, user: UserKey, s: nat, e: Entry) {
    && e in es
    && e.key.user == user
    && e.key.sequence <= s
    && forall o :: o in es && o.key.user == user && o.key.sequence <= s ==> o.key.sequence <= e.key.sequence
  }

  /** The meaning of a read: the newest visible entry decides, and a deletion hides. */
  ghost function Read(es: iset<Entry>, user: UserKey, s: nat): Option<Bytes> {
    if e :| IsNewest(es, user, s, e) && e.key.kind.TypeValue? then Some(e.value) else None
  }

  lemma ReadIs(es: iset<Entry>, user: UserKey, s: nat, e: Entry)
    requires Unambiguous(es) && IsNewest(es, user, s, e)
    ensures Read(es, user, s) == if e.key.kind.TypeValue? then Some(e.value) else None
  {
  }
}
