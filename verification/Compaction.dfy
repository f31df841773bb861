/** The merge loop of a compaction and what it preserves
    (db/db_impl.cc: DoCompactionWork; db/version_set.cc: Compaction::IsBaseLevelForKey). */
module Compactions {
  import opened DbFormat
  import opened Versions

  // -------------------------------------------------------- base-level test

  /** No table two or more levels down has `user` in its range: the test by full scan. */
  ghost predicate IsBaseLevel(v: Version, level: nat, user: UserKey)
    requires |v.levels| == NUM_LEVELS
  {
    forall l, f :: level + 2 <= l < NUM_LEVELS && f in v.levels[l] ==> !Covers(f, user)
  }

  /** The part of class Compaction that remembers how far the deeper levels were scanned. */
  class Compaction {
    const version: Version
    const level: nat
    var levelPtrs: seq<nat>

    constructor (version: Version, level: nat)
      requires Ordered(version)
      ensures this.version == version && this.level == level
      ensures Valid() && forall user :: ScannedUpTo(user)
    {
      this.version, this.level := version, level;
      levelPtrs := seq(NUM_LEVELS, _ => 0);
    }

    ghost predicate Valid()
      reads this
    {
      && Ordered(version)
      && |levelPtrs| == NUM_LEVELS
      && forall l :: 0 <= l < NUM_LEVELS ==> levelPtrs[l] <= |version.levels[l]|
    }

    /** Every file already passed ends before `user`. */
    ghost predicate ScannedUpTo(user: UserKey)
      requires Valid()
      reads this
    {
      forall l, i :: 0 <= l < NUM_LEVELS && 0 <= i < levelPtrs[l] ==> version.levels[l][i].largest.user < user
    }

    lemma ScannedFurther(user: UserKey, next: UserKey)
      requires Valid() && ScannedUpTo(user) && user <= next
      ensures ScannedUpTo(next)
    {
    }

    /** Over ascending keys the advancing pointers give the same answer as a full scan. */
    method IsBaseLevelForKey(user: UserKey) returns (base: bool)
      requires Valid() && ScannedUpTo(user)
      modifies this
      ensures Valid() && ScannedUpTo(user)
      ensures base <==> IsBaseLevel(version, level, user)
    {
      var lvl := level + 2;
      while lvl < NUM_LEVELS
        invariant level + 2 <= lvl
        invariant Valid() && ScannedUpTo(user)
        invariant forall l, f :: level + 2 <= l < lvl && l < NUM_LEVELS && f in version.levels[l] ==> !Covers(f, user)
      {
        var files := version.levels[lvl];
        while levelPtrs[lvl] < |files|
          invariant Valid() && ScannedUpTo(user)
          invariant forall i :: 0 <= i < levelPtrs[lvl] ==> !Covers(files[i], user)
          decreases |files| - levelPtrs[lvl]
        {
          var f := files[levelPtrs[lvl]];
          if user <= f.largest.user {
            if user >= f.smallest.user {
              assert f in files && Covers(f, user);
              return false;
            }
            break;
          }
          levelPtrs := levelPtrs[lvl := levelPtrs[lvl] + 1];
        }
        forall g | g in files ensures !Covers(g, user) {
          var i :| 0 <= i < |files| && files[i] == g;
          if i > levelPtrs[lvl] {
            SmallestUpToLargest(files[levelPtrs[lvl]]);
          }
        }
        lvl := lvl + 1;
      }
      return true;
    }
  }

  // -------------------------------------------------------------- the loop

  /** last_sequence_for_key when the loop reaches entry `i`. */
  function LastSequenceForKey(input: seq<Entry>, i: nat): nat
    requires i < |input|
  {
    if i > 0 && input[i - 1].key.user == input[i].key.user then input[i - 1].key.sequence else MAX_SEQUENCE
  }

  /** The two drop rules, for entry `i` of the merged input. */
  ghost predicate Dropped(input: seq<Entry>, i: nat, smallestSnapshot: nat, v: Version, level: nat)
    requires i < |input| && |v.levels| == NUM_LEVELS
  {
    || LastSequenceForKey(input, i) <= smallestSnapshot
    || (input[i].key.kind.TypeDeletion? && input[i].key.sequence <= smallestSnapshot
       && IsBaseLevel(v, level, input[i].key.user))
  }

  /** What the loop has kept of the first `n` entries. */
  ghost function Kept(input: seq<Entry>, n: nat, smallestSnapshot: nat, v: Version, level: nat): seq<Entry>
    requires n <= |input| && |v.levels| == NUM_LEVELS
  {
    if n == 0 then []
    else Kept(input, n - 1, smallestSnapshot, v, level) +
         (if Dropped(input, n - 1, smallestSnapshot, v, level) then [] else [input[n - 1]])
  }

  ghost function Flatten(outputs: seq<seq<Entry>>): seq<Entry> {
    if outputs == [] then [] else Flatten(outputs[..|outputs| - 1]) + outputs[|outputs| - 1]
  }

  lemma FlattenAppend(outputs: seq<seq<Entry>>, last: seq<Entry>)
    ensures Flatten(outputs + [last]) == Flatten(outputs) + last
  {
    assert (outputs + [last])[..|outputs|] == outputs;
  }

  /** The drop decision for entry `i`, with the loop's two variables as they stand before it. */
  method DropEntry(c: Compaction, input: seq<Entry>, i: nat, smallestSnapshot: nat, currentUserKey: Option<UserKey>,
                   lastSequenceForKey: nat)
    returns (drop: bool)
    requires i < |input| && c.Valid() && c.ScannedUpTo(input[i].key.user)
    requires currentUserKey == if i == 0 then None else Some(input[i - 1].key.user)
    requires i > 0 ==> lastSequenceForKey == input[i - 1].key.sequence
    modifies c
    ensures c.Valid() && c.ScannedUpTo(input[i].key.user)
    ensures drop <==> Dropped(input, i, smallestSnapshot, c.version, c.level)
  {
    var key := input[i].key;
    var last := lastSequenceForKey;
    if currentUserKey != Some(key.user) {
      last := MAX_SEQUENCE;
    }
    drop := false;
    if last <= smallestSnapshot {
      drop := true;
    } else if key.kind.TypeDeletion? && key.sequence <= smallestSnapshot {
      drop := c.IsBaseLevelForKey(key.user);
    }
  }

  ghost predicate NoneEmpty(outputs: seq<seq<Entry>>) {
    forall j :: 0 <= j < |outputs| ==> outputs[j] != []
  }

  /** FinishCompactionOutputFile, when an output is open. */
  method Finish(outputs: seq<seq<Entry>>, builder: seq<Entry>) returns (r: seq<seq<Entry>>)
    requires NoneEmpty(outputs)
    ensures Flatten(r) == Flatten(outputs) + builder && NoneEmpty(r)
  {
    r := outputs;
    if builder != [] {
      FlattenAppend(outputs, builder);
      r := outputs + [builder];
    }
  }

  /** One entry of the loop, once the drop decision is made. */
  method EmitEntry(outputs: seq<seq<Entry>>, builder: seq<Entry>, e: Entry, stopBefore: bool, drop: bool,
                   full: seq<Entry> -> bool)
    returns (outputs': seq<seq<Entry>>, builder': seq<Entry>)
    requires NoneEmpty(outputs)
    ensures NoneEmpty(outputs')
    ensures Flatten(outputs') + builder' == Flatten(outputs) + builder + if drop then [] else [e]
  {
    outputs', builder' := outputs, builder;
    if stopBefore && builder != [] {
      outputs' := Finish(outputs, builder);
      builder' := [];
    }
    if !drop {
      builder' := builder' + [e];
      if full(builder') {
        outputs' := Finish(outputs', builder');
        builder' := [];
      }
    }
  }

  /** DoCompactionWork. Where one output table ends and the next begins is up to
      `stopBefore` (ShouldStopBefore) and `full` (the built size against the limit). */
  method DoCompactionWork(c: Compaction, input: seq<Entry>, smallestSnapshot: nat, stopBefore: nat -> bool,
                          full: seq<Entry> -> bool)
    returns (outputs: seq<seq<Entry>>)
    requires c.Valid() && Sorted(input)
    requires input != [] ==> c.ScannedUpTo(input[0].key.user)
    modifies c
    ensures Flatten(outputs) == Kept(input, |input|, smallestSnapshot, c.version, c.level)
    ensures NoneEmpty(outputs)
  {
    outputs := [];
    var builder := [];
    var currentUserKey: Option<UserKey> := None;
    var lastSequenceForKey := MAX_SEQUENCE;
    for i := 0 to |input|
      invariant c.Valid() && NoneEmpty(outputs)
      invariant i < |input| ==> c.ScannedUpTo(input[i].key.user)
      invariant currentUserKey == if i == 0 then None else Some(input[i - 1].key.user)
      invariant i > 0 ==> lastSequenceForKey == input[i - 1].key.sequence
      invariant Flatten(outputs) + builder == Kept(input, i, smallestSnapshot, c.version, c.level)
    {
      var drop := DropEntry(c, input, i, smallestSnapshot, currentUserKey, lastSequenceForKey);
      outputs, builder := EmitEntry(outputs, builder, input[i], stopBefore(i), drop, full);
      currentUserKey := Some(input[i].key.user);
      lastSequenceForKey := input[i].key.sequence;
      if i + 1 < |input| {
        assert Less(input[i].key, input[i + 1].key);
        c.ScannedFurther(input[i].key.user, input[i + 1].key.user);
      }
    }
    outputs := Finish(outputs, builder);
  }
}
