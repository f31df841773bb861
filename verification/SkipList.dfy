/** The memtable's skip list: searches, insertion, and searches that run while an insertion is
    half done (db/skiplist.h). */
module SkipLists {
  import opened DbFormat

  const MAX_HEIGHT: nat := 12
  const HEAD: nat := 0

  /** All nodes: node 0 is head_, and a node's key is its rank in the comparator's order.
      next[l][x] is next_[l] of node x; None is the null pointer. */
  datatype Memory = Memory(keys: seq<int>, next: seq<seq<Option<nat>>>, maxHeight: nat) {
    predicate Shaped() {
      && |keys| > 0 && |next| == MAX_HEIGHT && 1 <= maxHeight <= MAX_HEIGHT
      && forall l :: 0 <= l < MAX_HEIGHT ==> |next[l]| == |keys|
    }

    function Next(x: nat, l: nat): Option<nat>
      requires Shaped() && x < |keys| && l < MAX_HEIGHT
    {
      next[l][x]
    }

    function SetNext(x: nat, l: nat, y: Option<nat>): (m: Memory)
      requires Shaped() && x < |keys| && l < MAX_HEIGHT
      ensures m.Shaped() && m.keys == keys && m.maxHeight == maxHeight
    {
      this.(next := next[l := next[l][x := y]])
    }

    /** NewNode: its links are not set yet. */
    function NewNode(key: int): (m: Memory)
      requires Shaped()
      ensures m.Shaped() && m.keys == keys + [key] && m.maxHeight == maxHeight
    {
      Memory(keys + [key], seq(MAX_HEIGHT, l requires 0 <= l < MAX_HEIGHT => next[l] + [None]), maxHeight)
    }

    /** Null is considered infinite. */
    predicate KeyIsAfterNode(key: int, n: Option<nat>)
      requires n.Some? ==> n.value < |keys|
    {
      n.Some? && keys[n.value] < key
    }
  }

  // --------------------------------------------------------- what is linked

  /** The node before position `k` of a list, and the one at it. */
  function Before(list: seq<nat>, k: nat): nat
    requires k <= |list|
  {
    if k == 0 then HEAD else list[k - 1]
  }

  function At(list: seq<nat>, k: nat): Option<nat> {
    if k < |list| then Some(list[k]) else None
  }

  /** Following the links of level `l` from the head visits exactly `list`, in key order. */
  ghost predicate Linked(m: Memory, l: nat, list: seq<nat>)
    requires m.Shaped() && l < MAX_HEIGHT
  {
    && (forall k :: 0 <= k < |list| ==> 0 < list[k] < |m.keys|)
    && (forall j, k :: 0 <= j < k < |list| ==> m.keys[list[j]] < m.keys[list[k]])
    && forall k :: 0 <= k <= |list| ==> m.next[l][Before(list, k)] == At(list, k)
  }

  ghost predicate NestedAt(lists: seq<seq<nat>>, l: nat)
    requires 0 < l < |lists|
  {
    forall x :: x in lists[l] ==> x in lists[l - 1]
  }

  /** Every level is a strictly sorted list, and each level's nodes are on the level below. */
  ghost predicate Valid(m: Memory, lists: seq<seq<nat>>) {
    && m.Shaped() && |lists| == MAX_HEIGHT
    && (forall l :: 0 <= l < MAX_HEIGHT ==> Linked(m, l, lists[l]))
    && (forall l :: 0 < l < MAX_HEIGHT ==> NestedAt(lists, l))
    && forall l :: m.maxHeight <= l < MAX_HEIGHT ==> lists[l] == []
  }

  ghost predicate OnLevel(lists: seq<seq<nat>>, l: nat, x: nat) {
    l < |lists| && (x == HEAD || x in lists[l])
  }

  lemma Empty(key: int)
    ensures Valid(Memory([key], seq(MAX_HEIGHT, _ => [None]), 1), seq(MAX_HEIGHT, _ => []))
  {
  }

  // -------------------------------------------------------------- searching

  /** A search for the first node not before `target`: at node `x` on `level`, or finished.
      `began` is what was on level 0 when it started. */
  datatype Search =
    | Looking(target: int, x: nat, level: nat, began: seq<nat>)
    | Found(target: int, node: Option<nat>, began: seq<nat>)

  /** One read of a link, and what the search makes of it. */
  function SearchStep(m: Memory, s: Search): Search
    requires m.Shaped() && s.Looking? && s.x < |m.keys| && s.level < MAX_HEIGHT
  {
    var next := m.Next(s.x, s.level);
    if next.Some? && next.value < |m.keys| && m.KeyIsAfterNode(s.target, next) then s.(x := next.value)
    else if s.level == 0 then Found(s.target, next, s.began)
    else s.(level := s.level - 1)
  }

  ghost predicate SearchOk(m: Memory, lists: seq<seq<nat>>, s: Search) {
    match s
    case Looking(target, x, level, began) =>
      && level < MAX_HEIGHT && x < |m.keys| && OnLevel(lists, level, x)
      && (x == HEAD || m.keys[x] < target)
      && |lists| > 0 && forall o :: o in began ==> o in lists[0]
    case Found(target, node, began) =>
      && (node.Some? ==> node.value < |m.keys| && m.keys[node.value] >= target)
      && forall o :: o in began ==> o < |m.keys| && (m.keys[o] >= target ==>
         node.Some? && m.keys[node.value] <= m.keys[o])
  }

  /** `node` is the earliest on level 0 with a key not before `target`. */
  ghost predicate IsEarliest(m: Memory, list: seq<nat>, target: int, node: Option<nat>)
    requires forall k :: 0 <= k < |list| ==> list[k] < |m.keys|
  {
    match node
    case None => forall o :: o in list ==> m.keys[o] < target
    case Some(n) =>
      n in list && m.keys[n] >= target && forall o :: o in list && m.keys[o] >= target ==> m.keys[n] <= m.keys[o]
  }

  lemma PositionOf(m: Memory, l: nat, list: seq<nat>, x: nat) returns (k: nat)
    requires m.Shaped() && l < MAX_HEIGHT && Linked(m, l, list) && (x == HEAD || x in list)
    ensures k <= |list| && Before(list, k) == x && m.next[l][x] == At(list, k)
  {
    if x == HEAD {
      k := 0;
    } else {
      var j :| 0 <= j < |list| && list[j] == x;
      k := j + 1;
    }
  }

  /** In every state of an insertion, a search step keeps its bearings, and its last read finds
      the earliest node with a key not before the target. */
  lemma SearchStepOk(m: Memory, lists: seq<seq<nat>>, s: Search)
    requires Valid(m, lists) && SearchOk(m, lists, s) && s.Looking?
    ensures SearchOk(m, lists, SearchStep(m, s))
    ensures SearchStep(m, s).Found? ==> IsEarliest(m, lists[0], s.target, SearchStep(m, s).node)
  {
    var list := lists[s.level];
    var k := PositionOf(m, s.level, list, s.x);
    var t := SearchStep(m, s);
    if k < |list| && m.keys[list[k]] < s.target {
      assert t == s.(x := list[k]);
    } else if s.level == 0 {
      assert t == Found(s.target, At(list, k), s.began);
      assert forall j :: 0 <= j < k ==> m.keys[list[j]] < s.target;
      forall o | o in list && m.keys[o] >= s.target ensures k < |list| && m.keys[list[k]] <= m.keys[o] {
        var j :| 0 <= j < |list| && list[j] == o;
      }
    } else {
      assert NestedAt(lists, s.level);
      assert t == s.(level := s.level - 1);
    }
  }

  // -------------------------------------------------------------- insertion

  /** What Insert has done so far: the node is linked on the levels below `linked`, and its
      own link on level `linked` has been set if `ready`. */
  datatype Insertion = Insertion(node: nat, height: nat, prev: seq<nat>, linked: nat, ready: bool)

  /** `p` is the last node on the level whose key is before `key`, and no key there equals it. */
  ghost predicate IsPrev(m: Memory, list: seq<nat>, key: int, p: nat)
    requires forall k :: 0 <= k < |list| ==> list[k] < |m.keys|
  {
    exists k :: 0 <= k <= |list| && PrevAt(m, list, key, p, k)
  }

  ghost predicate PrevAt(m: Memory, list: seq<nat>, key: int, p: nat, k: nat)
    requires k <= |list| && forall k :: 0 <= k < |list| ==> list[k] < |m.keys|
  {
    && Before(list, k) == p
    && (forall j :: 0 <= j < k ==> m.keys[list[j]] < key)
    && forall j :: k <= j < |list| ==> key < m.keys[list[j]]
  }

  ghost predicate InsertionOk(m: Memory, lists: seq<seq<nat>>, i: Insertion)
    requires Valid(m, lists)
  {
    && 0 < i.node < |m.keys| && i.linked < i.height <= m.maxHeight && |i.prev| >= i.height
    && (forall l :: 0 <= l < i.linked ==> i.node in lists[l])
    && (forall l :: i.linked <= l < MAX_HEIGHT ==> i.node !in lists[l])
    && (forall l :: i.linked <= l < i.height ==> IsPrev(m, lists[l], m.keys[i.node], i.prev[l]))
    && (i.ready ==> i.prev[i.linked] < |m.keys| && m.next[i.linked][i.node] == m.next[i.linked][i.prev[i.linked]])
  }

  /** x->NoBarrier_SetNext(i, prev[i]->NoBarrier_Next(i)): the node is not yet on the level. */
  lemma SetOwnLinkOk(m: Memory, lists: seq<seq<nat>>, i: Insertion)
    requires Valid(m, lists) && InsertionOk(m, lists, i) && !i.ready
    ensures i.prev[i.linked] < |m.keys|
    ensures var m' := m.SetNext(i.node, i.linked, m.Next(i.prev[i.linked], i.linked));
            Valid(m', lists) && InsertionOk(m', lists, i.(ready := true))
  {
    var l := i.linked;
    assert IsPrev(m, lists[l], m.keys[i.node], i.prev[l]);
    var k: nat :| k <= |lists[l]| && PrevAt(m, lists[l], m.keys[i.node], i.prev[l], k);
    var m' := m.SetNext(i.node, l, m.Next(i.prev[l], l));
    assert Linked(m', l, lists[l]) by {
      forall j | 0 <= j <= |lists[l]| ensures Before(lists[l], j) != i.node {
      }
    }
    forall h | 0 <= h < MAX_HEIGHT && h != l ensures Linked(m', h, lists[h]) {
      assert m'.next[h] == m.next[h];
    }
    forall h | l <= h < i.height ensures IsPrev(m', lists[h], m'.keys[i.node], i.prev[h]) {
      assert IsPrev(m, lists[h], m.keys[i.node], i.prev[h]);
      var q: nat :| q <= |lists[h]| && PrevAt(m, lists[h], m.keys[i.node], i.prev[h], q);
      assert PrevAt(m', lists[h], m'.keys[i.node], i.prev[h], q);
    }
  }

  function Inserted(list: seq<nat>, k: nat, x: nat): seq<nat>
    requires k <= |list|
  {
    list[..k] + [x] + list[k..]
  }

  lemma DistinctNodes(m: Memory, l: nat, list: seq<nat>)
    requires m.Shaped() && l < MAX_HEIGHT && Linked(m, l, list)
    ensures forall i, j :: 0 <= i < j <= |list| ==> Before(list, i) != Before(list, j)
  {
    forall i, j | 0 <= i < j <= |list| ensures Before(list, i) != Before(list, j) {
      if i > 0 { assert m.keys[list[i - 1]] < m.keys[list[j - 1]]; }
    }
  }

  lemma LinkedAfter(m: Memory, l: nat, list: seq<nat>, k: nat, x: nat)
    requires m.Shaped() && l < MAX_HEIGHT && Linked(m, l, list) && k <= |list| && x !in list && 0 < x < |m.keys|
    requires PrevAt(m, list, m.keys[x], Before(list, k), k) && m.next[l][x] == m.next[l][Before(list, k)]
    ensures Before(list, k) < |m.keys| && Linked(m.SetNext(Before(list, k), l, Some(x)), l, Inserted(list, k, x))
  {
    var after, p := Inserted(list, k, x), Before(list, k);
    var m' := m.SetNext(p, l, Some(x));
    DistinctNodes(m, l, list);
    assert p != x;
    forall j | 0 <= j <= |after| ensures m'.next[l][Before(after, j)] == At(after, j) {
      if j < k {
        assert Before(after, j) == Before(list, j) && At(after, j) == At(list, j);
      } else if j == k {
        assert Before(after, j) == p;
      } else if j == k + 1 {
        assert Before(after, j) == x && At(after, j) == At(list, k);
      } else {
        assert Before(after, j) == Before(list, j - 1) && At(after, j) == At(list, j - 1);
      }
    }
  }

  /** prev[i]->SetNext(i, x) */
  lemma PublishLinkOk(m: Memory, lists: seq<seq<nat>>, i: Insertion)
    requires Valid(m, lists) && InsertionOk(m, lists, i) && i.ready
    ensures StoreOk(m, lists, i)
    ensures var m', lists' := m.SetNext(i.prev[i.linked], i.linked, Some(i.node)), ListsAfter(m, lists, i);
            && Valid(m', lists')
            && (i.linked + 1 < i.height ==> InsertionOk(m', lists', i.(linked := i.linked + 1, ready := false)))
            && forall l, x :: 0 <= l < MAX_HEIGHT ==> (x in lists'[l] <==>
               x in lists[l] || (l == i.linked && x == i.node))
  {
    var l := i.linked;
    assert IsPrev(m, lists[l], m.keys[i.node], i.prev[l]);
    var q: nat :| q <= |lists[l]| && PrevAt(m, lists[l], m.keys[i.node], i.prev[l], q);
    assert Linked(m, l, lists[l]);
    var lists' := ListsAfter(m, lists, i);
    var k: nat :| k <= |lists[l]| && PrevAt(m, lists[l], m.keys[i.node], i.prev[l], k)
                  && lists' == lists[l := Inserted(lists[l], k, i.node)];
    LinkedAfter(m, l, lists[l], k, i.node);
    PublishedLists(m, lists, i, k, lists');
  }

  lemma PublishedLists(m: Memory, lists: seq<seq<nat>>, i: Insertion, k: nat, lists': seq<seq<nat>>)
    requires Valid(m, lists) && InsertionOk(m, lists, i) && i.ready && k <= |lists[i.linked]|
    requires lists' == lists[i.linked := Inserted(lists[i.linked], k, i.node)]
    requires Linked(m.SetNext(i.prev[i.linked], i.linked, Some(i.node)), i.linked, lists'[i.linked])
    ensures var m' := m.SetNext(i.prev[i.linked], i.linked, Some(i.node));
            && Valid(m', lists')
            && (i.linked + 1 < i.height ==> InsertionOk(m', lists', i.(linked := i.linked + 1, ready := false)))
    ensures forall l, x :: 0 <= l < MAX_HEIGHT ==> (x in lists'[l] <==> x in lists[l] || (l == i.linked && x == i.node))
  {
    var l := i.linked;
    var m' := m.SetNext(i.prev[l], l, Some(i.node));
    forall h | 0 <= h < MAX_HEIGHT && h != l ensures Linked(m', h, lists'[h]) {
      assert m'.next[h] == m.next[h];
    }
    forall h, x | 0 <= h < MAX_HEIGHT ensures x in lists'[h] <==> x in lists[h] || (h == l && x == i.node) {
    }
    forall h | 0 < h < MAX_HEIGHT ensures NestedAt(lists', h) {
      assert NestedAt(lists, h);
    }
    forall h | l + 1 <= h < i.height ensures IsPrev(m', lists'[h], m'.keys[i.node], i.prev[h]) {
      assert IsPrev(m, lists[h], m.keys[i.node], i.prev[h]);
      var q: nat :| q <= |lists[h]| && PrevAt(m, lists[h], m.keys[i.node], i.prev[h], q);
      assert PrevAt(m', lists'[h], m'.keys[i.node], i.prev[h], q);
    }
  }

  /** max_height_.store and NewNode: nothing is linked yet. */
  lemma NewNodeOk(m: Memory, lists: seq<seq<nat>>, key: int, height: nat, prev: seq<nat>)
    requires Valid(m, lists) && 1 <= height <= MAX_HEIGHT && |prev| >= height
    requires forall l :: 0 <= l < height ==> IsPrev(m, lists[l], key, prev[l])
    ensures var m' := m.(maxHeight := if height > m.maxHeight then height else m.maxHeight).NewNode(key);
            Valid(m', lists) && InsertionOk(m', lists, Insertion(|m.keys|, height, prev, 0, false))
  {
    var m' := m.(maxHeight := if height > m.maxHeight then height else m.maxHeight).NewNode(key);
    forall l | 0 <= l < MAX_HEIGHT ensures Linked(m', l, lists[l]) && |m.keys| !in lists[l] {
      assert Linked(m, l, lists[l]);
      assert forall k :: 0 <= k <= |lists[l]| ==> Before(lists[l], k) < |m.keys|;
    }
    forall l | 0 <= l < height ensures IsPrev(m', lists[l], m'.keys[|m.keys|], prev[l]) {
      var q: nat :| q <= |lists[l]| && PrevAt(m, lists[l], key, prev[l], q);
      assert PrevAt(m', lists[l], key, prev[l], q);
    }
  }

  // ------------------------------------------- searches beside an insertion

  datatype State = State(m: Memory, lists: seq<seq<nat>>, insertion: Option<Insertion>, searches: map<nat, Search>)

  datatype Step =
    | BeginInsert(key: int, height: nat, prev: seq<nat>)
    | SetOwnLink
    | PublishLink
    | StartSearch(id: nat, target: int, height: nat)
    | StepSearch(id: nat)

  /** The links and node numbers that a store touches exist. */
  ghost predicate StoreOk(m: Memory, lists: seq<seq<nat>>, i: Insertion) {
    && m.Shaped() && |lists| == MAX_HEIGHT && i.node < |m.keys| && i.linked < MAX_HEIGHT && i.linked < |i.prev|
    && i.prev[i.linked] < |m.keys| && InMemory(m, lists[i.linked])
  }

  ghost predicate InMemory(m: Memory, list: seq<nat>) {
    forall k :: 0 <= k < |list| ==> list[k] < |m.keys|
  }

  /** The node joins the list of its level behind prev[level]. */
  ghost function ListsAfter(m: Memory, lists: seq<seq<nat>>, i: Insertion): seq<seq<nat>>
    requires StoreOk(m, lists, i)
  {
    var list := lists[i.linked];
    if k: nat :| k <= |list| && PrevAt(m, list, m.keys[i.node], i.prev[i.linked], k) then
      lists[i.linked := Inserted(list, k, i.node)]
    else lists
  }

  ghost predicate Enabled(s: State, step: Step) {
    match step
    case BeginInsert(key, height, prev) =>
      && s.insertion.None? && 1 <= height <= MAX_HEIGHT && |prev| >= height && s.m.Shaped() && |s.lists| == MAX_HEIGHT
      && forall l :: 0 <= l < height ==> InMemory(s.m, s.lists[l]) && IsPrev(s.m, s.lists[l], key, prev[l])
    case SetOwnLink =>
      s.insertion.Some? && !s.insertion.value.ready && StoreOk(s.m, s.lists, s.insertion.value)
    case PublishLink =>
      s.insertion.Some? && s.insertion.value.ready && StoreOk(s.m, s.lists, s.insertion.value)
    case StartSearch(id, target, height) => s.m.Shaped() && 1 <= height <= s.m.maxHeight && |s.lists| > 0
    case StepSearch(id) =>
      id in s.searches && s.searches[id].Looking? && s.m.Shaped() && s.searches[id].x < |s.m.keys|
          && s.searches[id].level < MAX_HEIGHT
  }

  ghost function Next(s: State, step: Step): State
    requires Enabled(s, step)
  {
    match step
    case BeginInsert(key, height, prev) =>
      s.(m := s.m.(maxHeight := if height > s.m.maxHeight then height else s.m.maxHeight).NewNode(key),
         insertion := Some(Insertion(|s.m.keys|, height, prev, 0, false)))
    case SetOwnLink =>
      var i := s.insertion.value;
      s.(m := s.m.SetNext(i.node, i.linked, s.m.Next(i.prev[i.linked], i.linked)), insertion := Some(i.(ready := true)))
    case PublishLink =>
      var i := s.insertion.value;
      s.(m := s.m.SetNext(i.prev[i.linked], i.linked, Some(i.node)), lists := ListsAfter(s.m, s.lists, i),
         insertion := if i.linked + 1 < i.height then Some(i.(linked := i.linked + 1, ready := false)) else None)
    case StartSearch(id, target, height) =>
      s.(searches := s.searches[id := Looking(target, HEAD, height - 1, s.lists[0])])
    case StepSearch(id) =>
      s.(searches := s.searches[id := SearchStep(s.m, s.searches[id])])
  }

  ghost predicate Invariant(s: State) {
    && Valid(s.m, s.lists)
    && (s.insertion.Some? ==> InsertionOk(s.m, s.lists, s.insertion.value))
    && forall id :: id in s.searches ==> SearchOk(s.m, s.lists, s.searches[id])
  }

  /** What a search knows stays true when nodes and links are only added. */
  lemma SearchStays(m: Memory, lists: seq<seq<nat>>, m': Memory, lists': seq<seq<nat>>, s: Search)
    requires SearchOk(m, lists, s) && m.keys <= m'.keys && |lists| == |lists'| == MAX_HEIGHT
    requires forall l, x :: 0 <= l < MAX_HEIGHT && x in lists[l] ==> x in lists'[l]
    ensures SearchOk(m', lists', s)
  {
  }

  lemma OthersStay(s: State, m': Memory, lists': seq<seq<nat>>)
    requires Invariant(s) && s.m.keys <= m'.keys && |lists'| == MAX_HEIGHT
    requires forall l, x :: 0 <= l < MAX_HEIGHT && x in s.lists[l] ==> x in lists'[l]
    ensures forall id :: id in s.searches ==> SearchOk(m', lists', s.searches[id])
  {
    forall id | id in s.searches ensures SearchOk(m', lists', s.searches[id]) {
      SearchStays(s.m, s.lists, m', lists', s.searches[id]);
    }
  }

  /** After every single store of an insertion, and every read of a search, every level is
      sorted and nested, and every search has its bearings. */
  lemma StepKeepsInvariant(s: State, step: Step)
    requires Invariant(s) && Enabled(s, step)
    ensures Invariant(Next(s, step))
  {
    hide Valid, InsertionOk, SearchOk, Memory.NewNode, Memory.SetNext;
    var s' := Next(s, step);
    match step
    case BeginInsert(key, height, prev) =>
      BeginIsOk(s, key, height, prev);
      OthersStay(s, s'.m, s'.lists);
    case SetOwnLink =>
      SetOwnLinkOk(s.m, s.lists, s.insertion.value);
      OthersStay(s, s'.m, s'.lists);
    case PublishLink =>
      PublishLinkOk(s.m, s.lists, s.insertion.value);
      OthersStay(s, s'.m, s'.lists);
    case StartSearch(id, target, height) =>
      assert SearchOk(s.m, s.lists, Looking(target, HEAD, height - 1, s.lists[0])) by {
        SearchBegins(s.m, s.lists, target, height);
      }
    case StepSearch(id) =>
      SearchStepOk(s.m, s.lists, s.searches[id]);
  }

  lemma SearchBegins(m: Memory, lists: seq<seq<nat>>, target: int, height: nat)
    requires Valid(m, lists) && 1 <= height <= m.maxHeight
    ensures SearchOk(m, lists, Looking(target, HEAD, height - 1, lists[0]))
  {
  }

  lemma BeginIsOk(s: State, key: int, height: nat, prev: seq<nat>)
    requires Invariant(s) && Enabled(s, BeginInsert(key, height, prev))
    ensures Valid(Next(s, BeginInsert(key, height, prev)).m, s.lists)
    ensures InsertionOk(Next(s, BeginInsert(key, height, prev)).m, s.lists,
            Insertion(|s.m.keys|, height, prev, 0, false))
  {
    NewNodeOk(s.m, s.lists, key, height, prev);
  }

  /** An insertion that has begun can always take its next step. */
  lemma InsertionGoesOn(s: State)
    requires Invariant(s) && s.insertion.Some?
    ensures Enabled(s, if s.insertion.value.ready then PublishLink else SetOwnLink)
  {
    var i := s.insertion.value;
    assert IsPrev(s.m, s.lists[i.linked], s.m.keys[i.node], i.prev[i.linked]);
    assert Linked(s.m, i.linked, s.lists[i.linked]);
  }

  ghost predicate IsRun(states: seq<State>, steps: seq<Step>) {
    && |states| == |steps| + 1 && Invariant(states[0])
    && forall i :: 0 <= i < |steps| ==> Enabled(states[i], steps[i]) && states[i + 1] == Next(states[i], steps[i])
  }

  lemma {:induction false} RunKeepsInvariant(states: seq<State>, steps: seq<Step>, i: nat)
    requires IsRun(states, steps) && i < |states|
    ensures Invariant(states[i])
  {
    hide Invariant, Enabled, Next;
    if i > 0 {
      RunKeepsInvariant(states, steps, i - 1);
      StepKeepsInvariant(states[i - 1], steps[i - 1]);
    }
  }

  /** A search that finishes beside a running insertion finds the earliest node at the moment
      of its last read, and misses no node that was linked when it began. */
  lemma SearchFindsEarliest(s: State, id: nat)
    requires Invariant(s) && Enabled(s, StepSearch(id)) && Next(s, StepSearch(id)).searches[id].Found?
    ensures var f := Next(s, StepSearch(id)).searches[id];
            && (forall k :: 0 <= k < |s.lists[0]| ==> s.lists[0][k] < |s.m.keys|)
            && IsEarliest(s.m, s.lists[0], f.target, f.node)
            && (forall o :: o in s.searches[id].began ==> o < |s.m.keys|)
            && forall o :: o in s.searches[id].began && s.m.keys[o] >= f.target ==>
                 f.node.Some? && s.m.keys[f.node.value] <= s.m.keys[o]
  {
    SearchStepOk(s.m, s.lists, s.searches[id]);
  }

  // --------------------------------------------------------------- the class

  ghost function KeysOf(m: Memory, list: seq<nat>): set<int>
    requires InMemory(m, list)
  {
    set x | x in list :: m.keys[x]
  }

  class SkipList {
    var m: Memory
    /** The nodes on each level, in order. */
    ghost var lists: seq<seq<nat>>

    constructor ()
      ensures Ok() && Keys() == {}
    {
      m := Memory([0], seq(MAX_HEIGHT, _ => [None]), 1);
      lists := seq(MAX_HEIGHT, _ => []);
      new;
      Empty(0);
    }

    ghost predicate Ok()
      reads this
    {
      Valid(m, lists) && InMemory(m, lists[0])
    }

    ghost function Keys(): set<int>
      requires Ok()
      reads this
    {
      KeysOf(m, lists[0])
    }

    /** The first node not before `key`; `prev` gets the node before it on every level in use. */
    method FindGreaterOrEqual(key: int) returns (node: Option<nat>, prev: seq<nat>)
      requires Ok()
      ensures IsEarliest(m, lists[0], key, node)
      ensures |prev| == MAX_HEIGHT
      ensures forall l :: 0 <= l < m.maxHeight ==> InMemory(m, lists[l]) && AreBefore(m, lists[l], key, prev[l])
    {
      hide Valid, Standing, IsEarliest, AreBefore, InMemory;
      IsShaped(m, lists);
      var x: nat, level: nat := HEAD, m.maxHeight - 1;
      prev := seq(MAX_HEIGHT, _ => HEAD);
      ghost var k: nat := 0;
      StandsFirst(m, lists, level, key);
      while true
        invariant 0 <= level < m.maxHeight && |prev| == MAX_HEIGHT && Standing(m, lists, level, key, x, k)
        invariant k <= |lists[level]|
        invariant forall l :: level < l < m.maxHeight ==> InMemory(m, lists[l]) && AreBefore(m, lists[l], key, prev[l])
        decreases level, |lists[level]| - k
      {
        StandsSafely(m, lists, level, key, x, k);
        var next := m.Next(x, level);
        if m.KeyIsAfterNode(key, next) {
          StandsNext(m, lists, level, key, x, k);
          x := next.value;
          k := k + 1;
        } else {
          prev := prev[level := x];
          StandsLast(m, lists, level, key, x, k);
          if level == 0 {
            return next, prev;
          }
          k := StandsBelow(m, lists, level, key, x, k);
          level := level - 1;
        }
      }
    }

    /** The last node before `key`; the head if there is none. */
    method FindLessThan(key: int) returns (node: nat)
      requires Ok()
      ensures AreBefore(m, lists[0], key, node)
    {
      hide Valid, Standing, AreBefore, InMemory;
      IsShaped(m, lists);
      var x: nat, level: nat := HEAD, m.maxHeight - 1;
      ghost var k: nat := 0;
      StandsFirst(m, lists, level, key);
      while true
        invariant 0 <= level < m.maxHeight && Standing(m, lists, level, key, x, k) && k <= |lists[level]|
        decreases level, |lists[level]| - k
      {
        StandsSafely(m, lists, level, key, x, k);
        var next := m.Next(x, level);
        if next.None? || m.keys[next.value] >= key {
          if level == 0 {
            StandsLast(m, lists, 0, key, x, k);
            return x;
          }
          k := StandsBelow(m, lists, level, key, x, k);
          level := level - 1;
        } else {
          StandsNext(m, lists, level, key, x, k);
          x := next.value;
          k := k + 1;
        }
      }
    }

    /** The last node; the head if the list is empty. */
    method FindLast() returns (node: nat)
      requires Ok()
      ensures node == Before(lists[0], |lists[0]|)
    {
      var x: nat, level: nat := HEAD, m.maxHeight - 1;
      ghost var k: nat := 0;
      while true
        invariant 0 <= level < m.maxHeight
        invariant k <= |lists[level]| && x == Before(lists[level], k) && x < |m.keys|
        decreases level, |lists[level]| - k
      {
        assert Linked(m, level, lists[level]);
        var next := m.Next(x, level);
        if next.None? {
          if level == 0 {
            return x;
          }
          assert NestedAt(lists, level);
          assert k > 0 ==> x in lists[level];
          k := PositionOf(m, level - 1, lists[level - 1], x);
          level := level - 1;
        } else {
          x := next.value;
          k := k + 1;
        }
      }
    }

    method Contains(key: int) returns (found: bool)
      requires Ok()
      ensures found <==> key in Keys()
    {
      var x, prev := FindGreaterOrEqual(key);
      found := x.Some? && m.keys[x.value] == key;
    }

    /** `height` is what RandomHeight chose. After every store the levels are sorted and nested. */
    method Insert(key: int, height: nat)
      requires Ok() && key !in Keys() && 1 <= height <= MAX_HEIGHT
      modifies this
      ensures Ok() && Keys() == old(Keys()) + {key}
    {
      hide Valid, InsertionOk, IsPrev, AreBefore;
      IsShaped(m, lists);
      ghost var before, were := m, lists[0];
      var x: Option<nat>, prev: seq<nat> := FindGreaterOrEqual(key);
      var maxHeight := m.maxHeight;
      if height > maxHeight {
        for l := maxHeight to height
          invariant |prev| == MAX_HEIGHT && m == before && lists == old(lists)
          invariant forall h :: 0 <= h < m.maxHeight ==> InMemory(m, lists[h]) && AreBefore(m, lists[h], key, prev[h])
          invariant forall h :: m.maxHeight <= h < l ==> prev[h] == HEAD
        {
          prev := prev[l := HEAD];
        }
        maxHeight := height;
      }
      PrevsAre(m, lists, key, prev, height);
      NewNodeOk(m, lists, key, height, prev);
      var node := |m.keys|;
      m := m.(maxHeight := maxHeight).NewNode(key);
      for i := 0 to height
        invariant Valid(m, lists) && m.keys == before.keys + [key] && |lists| == MAX_HEIGHT && |prev| == MAX_HEIGHT
        invariant i < height ==> InsertionOk(m, lists, Insertion(node, height, prev, i, false))
        invariant forall o :: o in lists[0] <==> o in were || (i > 0 && o == node)
      {
        ghost var step := Insertion(node, height, prev, i, false);
        InRange(m, lists, step);
        SetOwnLinkOk(m, lists, step);
        m := m.SetNext(node, i, m.Next(prev[i], i));
        PublishLinkOk(m, lists, step.(ready := true));
        ghost var after := ListsAfter(m, lists, step.(ready := true));
        m := m.SetNext(prev[i], i, Some(node));
        lists := after;
      }
      OneMoreKey(before, were, m, lists, key);
    }
  }

  /** The nodes of the list up to `p` are before `key`, the others are not. */
  ghost predicate AreBefore(m: Memory, list: seq<nat>, key: int, p: nat)
    requires InMemory(m, list)
  {
    exists k: nat :: k <= |list| && BeforeAt(m, list, key, p, k)
  }

  ghost predicate BeforeAt(m: Memory, list: seq<nat>, key: int, p: nat, k: nat)
    requires InMemory(m, list) && k <= |list|
  {
    && Before(list, k) == p
    && (forall j :: 0 <= j < k ==> m.keys[list[j]] < key)
    && forall j :: k <= j < |list| ==> key <= m.keys[list[j]]
  }

  lemma StopsAt(m: Memory, l: nat, list: seq<nat>, key: int, x: nat, k: nat)
    requires m.Shaped() && l < MAX_HEIGHT && Linked(m, l, list) && k <= |list| && x == Before(list, k)
    requires forall j :: 0 <= j < k ==> m.keys[list[j]] < key
    requires k < |list| ==> m.keys[list[k]] >= key
    ensures AreBefore(m, list, key, x)
  {
    assert BeforeAt(m, list, key, x, k);
  }

  lemma EarliestAt(m: Memory, list: seq<nat>, key: int, k: nat)
    requires m.Shaped() && Linked(m, 0, list) && k <= |list|
    requires forall j :: 0 <= j < k ==> m.keys[list[j]] < key
    requires k < |list| ==> m.keys[list[k]] >= key
    ensures IsEarliest(m, list, key, At(list, k))
  {
    forall o | o in list && m.keys[o] >= key ensures k < |list| && m.keys[list[k]] <= m.keys[o] {
      var j :| 0 <= j < |list| && list[j] == o;
    }
  }

  /** A node met on one level is found again on the level below. */
  lemma DropDown(m: Memory, lists: seq<seq<nat>>, level: nat, lower: seq<nat>, key: int, x: nat, k: nat)
    returns (j: nat)
    requires Valid(m, lists) && 0 < level < MAX_HEIGHT && k <= |lists[level]| && x == Before(lists[level], k)
             && x < |m.keys|
    requires lower == lists[level - 1] && (k > 0 ==> m.keys[x] < key)
    ensures j <= |lower| && Before(lower, j) == x && InMemory(m, lower)
    ensures forall i :: 0 <= i < j ==> m.keys[lower[i]] < key
  {
    assert NestedAt(lists, level) && Linked(m, level, lists[level]) && Linked(m, level - 1, lower);
    assert k > 0 ==> x in lists[level];
    j := PositionOf(m, level - 1, lower, x);
    assert k == 0 ==> x == HEAD;
    if j > 0 {
      assert x == lower[j - 1] && x != HEAD;
    }
  }

  /** A search for `key` stands on node `x`, the k-th of its level; everything up to it is before `key`. */
  ghost predicate Standing(m: Memory, lists: seq<seq<nat>>, level: nat, key: int, x: nat, k: nat) {
    && Valid(m, lists) && level < MAX_HEIGHT && k <= |lists[level]|
    && x == Before(lists[level], k) && x < |m.keys|
    && forall j :: 0 <= j < k ==> m.keys[lists[level][j]] < key
  }

  lemma StandsFirst(m: Memory, lists: seq<seq<nat>>, level: nat, key: int)
    requires Valid(m, lists) && level < MAX_HEIGHT
    ensures Standing(m, lists, level, key, HEAD, 0)
  {
  }

  lemma StandsSafely(m: Memory, lists: seq<seq<nat>>, level: nat, key: int, x: nat, k: nat)
    requires Standing(m, lists, level, key, x, k)
    ensures m.Shaped() && |lists| == MAX_HEIGHT && level < MAX_HEIGHT && x < |m.keys|
    ensures m.Next(x, level).Some? ==> m.Next(x, level).value < |m.keys|
  {
    assert Linked(m, level, lists[level]);
  }

  lemma StandsNext(m: Memory, lists: seq<seq<nat>>, level: nat, key: int, x: nat, k: nat)
    requires Standing(m, lists, level, key, x, k)
    requires m.Shaped() && level < MAX_HEIGHT && x < |m.keys|
    requires var next := m.Next(x, level); next.Some? && next.value < |m.keys| && m.keys[next.value] < key
    ensures Standing(m, lists, level, key, m.Next(x, level).value, k + 1)
    ensures |lists| == MAX_HEIGHT && k + 1 <= |lists[level]|
  {
    assert Linked(m, level, lists[level]);
  }

  lemma StandsLast(m: Memory, lists: seq<seq<nat>>, level: nat, key: int, x: nat, k: nat)
    requires Standing(m, lists, level, key, x, k)
    requires m.Shaped() && level < MAX_HEIGHT && x < |m.keys|
    requires var next := m.Next(x, level); next.Some? ==> next.value < |m.keys| && m.keys[next.value] >= key
    ensures |lists| == MAX_HEIGHT && InMemory(m, lists[level]) && AreBefore(m, lists[level], key, x)
    ensures level == 0 ==> IsEarliest(m, lists[0], key, m.Next(x, 0))
  {
    assert Linked(m, level, lists[level]);
    StopsAt(m, level, lists[level], key, x, k);
    if level == 0 { EarliestAt(m, lists[0], key, k); }
  }

  lemma StandsBelow(m: Memory, lists: seq<seq<nat>>, level: nat, key: int, x: nat, k: nat) returns (j: nat)
    requires Standing(m, lists, level, key, x, k) && level > 0
    ensures Standing(m, lists, level - 1, key, x, j) && |lists| == MAX_HEIGHT && level < MAX_HEIGHT
            && j <= |lists[level - 1]|
  {
    assert Linked(m, level, lists[level]);
    j := DropDown(m, lists, level, lists[level - 1], key, x, k);
  }

  lemma PrevsAre(m: Memory, lists: seq<seq<nat>>, key: int, prev: seq<nat>, height: nat)
    requires Valid(m, lists) && InMemory(m, lists[0]) && key !in KeysOf(m, lists[0]) && height <= |prev|
             && height <= MAX_HEIGHT
    requires forall h :: 0 <= h < m.maxHeight ==>
             InMemory(m, lists[h]) && (h < height ==> AreBefore(m, lists[h], key, prev[h]))
    requires forall h :: m.maxHeight <= h < height ==> prev[h] == HEAD
    ensures forall h :: 0 <= h < height ==> InMemory(m, lists[h]) && IsPrev(m, lists[h], key, prev[h])
  {
    forall h | 0 <= h < height ensures InMemory(m, lists[h]) && IsPrev(m, lists[h], key, prev[h]) {
      if h < m.maxHeight {
        var k: nat :| k <= |lists[h]| && BeforeAt(m, lists[h], key, prev[h], k);
        forall j | k <= j < |lists[h]| ensures key < m.keys[lists[h][j]] {
          OnAllLevelsBelow(m, lists, h, lists[h][j]);
          assert m.keys[lists[h][j]] in KeysOf(m, lists[0]);
        }
        assert PrevAt(m, lists[h], key, prev[h], k);
      } else {
        assert lists[h] == [];
        assert PrevAt(m, lists[h], key, prev[h], 0);
      }
    }
  }

  lemma {:induction false} OnAllLevelsBelow(m: Memory, lists: seq<seq<nat>>, l: nat, x: nat)
    requires Valid(m, lists) && l < MAX_HEIGHT && x in lists[l]
    ensures x in lists[0]
  {
    if l > 0 {
      assert NestedAt(lists, l);
      OnAllLevelsBelow(m, lists, l - 1, x);
    }
  }

  lemma IsShaped(m: Memory, lists: seq<seq<nat>>)
    requires Valid(m, lists)
    ensures m.Shaped() && |lists| == MAX_HEIGHT
  {
  }

  lemma InRange(m: Memory, lists: seq<seq<nat>>, i: Insertion)
    requires Valid(m, lists) && InsertionOk(m, lists, i)
    ensures i.prev[i.linked] < |m.keys| && i.node < |m.keys| && m.Shaped() && i.linked < MAX_HEIGHT
            && i.linked < |i.prev|
  {
    assert IsPrev(m, lists[i.linked], m.keys[i.node], i.prev[i.linked]);
    assert Linked(m, i.linked, lists[i.linked]);
  }

  lemma OneMoreKey(before: Memory, were: seq<nat>, m: Memory, lists: seq<seq<nat>>, key: int)
    requires InMemory(before, were) && Valid(m, lists) && m.keys == before.keys + [key]
    requires forall o :: o in lists[0] <==> o in were || o == |before.keys|
    ensures InMemory(m, lists[0]) && KeysOf(m, lists[0]) == KeysOf(before, were) + {key}
  {
    assert Linked(m, 0, lists[0]);
    assert |before.keys| in lists[0];
    forall k ensures k in KeysOf(m, lists[0]) <==> k in KeysOf(before, were) + {key} {
      if x :| x in were && before.keys[x] == k {
        assert x in lists[0] && m.keys[x] == k;
      }
    }
  }
}
