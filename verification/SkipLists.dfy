/** The skip list: one writer that publishes a node level by level, and readers whose hops interleave
    with its link writes. Nodes are named by their place in the arena; node 0 is the head. */
module SkipLists {
  import opened Keys

  const MAX_HEIGHT: nat := 12
  const HEAD: nat := 0

  /** A node of height |next|; a key is known by its rank under the comparator. */
  datatype Node = Node(key: int, next: seq<Option<nat>>)

  type Arena = seq<Node>

  /** For each level, the nodes published there. */
  type Links = s: seq<set<nat>> | |s| == MAX_HEIGHT witness seq(MAX_HEIGHT, _ => {})

  function KeyOf(a: Arena, n: nat): int {
    if n < |a| then a[n].key else 0
  }

  function Height(a: Arena, n: nat): nat {
    if n < |a| then |a[n].next| else 0
  }

  function NextOf(a: Arena, n: nat, l: nat): Option<nat> {
    if l < Height(a, n) then a[n].next[l] else None
  }

  /** m comes after n; everything comes after the head. */
  predicate After(a: Arena, n: nat, m: nat) {
    n == HEAD || KeyOf(a, n) < KeyOf(a, m)
  }

  /** r is the first of the nodes s after n. */
  ghost predicate IsNext(a: Arena, s: set<nat>, n: nat, r: Option<nat>) {
    match r
    case None => forall m :: m in s ==> !After(a, n, m)
    case Some(q) => q in s && After(a, n, q) && forall m :: m in s && After(a, n, m) ==> KeyOf(a, q) <= KeyOf(a, m)
  }

  /** Following the links of a level from the head visits its nodes s in key order. */
  ghost predicate LevelOk(a: Arena, s: set<nat>, l: nat) {
    l < Height(a, HEAD) && (forall n :: n in s ==> HEAD < n < |a| && l < Height(a, n)) &&
    forall n :: n == HEAD || n in s ==> IsNext(a, s, n, NextOf(a, n, l))
  }

  ghost predicate DistinctKeys(a: Arena, s: set<nat>) {
    forall n, m :: n in s && m in s && KeyOf(a, n) == KeyOf(a, m) ==> n == m
  }

  /** Each level is sorted and a sublist of the level below. */
  ghost predicate ListOk(a: Arena, maxHeight: nat, links: Links) {
    1 <= maxHeight <= MAX_HEIGHT && DistinctKeys(a, links[0]) &&
    (forall l :: maxHeight <= l < MAX_HEIGHT ==> links[l] == {}) &&
    (forall l :: 0 <= l < MAX_HEIGHT - 1 ==> links[l + 1] <= links[l]) &&
    forall l :: 0 <= l < MAX_HEIGHT ==> LevelOk(a, links[l], l)
  }

  lemma {:induction false} LowerLevelsHoldMore(links: Links, x: nat, y: nat)
    requires x <= y < MAX_HEIGHT && forall l :: 0 <= l < MAX_HEIGHT - 1 ==> links[l + 1] <= links[l]
    ensures links[y] <= links[x]
  {
    if x < y {
      LowerLevelsHoldMore(links, x, y - 1);
      assert links[y - 1 + 1] <= links[y - 1];
    }
  }

  // ------------------------------------------------------------ link writes

  function SetNext(a: Arena, n: nat, l: nat, r: Option<nat>): Arena
    requires l < Height(a, n)
  {
    a[n := a[n].(next := a[n].next[l := r])]
  }

  lemma SetNextChanges(a: Arena, n: nat, l: nat, r: Option<nat>)
    requires l < Height(a, n)
    ensures var a' := SetNext(a, n, l, r);
      |a'| == |a| && (forall m: nat :: KeyOf(a', m) == KeyOf(a, m) && Height(a', m) == Height(a, m)) &&
      forall m: nat, k: nat :: NextOf(a', m, k) == if m == n && k == l then r else NextOf(a, m, k)
  {
  }

  /** Nodes keep their keys and heights, and no level loses a node. */
  ghost predicate Grows(a: Arena, links: Links, a': Arena, links': Links) {
    |a| <= |a'| && (forall n: nat :: n < |a| ==> KeyOf(a', n) == KeyOf(a, n) && Height(a', n) == Height(a, n)) &&
    forall l :: 0 <= l < MAX_HEIGHT ==> links[l] <= links'[l]
  }

  /** Node x belongs right after p at level l. */
  ghost predicate PlaceFor(a: Arena, s: set<nat>, x: nat, p: nat, l: nat) {
    (p == HEAD || p in s) && After(a, p, x) && (NextOf(a, p, l).Some? ==> KeyOf(a, x) < KeyOf(a, NextOf(a, p, l).value))
  }

  lemma SameLevel(a: Arena, a': Arena, s: set<nat>, l: nat)
    requires LevelOk(a, s, l) && 0 < |a| <= |a'|
    requires forall n: nat :: n < |a| ==> KeyOf(a', n) == KeyOf(a, n) && Height(a', n) == Height(a, n)
    requires forall n: nat :: n == HEAD || n in s ==> NextOf(a', n, l) == NextOf(a, n, l)
    ensures LevelOk(a', s, l)
  {
    hide KeyOf, Height, NextOf;
    forall n | n == HEAD || n in s ensures IsNext(a', s, n, NextOf(a', n, l)) {
      assert IsNext(a, s, n, NextOf(a, n, l));
    }
  }

  /** The link of a node not yet published at its level does not touch the list. */
  lemma UnpublishedWrite(a: Arena, maxHeight: nat, links: Links, x: nat, l: nat, r: Option<nat>)
    requires ListOk(a, maxHeight, links) && HEAD < x && l < Height(a, x) && l < MAX_HEIGHT && x !in links[l]
    ensures ListOk(SetNext(a, x, l, r), maxHeight, links) && Grows(a, links, SetNext(a, x, l, r), links)
  {
    hide KeyOf, Height, NextOf, LevelOk, SetNext;
    SetNextChanges(a, x, l, r);
    forall k | 0 <= k < MAX_HEIGHT ensures LevelOk(SetNext(a, x, l, r), links[k], k) {
      LevelMembers(a, links[k], k);
      SameLevel(a, SetNext(a, x, l, r), links[k], k);
    }
  }

  lemma LevelMembers(a: Arena, s: set<nat>, l: nat)
    requires LevelOk(a, s, l)
    ensures l < Height(a, HEAD) && |a| > 0 && forall n :: n in s ==> HEAD < n < |a| && l < Height(a, n)
  {
  }

  /** Publishing x after p, once its own link is set. */
  lemma PublishedLevel(a: Arena, s: set<nat>, x: nat, p: nat, l: nat)
    requires LevelOk(a, s, l) && DistinctKeys(a, s) && HEAD < x < |a| && l < Height(a, x) && l < Height(a, p)
    requires PlaceFor(a, s, x, p, l) && NextOf(a, x, l) == NextOf(a, p, l)
    requires forall m :: m in s ==> KeyOf(a, m) != KeyOf(a, x)
    ensures LevelOk(SetNext(a, p, l, Some(x)), s + {x}, l) && DistinctKeys(SetNext(a, p, l, Some(x)), s + {x})
  {
    hide KeyOf, Height, NextOf, SetNext;
    var a' := SetNext(a, p, l, Some(x));
    SetNextChanges(a, p, l, Some(x));
    assert IsNext(a, s, p, NextOf(a, p, l));
    forall n | n == HEAD || n in s + {x} ensures IsNext(a', s + {x}, n, NextOf(a', n, l)) {
      if n != x { assert IsNext(a, s, n, NextOf(a, n, l)); }
      var r := NextOf(a', n, l);
      assert r == if n == p then Some(x) else if n == x then NextOf(a, p, l) else NextOf(a, n, l);
      if n == x {
        NextAfterNew(a, s, x, p, r);
      } else if n == p {
        NextBeforeNew(a, s, x, p, NextOf(a, p, l));
      } else {
        NextElsewhere(a, s, x, p, n, NextOf(a, p, l), r);
      }
      SameKeysNext(a, a', s + {x}, n, r);
    }
  }

  lemma SameKeysNext(a: Arena, a': Arena, s: set<nat>, n: nat, r: Option<nat>)
    requires IsNext(a, s, n, r) && forall m: nat :: KeyOf(a', m) == KeyOf(a, m)
    ensures IsNext(a', s, n, r)
  {
    hide KeyOf;
  }

  lemma NextAfterNew(a: Arena, s: set<nat>, x: nat, p: nat, r: Option<nat>)
    requires HEAD < x && IsNext(a, s, p, r) && After(a, p, x) && (r.Some? ==> KeyOf(a, x) < KeyOf(a, r.value))
    ensures IsNext(a, s + {x}, x, r)
  {
    hide KeyOf;
  }

  lemma NextBeforeNew(a: Arena, s: set<nat>, x: nat, p: nat, r: Option<nat>)
    requires HEAD < x && IsNext(a, s, p, r) && After(a, p, x) && (r.Some? ==> KeyOf(a, x) < KeyOf(a, r.value))
    ensures IsNext(a, s + {x}, p, Some(x))
  {
    hide KeyOf;
  }

  lemma NextElsewhere(a: Arena, s: set<nat>, x: nat, p: nat, n: nat, q: Option<nat>, r: Option<nat>)
    requires HEAD < x && n != p && (p == HEAD || p in s) && (n == HEAD || n in s) && DistinctKeys(a, s) && HEAD !in s
    requires IsNext(a, s, p, q) && IsNext(a, s, n, r) && After(a, p, x) && (q.Some? ==> KeyOf(a, x) < KeyOf(a, q.value))
    ensures IsNext(a, s + {x}, n, r)
  {
    hide KeyOf;
    if n == HEAD {
      assert r.Some? && KeyOf(a, r.value) <= KeyOf(a, p);
    } else if p != HEAD && KeyOf(a, n) < KeyOf(a, p) {
      assert r.Some? && KeyOf(a, r.value) <= KeyOf(a, p);
    } else {
      assert After(a, p, n);
    }
  }

  lemma PublishingWrite(a: Arena, maxHeight: nat, links: Links, x: nat, p: nat, l: nat)
    requires ListOk(a, maxHeight, links) && l < maxHeight && HEAD < x < |a| && l < Height(a, x) && x !in links[l]
    requires PlaceFor(a, links[l], x, p, l) && NextOf(a, x, l) == NextOf(a, p, l)
    requires if l == 0 then forall n :: n in links[0] ==> KeyOf(a, n) != KeyOf(a, x) else x in links[l - 1]
    ensures l < Height(a, p)
    ensures var links' := links[l := links[l] + {x}];
      ListOk(SetNext(a, p, l, Some(x)), maxHeight, links') && Grows(a, links, SetNext(a, p, l, Some(x)), links')
  {
    hide KeyOf, Height, NextOf, LevelOk, SetNext, DistinctKeys;
    LevelMembers(a, links[l], l);
    LowerLevelsHoldMore(links, 0, l);
    if l > 0 { LowerLevelsHoldMore(links, 0, l - 1); }
    KeysApart(a, links, x, l);
    var a', links' := SetNext(a, p, l, Some(x)), links[l := links[l] + {x}];
    SetNextChanges(a, p, l, Some(x));
    PublishedLevel(a, links[l], x, p, l);
    if l > 0 { SameKeysDistinct(a, a', links[0]); }
    forall k | 0 <= k < MAX_HEIGHT ensures LevelOk(a', links'[k], k) {
      if k != l {
        LevelMembers(a, links[k], k);
        SameLevel(a, a', links[k], k);
      }
    }
    forall k | 0 <= k < MAX_HEIGHT - 1 ensures links'[k + 1] <= links'[k] { assert links[k + 1] <= links[k]; }
  }

  lemma SameKeysDistinct(a: Arena, a': Arena, s: set<nat>)
    requires DistinctKeys(a, s) && forall m: nat :: KeyOf(a', m) == KeyOf(a, m)
    ensures DistinctKeys(a', s)
  {
    hide KeyOf;
  }

  /** A node in no list at level l shares its key with no node there. */
  lemma KeysApart(a: Arena, links: Links, x: nat, l: nat)
    requires l < MAX_HEIGHT && x !in links[l] && links[l] <= links[0] && DistinctKeys(a, links[0])
    requires x in links[0] || forall n :: n in links[0] ==> KeyOf(a, n) != KeyOf(a, x)
    ensures DistinctKeys(a, links[l]) && forall m :: m in links[l] ==> KeyOf(a, m) != KeyOf(a, x)
  {
    hide KeyOf;
  }

  // ------------------------------------------------------------ the writer, one write at a time

  /** An insertion under way: its node, the nodes it goes after, the level it has reached, and
      whether its own link at that level is set. */
  datatype Insertion = Insertion(node: nat, prev: seq<nat>, level: nat, linked: bool)

  /** What readers and the writer share, with the writer's progress. */
  datatype List = List(arena: Arena, maxHeight: nat, links: Links, ins: Option<Insertion>)

  datatype Write = BeginInsert(key: int, prev: seq<nat>, height: nat) | OwnLink | Publish

  /** prev holds, for each level up to the height, the last node before the key. */
  ghost predicate PrevOk(a: Arena, links: Links, key: int, prev: seq<nat>, height: nat) {
    height <= |prev| && height <= MAX_HEIGHT && forall l :: 0 <= l < height ==> LastBefore(a, links[l], key, prev[l])
  }

  ghost predicate LastBefore(a: Arena, s: set<nat>, key: int, p: nat) {
    (p == HEAD || (p in s && KeyOf(a, p) < key)) && forall n :: n in s && After(a, p, n) ==> KeyOf(a, n) >= key
  }

  ghost predicate Fresh(a: Arena, s: set<nat>, key: int) {
    forall n :: n in s ==> KeyOf(a, n) != key
  }

  function Larger(x: nat, y: nat): nat {
    if x < y then y else x
  }

  /** One atomic write of Insert. */
  ghost predicate WriteStep(x: List, y: List, w: Write) {
    match w
    case BeginInsert(key, prev, height) =>
      x.ins.None? && 1 <= height && Fresh(x.arena, x.links[0], key) && PrevOk(x.arena, x.links, key, prev, height) &&
      y == List(x.arena + [Node(key, seq(height, _ => None))], Larger(x.maxHeight, height), x.links,
                Some(Insertion(|x.arena|, prev, 0, false)))
    case OwnLink =>
      x.ins.Some? && !x.ins.value.linked &&
      var i := x.ins.value;
      i.level < Height(x.arena, i.node) && i.level < |i.prev| &&
      y == x.(arena := SetNext(x.arena, i.node, i.level, NextOf(x.arena, i.prev[i.level], i.level)),
              ins := Some(i.(linked := true)))
    case Publish =>
      x.ins.Some? && x.ins.value.linked &&
      var i := x.ins.value;
      var l := i.level;
      l < |i.prev| && l < Height(x.arena, i.prev[l]) && l < MAX_HEIGHT &&
      y == List(SetNext(x.arena, i.prev[l], l, Some(i.node)), x.maxHeight, x.links[l := x.links[l] + {i.node}],
                if l + 1 == Height(x.arena, i.node) then None else Some(i.(level := l + 1, linked := false)))
  }

  ghost predicate InsertionOk(a: Arena, maxHeight: nat, links: Links, i: Insertion) {
    HEAD < i.node < |a| && i.level < Height(a, i.node) <= maxHeight <= MAX_HEIGHT && Height(a, i.node) <= |i.prev| &&
    (forall l :: 0 <= l < MAX_HEIGHT ==> (i.node in links[l] <==> l < i.level)) &&
    (i.level == 0 ==> Fresh(a, links[0], KeyOf(a, i.node))) &&
    (forall l :: i.level <= l < Height(a, i.node) ==> PlaceFor(a, links[l], i.node, i.prev[l], l)) &&
    (i.linked ==> NextOf(a, i.node, i.level) == NextOf(a, i.prev[i.level], i.level))
  }

  ghost predicate Ok(x: List) {
    ListOk(x.arena, x.maxHeight, x.links) && (x.ins.Some? ==> InsertionOk(x.arena, x.maxHeight, x.links, x.ins.value))
  }

  lemma AppendedNode(a: Arena, n: Node)
    ensures Height(a + [n], |a|) == |n.next| && KeyOf(a + [n], |a|) == n.key
    ensures forall m: nat :: m < |a| ==> KeyOf(a + [n], m) == KeyOf(a, m) && Height(a + [n], m) == Height(a, m)
    ensures forall m: nat, l: nat :: m < |a| ==> NextOf(a + [n], m, l) == NextOf(a, m, l)
  {
  }

  lemma BeginKeeps(x: List, y: List, key: int, prev: seq<nat>, height: nat)
    requires Ok(x) && WriteStep(x, y, BeginInsert(key, prev, height))
    ensures Ok(y) && Grows(x.arena, x.links, y.arena, y.links)
  {
    hide KeyOf, Height, NextOf, LevelOk, SetNext;
    var a, b := x.arena, y.arena;
    AppendedNode(a, Node(key, seq(height, _ => None)));
    LevelMembers(a, x.links[0], 0);
    forall l | 0 <= l < MAX_HEIGHT ensures LevelOk(b, x.links[l], l) && |a| !in x.links[l] {
      assert LevelOk(a, x.links[l], l);
      LevelMembers(a, x.links[l], l);
      SameLevel(a, b, x.links[l], l);
    }
    forall n | n in x.links[0] ensures KeyOf(b, n) == KeyOf(a, n) { LevelMembers(a, x.links[0], 0); }
    forall l | 0 <= l < height ensures PlaceFor(b, x.links[l], |a|, prev[l], l) {
      assert LevelOk(a, x.links[l], l) && LastBefore(a, x.links[l], key, prev[l]);
      LowerLevelsHoldMore(x.links, 0, l);
      PlaceOfPrev(a, b, x.links[l], key, prev[l], l);
    }
  }

  lemma PlaceOfPrev(a: Arena, b: Arena, s: set<nat>, key: int, p: nat, l: nat)
    requires LevelOk(a, s, l) && LastBefore(a, s, key, p) && Fresh(a, s, key) && |b| == |a| + 1 && KeyOf(b, |a|) == key
    requires forall m: nat :: m < |a| ==> KeyOf(b, m) == KeyOf(a, m)
    requires forall m: nat, l: nat :: m < |a| ==> NextOf(b, m, l) == NextOf(a, m, l)
    ensures PlaceFor(b, s, |a|, p, l)
  {
    hide KeyOf, NextOf;
    LevelMembers(a, s, l);
    assert IsNext(a, s, p, NextOf(a, p, l));
  }

  lemma OwnLinkKeeps(x: List, y: List)
    requires Ok(x) && WriteStep(x, y, OwnLink)
    ensures Ok(y) && Grows(x.arena, x.links, y.arena, y.links)
  {
    hide KeyOf, Height, NextOf, ListOk, SetNext, Grows;
    var i, a := x.ins.value, x.arena;
    var r := NextOf(a, i.prev[i.level], i.level);
    SetNextChanges(a, i.node, i.level, r);
    UnpublishedWrite(a, x.maxHeight, x.links, i.node, i.level, r);
    forall l | i.level <= l < Height(a, i.node) ensures PlaceFor(y.arena, x.links[l], i.node, i.prev[l], l) {
      assert PlaceFor(a, x.links[l], i.node, i.prev[l], l);
    }
  }

  lemma PublishKeeps(x: List, y: List)
    requires Ok(x) && WriteStep(x, y, Publish)
    ensures Ok(y) && Grows(x.arena, x.links, y.arena, y.links)
  {
    hide KeyOf, Height, NextOf, ListOk, SetNext, Grows, DistinctKeys;
    var i, a := x.ins.value, x.arena;
    var p, l := i.prev[i.level], i.level;
    SetNextChanges(a, p, l, Some(i.node));
    PublishingWrite(a, x.maxHeight, x.links, i.node, p, l);
    forall k | l + 1 <= k < Height(a, i.node) ensures PlaceFor(y.arena, y.links[k], i.node, i.prev[k], k) {
      assert PlaceFor(a, x.links[k], i.node, i.prev[k], k);
    }
  }

  /** After every single write each level is sorted, a sublist of the one below, and has lost nothing. */
  lemma WriteKeeps(x: List, y: List, w: Write)
    requires Ok(x) && WriteStep(x, y, w)
    ensures Ok(y) && Grows(x.arena, x.links, y.arena, y.links)
  {
    hide Ok, Grows, SetNext, Height, KeyOf, NextOf;
    match w
    case BeginInsert(key, prev, height) => BeginKeeps(x, y, key, prev, height);
    case OwnLink => OwnLinkKeeps(x, y);
    case Publish => PublishKeeps(x, y);
  }

  // ------------------------------------------------------------ readers

  /** A search between two of its hops. FindGreaterOrEqual and FindLessThan take the same path, one to
      report the last link it reads and the other the node it ends on; FindLast has no target. */
  datatype Search = Search(target: Option<int>, node: nat, level: nat, done: bool, result: Option<nat>)

  /** The reader starts at the head, at the height it happens to read. */
  function StartSearch(target: Option<int>, height: nat): Search
    requires height >= 1
  {
    Search(target, HEAD, height - 1, false, None)
  }

  predicate KeyIsAfterNode(a: Arena, key: int, n: Option<nat>) {
    n.Some? && KeyOf(a, n.value) < key
  }

  /** Before the target, if there is one. */
  predicate Short(a: Arena, target: Option<int>, n: nat) {
    target.Some? ==> KeyOf(a, n) < target.value
  }

  /** One turn of the search loop: one link is read. */
  function Hop(a: Arena, s: Search): Search {
    var next := NextOf(a, s.node, s.level);
    if s.done then s
    else if next.Some? && Short(a, s.target, next.value) then s.(node := next.value)
    else if s.level == 0 then s.(done := true, result := next)
    else s.(level := s.level - 1)
  }

  /** r is the first of the nodes `current` at or after the target, and no node of `present` comes before. */
  ghost predicate FirstAtOrAfter(a: Arena, present: set<nat>, current: set<nat>, target: int, r: Option<nat>) {
    match r
    case None => forall m :: m in present ==> KeyOf(a, m) < target
    case Some(q) =>
      q in current && KeyOf(a, q) >= target &&
      forall m :: m in present && KeyOf(a, m) >= target ==> KeyOf(a, q) <= KeyOf(a, m)
  }

  /** x is the head or one of the nodes `current` before the target, and no node of `present` lies between
      it and the target. */
  ghost predicate LastShort(a: Arena, present: set<nat>, current: set<nat>, target: Option<int>, x: nat) {
    (x == HEAD || (x in current && Short(a, target, x))) && forall m :: m in present && Short(a, target, m) ==> !After(a, x, m)
  }

  ghost predicate SearchOk(a: Arena, links: Links, present: set<nat>, s: Search) {
    s.level < MAX_HEIGHT && present <= links[0] && (s.done ==> s.level == 0) &&
    (s.node == HEAD || (s.node in links[s.level] && Short(a, s.target, s.node))) &&
    (s.done ==> LastShort(a, present, links[0], s.target, s.node)) &&
    (s.done && s.target.Some? ==> FirstAtOrAfter(a, present, links[0], s.target.value, s.result))
  }

  /** A search stands its ground while the writer writes. */
  lemma SearchSurvives(a: Arena, links: Links, a': Arena, links': Links, present: set<nat>, s: Search)
    requires Grows(a, links, a', links') && SearchOk(a, links, present, s)
    requires forall l, n :: 0 <= l < MAX_HEIGHT && n in links[l] ==> n < |a|
    ensures SearchOk(a', links', present, s)
  {
    hide KeyOf, Height;
    assert forall n :: n in links[0] ==> n < |a|;
    assert links[0] <= links'[0] && links[s.level] <= links'[s.level];
  }

  lemma HopKeeps(a: Arena, maxHeight: nat, links: Links, present: set<nat>, s: Search)
    requires ListOk(a, maxHeight, links) && SearchOk(a, links, present, s)
    ensures SearchOk(a, links, present, Hop(a, s))
  {
    hide KeyOf, Height, NextOf, DistinctKeys;
    if !s.done {
      assert LevelOk(a, links[s.level], s.level);
      assert IsNext(a, links[s.level], s.node, NextOf(a, s.node, s.level));
      if s.level > 0 { assert links[s.level - 1 + 1] <= links[s.level - 1]; }
    }
  }

  /** A run in which writes of the writer and hops of one reader interleave. */
  ghost predicate Interleaved(lists: seq<List>, searches: seq<Search>) {
    |lists| == |searches| > 0 && Ok(lists[0]) &&
    forall i :: 0 <= i < |lists| - 1 ==> Turn(lists[i], lists[i + 1], searches[i], searches[i + 1])
  }

  ghost predicate Turn(x: List, y: List, s: Search, t: Search) {
    (s == t && exists w :: WriteStep(x, y, w)) || (x == y && t == Hop(x.arena, s))
  }

  lemma MembersInArena(a: Arena, maxHeight: nat, links: Links)
    requires ListOk(a, maxHeight, links)
    ensures forall l, n :: 0 <= l < MAX_HEIGHT && n in links[l] ==> n < |a|
  {
    forall l, n | 0 <= l < MAX_HEIGHT && n in links[l] ensures n < |a| { assert LevelOk(a, links[l], l); }
  }

  lemma {:induction false} SearchThroughout(lists: seq<List>, searches: seq<Search>, n: nat)
    requires Interleaved(lists, searches) && n < |lists|
    requires SearchOk(lists[0].arena, lists[0].links, lists[0].links[0], searches[0])
    ensures Ok(lists[n]) && SearchOk(lists[n].arena, lists[n].links, lists[0].links[0], searches[n])
  {
    hide ListOk, InsertionOk, SearchOk, WriteStep, Grows, Hop;
    if n > 0 {
      SearchThroughout(lists, searches, n - 1);
      var x, y, s, t := lists[n - 1], lists[n], searches[n - 1], searches[n];
      assert Turn(x, y, s, t);
      if x == y && t == Hop(x.arena, s) {
        HopKeeps(x.arena, x.maxHeight, x.links, lists[0].links[0], s);
      } else {
        var w :| WriteStep(x, y, w);
        WriteKeeps(x, y, w);
        MembersInArena(x.arena, x.maxHeight, x.links);
        SearchSurvives(x.arena, x.links, y.arena, y.links, lists[0].links[0], s);
      }
    }
  }

  /** However its hops interleave with inserts, a search that ends has found the first node at or
      after its target: a node that is in the list, with no node that was in the list when the search
      started skipped over. */
  lemma InterleavedSearchFinds(lists: seq<List>, searches: seq<Search>, n: nat, target: int, height: nat)
    requires Interleaved(lists, searches) && n < |lists| && 1 <= height <= MAX_HEIGHT
    requires searches[0] == StartSearch(Some(target), height) && searches[n].done
    ensures searches[n].target == Some(target)
    ensures FirstAtOrAfter(lists[n].arena, lists[0].links[0], lists[n].links[0], target, searches[n].result)
  {
    hide ListOk, InsertionOk, Interleaved, FirstAtOrAfter;
    SearchThroughout(lists, searches, n);
    TargetStays(lists, searches, n);
  }

  /** FindLessThan and FindLast, in any interleaving: the search ends on a node of the list before its target,
      or on the head, and no node that was in the list when it started lies between that node and the target. */
  lemma InterleavedSearchEnds(lists: seq<List>, searches: seq<Search>, n: nat, target: Option<int>, height: nat)
    requires Interleaved(lists, searches) && n < |lists| && 1 <= height <= MAX_HEIGHT
    requires searches[0] == StartSearch(target, height) && searches[n].done
    ensures searches[n].target == target
    ensures LastShort(lists[n].arena, lists[0].links[0], lists[n].links[0], target, searches[n].node)
  {
    hide ListOk, InsertionOk, Interleaved, FirstAtOrAfter, LastShort;
    SearchThroughout(lists, searches, n);
    TargetStays(lists, searches, n);
  }

  lemma {:induction false} TargetStays(lists: seq<List>, searches: seq<Search>, n: nat)
    requires Interleaved(lists, searches) && n < |lists|
    ensures searches[n].target == searches[0].target
  {
    hide Ok, WriteStep, NextOf;
    if n > 0 {
      TargetStays(lists, searches, n - 1);
      assert Turn(lists[n - 1], lists[n - 1 + 1], searches[n - 1], searches[n - 1 + 1]);
    }
  }

  // ------------------------------------------------------------ the list itself

  /** The nodes of s after n. */
  ghost function Ahead(a: Arena, s: set<nat>, n: nat): set<nat> {
    set m | m in s && After(a, n, m)
  }

  lemma FewerAhead(a: Arena, s: set<nat>, n: nat, m: nat)
    requires m in s && After(a, n, m) && HEAD !in s
    ensures |Ahead(a, s, m)| < |Ahead(a, s, n)|
  {
    hide KeyOf;
    assert m in Ahead(a, s, n) && m !in Ahead(a, s, m);
    assert Ahead(a, s, m) <= Ahead(a, s, n) - {m};
    SubsetIsSmaller(Ahead(a, s, m), Ahead(a, s, n) - {m});
  }

  lemma SubsetIsSmaller(x: set<nat>, y: set<nat>)
    requires x <= y
    ensures |x| <= |y|
  {
    if x != {} {
      var n :| n in x;
      SubsetIsSmaller(x - {n}, y - {n});
    }
  }

  ghost function KeysOf(a: Arena, s: set<nat>): set<int> {
    set n | n in s :: KeyOf(a, n)
  }

  class SkipList {
    var arena: Arena
    var maxHeight: nat
    ghost var links: Links

    ghost predicate Valid()
      reads this
    {
      ListOk(arena, maxHeight, links)
    }

    /** The keys in the list: those of the bottom level. */
    ghost function Keys(): set<int>
      reads this
    {
      KeysOf(arena, links[0])
    }

    constructor ()
      ensures Valid() && Keys() == {}
    {
      arena := [Node(0, seq(MAX_HEIGHT, _ => None))];
      maxHeight := 1;
      links := seq(MAX_HEIGHT, _ => {});
    }

    /** The first node at or after the key, and the last node before it on every level. */
    method FindGreaterOrEqual(key: int) returns (r: Option<nat>, prev: seq<nat>)
      requires Valid()
      ensures FirstAtOrAfter(arena, links[0], links[0], key, r)
      ensures |prev| == MAX_HEIGHT && forall l :: 0 <= l < maxHeight ==> LastBefore(arena, links[l], key, prev[l])
    {
      hide KeyOf, Height, NextOf, DistinctKeys;
      var x: nat := HEAD;
      var level: nat := maxHeight - 1;
      prev := seq(MAX_HEIGHT, _ => HEAD);  // prev is written level by level on the way down
      while true
        invariant level < maxHeight && |prev| == MAX_HEIGHT
        invariant x == HEAD || (x in links[level] && KeyOf(arena, x) < key)
        invariant forall l :: level < l < maxHeight ==> LastBefore(arena, links[l], key, prev[l])
        decreases level, |Ahead(arena, links[level], x)|
      {
        assert LevelOk(arena, links[level], level);
        var next := NextOf(arena, x, level);
        assert IsNext(arena, links[level], x, next);
        if KeyIsAfterNode(arena, key, next) {
          FewerAhead(arena, links[level], x, next.value);
          x := next.value;
        } else {
          prev := prev[level := x];
          if level == 0 {
            return next, prev;
          }
          assert links[level - 1 + 1] <= links[level - 1];
          level := level - 1;
        }
      }
    }

    /** The last node before the key, or the head. */
    method FindLessThan(key: int) returns (x: nat)
      requires Valid()
      ensures LastBefore(arena, links[0], key, x)
    {
      hide KeyOf, Height, NextOf, DistinctKeys;
      x := HEAD;
      var level: nat := maxHeight - 1;
      while true
        invariant level < maxHeight && (x == HEAD || (x in links[level] && KeyOf(arena, x) < key))
        decreases level, |Ahead(arena, links[level], x)|
      {
        assert LevelOk(arena, links[level], level);
        var next := NextOf(arena, x, level);
        assert IsNext(arena, links[level], x, next);
        if next.None? || KeyOf(arena, next.value) >= key {
          if level == 0 {
            return;
          }
          assert links[level - 1 + 1] <= links[level - 1];
          level := level - 1;
        } else {
          FewerAhead(arena, links[level], x, next.value);
          x := next.value;
        }
      }
    }

    /** The last node, or the head when there is none. */
    method FindLast() returns (x: nat)
      requires Valid()
      ensures (x == HEAD || x in links[0]) && forall n :: n in links[0] ==> !After(arena, x, n)
    {
      hide KeyOf, Height, NextOf, DistinctKeys;
      x := HEAD;
      var level: nat := maxHeight - 1;
      while true
        invariant level < maxHeight && (x == HEAD || x in links[level])
        decreases level, |Ahead(arena, links[level], x)|
      {
        assert LevelOk(arena, links[level], level);
        var next := NextOf(arena, x, level);
        assert IsNext(arena, links[level], x, next);
        if next.None? {
          if level == 0 {
            return;
          }
          assert links[level - 1 + 1] <= links[level - 1];
          level := level - 1;
        } else {
          FewerAhead(arena, links[level], x, next.value);
          x := next.value;
        }
      }
    }

    method Contains(key: int) returns (r: bool)
      requires Valid()
      ensures r <==> key in Keys()
    {
      var x, prev := FindGreaterOrEqual(key);
      r := x.Some? && KeyOf(arena, x.value) == key;
    }

    /** Above the old height the new node goes right after the head. */
    method ReachUp(prev: seq<nat>, height: nat, key: int) returns (r: seq<nat>)
      requires Valid() && |prev| == MAX_HEIGHT && height <= MAX_HEIGHT
      requires forall l :: 0 <= l < maxHeight ==> LastBefore(arena, links[l], key, prev[l])
      ensures PrevOk(arena, links, key, r, height)
    {
      hide LastBefore, LevelOk, DistinctKeys;
      r := prev;
      if height > maxHeight {
        for i := maxHeight to height
          invariant |r| == MAX_HEIGHT
          invariant forall l :: 0 <= l < maxHeight ==> LastBefore(arena, links[l], key, r[l])
          invariant forall l :: maxHeight <= l < i ==> r[l] == HEAD
        {
          r := r[i := HEAD];
        }
      }
      PrevReaches(arena, maxHeight, links, key, r, height);
    }

    /** The two link writes of one level. */
    method LinkLevel(node: nat, prev: seq<nat>, i: nat)
      requires Ok(List(arena, maxHeight, links, Some(Insertion(node, prev, i, false))))
      modifies this`arena, this`links
      ensures Ok(List(arena, maxHeight, links,
                      if i + 1 == old(Height(arena, node)) then None else Some(Insertion(node, prev, i + 1, false))))
      ensures Grows(old(arena), old(links), arena, links)
      ensures links[0] == if i == 0 then old(links)[0] + {node} else old(links)[0]
    {
      hide KeyOf, Height, NextOf, SetNext, Ok, Grows;
      ghost var x := List(arena, maxHeight, links, Some(Insertion(node, prev, i, false)));
      Reachable(x, node, prev, i);
      arena := SetNext(arena, node, i, NextOf(arena, prev[i], i));
      ghost var y := List(arena, maxHeight, links, Some(Insertion(node, prev, i, true)));
      WriteKeeps(x, y, OwnLink);
      Reachable(y, node, prev, i);
      arena := SetNext(arena, prev[i], i, Some(node));
      links := links[i := links[i] + {node}];
      SameHeight(x, y, node);
      ghost var z := List(arena, maxHeight, links,
                          if i + 1 == Height(y.arena, node) then None else Some(Insertion(node, prev, i + 1, false)));
      WriteKeeps(y, z, Publish);
      GrowsOn(x.arena, x.links, y.arena, y.links, arena, links);
    }

    /** Adds a key that is not in the list, at a height drawn at random. */
    method Insert(key: int, height: nat)
      requires Valid() && key !in Keys() && 1 <= height <= MAX_HEIGHT
      modifies this
      ensures Valid() && Keys() == old(Keys()) + {key}
    {
      hide KeyOf, Height, NextOf, ListOk, InsertionOk, PrevOk, LastBefore, Grows;
      var x: Option<nat>, prev: seq<nat> := FindGreaterOrEqual(key);
      prev := ReachUp(prev, height, key);
      FreshKey(arena, links[0], key, Keys());
      ghost var before := List(arena, maxHeight, links, None);
      maxHeight := Larger(maxHeight, height);
      var node := |arena|;
      arena := arena + [Node(key, seq(height, _ => None))];
      WriteKeeps(before, List(arena, maxHeight, links, Some(Insertion(node, prev, 0, false))), BeginInsert(key, prev, height));
      AppendedNode(before.arena, Node(key, seq(height, _ => None)));
      for i := 0 to height
        invariant Ok(List(arena, maxHeight, links, if i == height then None else Some(Insertion(node, prev, i, false))))
        invariant node < |arena| && Height(arena, node) == height && KeyOf(arena, node) == key
        invariant Grows(before.arena, before.links, arena, links)
        invariant links[0] == if i == 0 then before.links[0] else before.links[0] + {node}
      {
        ghost var a, s := arena, links;
        LinkLevel(node, prev, i);
        GrowsOn(before.arena, before.links, a, s, arena, links);
        GrowsKeeps(a, s, arena, links);
      }
      KeysGrow(before, List(arena, maxHeight, links, None), node, key);
    }
  }

  lemma SameHeight(x: List, y: List, node: nat)
    requires Grows(x.arena, x.links, y.arena, y.links) && node < |x.arena|
    ensures Height(y.arena, node) == Height(x.arena, node)
  {
  }

  lemma GrowsKeeps(a: Arena, links: Links, a': Arena, links': Links)
    requires Grows(a, links, a', links')
    ensures |a| <= |a'| && forall n: nat :: n < |a| ==> KeyOf(a', n) == KeyOf(a, n) && Height(a', n) == Height(a, n)
  {
  }

  lemma GrowsOn(a: Arena, s: Links, a': Arena, s': Links, a'': Arena, s'': Links)
    requires Grows(a, s, a', s') && Grows(a', s', a'', s'')
    ensures Grows(a, s, a'', s'')
  {
    hide KeyOf, Height;
    forall l | 0 <= l < MAX_HEIGHT ensures s[l] <= s''[l] { assert s[l] <= s'[l] && s'[l] <= s''[l]; }
  }

  /** Above the old height the head is the last node before any key. */
  lemma PrevReaches(a: Arena, maxHeight: nat, links: Links, key: int, prev: seq<nat>, height: nat)
    requires ListOk(a, maxHeight, links) && |prev| == MAX_HEIGHT && height <= MAX_HEIGHT
    requires forall l :: 0 <= l < maxHeight ==> LastBefore(a, links[l], key, prev[l])
    requires forall l :: maxHeight <= l < height ==> prev[l] == HEAD
    ensures PrevOk(a, links, key, prev, height)
  {
    hide KeyOf, LevelOk;
  }

  lemma FreshKey(a: Arena, s: set<nat>, key: int, keys: set<int>)
    requires keys == KeysOf(a, s) && key !in keys
    ensures Fresh(a, s, key)
  {
  }

  lemma Reachable(x: List, node: nat, prev: seq<nat>, i: nat)
    requires Ok(x) && x.ins.Some? && x.ins.value.node == node && x.ins.value.prev == prev && x.ins.value.level == i
    ensures node < |x.arena| && i < Height(x.arena, node) && i < |prev| && i < Height(x.arena, prev[i]) && i < MAX_HEIGHT
  {
    hide Height, KeyOf, NextOf;
    assert PlaceFor(x.arena, x.links[i], node, prev[i], i) && LevelOk(x.arena, x.links[i], i);
  }

  lemma KeysGrow(x: List, y: List, node: nat, key: int)
    requires Ok(x) && Grows(x.arena, x.links, y.arena, y.links) && KeyOf(y.arena, node) == key
    requires y.links[0] == x.links[0] + {node}
    ensures KeysOf(y.arena, y.links[0]) == KeysOf(x.arena, x.links[0]) + {key}
  {
    hide KeyOf, Height, LevelOk;
    LevelMembers(x.arena, x.links[0], 0);
    forall k | k in KeysOf(x.arena, x.links[0]) + {key} ensures k in KeysOf(y.arena, y.links[0]) {
      if k != key {
        var n :| n in x.links[0] && KeyOf(x.arena, n) == k;
        assert n in y.links[0] && KeyOf(y.arena, n) == k;
      } else {
        assert node in y.links[0];
      }
    }
  }
}
