/** The merge loop of a compaction: which entries it keeps and how it splits them. */
module CompactionWork {
  import opened Keys
  import opened History
  import opened Files
  import opened Builder

  /** No file of the levels below the outputs can hold user key u. */
  predicate BaseLevel(v: Version, level: nat, u: UserKey)
  {
    forall l: nat, f :: level + 2 <= l < NUM_LEVELS && f in v[l] ==> !(f.smallest.user <= u <= f.largest.user)
  }

  function BaseOf(v: Version, level: nat): UserKey -> bool
  {
    u => BaseLevel(v, level, u)
  }

  /** The cursors of Compaction that make repeated base-level questions cheap. */
  class Compaction {
    const level: nat
    const version: Version
    var levelPtrs: seq<nat>

    /** The files a cursor has passed all end before user key u. */
    ghost predicate CursorsBefore(u: UserKey)
      reads this
    {
      |levelPtrs| == NUM_LEVELS &&
      forall l :: level + 2 <= l < NUM_LEVELS ==>
        levelPtrs[l] <= |version[l]| && forall i :: 0 <= i < levelPtrs[l] ==> version[l][i].largest.user < u
    }

    constructor (v: Version, c: nat)
        ensures version == v && level == c && forall u :: CursorsBefore(u)
    {
      version, level := v, c;
      levelPtrs := seq(NUM_LEVELS, _ => 0);
    }

    /** IsBaseLevelForKey: asked for nondecreasing keys, the forward-only cursors give the same
        answer as a scan of every deeper level. */
    method IsBaseLevelForKey(u: UserKey) returns (r: bool)
      requires CursorsBefore(u) && forall l: nat :: 1 <= l < NUM_LEVELS ==> AllValid(version[l]) && Disjoint(version[l])
      modifies this
      ensures r == BaseLevel(version, level, u)
      ensures forall w :: u <= w ==> CursorsBefore(w)
    {
      var l := level + 2;
      while l < NUM_LEVELS
        invariant level + 2 <= l && CursorsBefore(u)
        invariant forall k: nat, f :: level + 2 <= k < l && k < NUM_LEVELS && f in version[k] ==>
          !(f.smallest.user <= u <= f.largest.user)
      {
        while levelPtrs[l] < |version[l]|
          invariant CursorsBefore(u)
          invariant levelPtrs[l] <= |version[l]|
          decreases |version[l]| - levelPtrs[l]
        {
          var f := version[l][levelPtrs[l]];
          if u <= f.largest.user {
            if u >= f.smallest.user { return false; }
            break;
          }
          levelPtrs := levelPtrs[l := levelPtrs[l] + 1];
        }
        NoFileHolds(version[l], levelPtrs[l], u);
        l := l + 1;
      }
      r := true;
    }
  }

  lemma NoFileHolds(fs: seq<File>, i: nat, u: UserKey)
    requires AllValid(fs) && Disjoint(fs) && i <= |fs|
    requires forall j :: 0 <= j < i ==> fs[j].largest.user < u
    requires i < |fs| ==> u < fs[i].smallest.user
    ensures forall f :: f in fs ==> !(f.smallest.user <= u <= f.largest.user)
  {
    forall f | f in fs ensures !(f.smallest.user <= u <= f.largest.user) {
      var j :| 0 <= j < |fs| && fs[j] == f;
      if i < j {
        assert Before(fs[i], fs[j]) && fs[i] in fs;
        EndsAreEntries(fs[i]);
      }
    }
  }

  // -------------------------------------------------------------- the kept entries

  /** The entries of es that the drop rules keep, in order. */
  ghost function Survivors(es: seq<Entry>, all: set<Entry>, snap: nat, base: UserKey -> bool): seq<Entry> {
    if es == [] then []
    else
      var e := es[|es| - 1];
      Survivors(es[..|es| - 1], all, snap, base) + (if Dropped(all, e, snap, base) then [] else [e])
  }

  lemma {:induction false} SurvivorsSpec(es: seq<Entry>, all: set<Entry>, snap: nat, base: UserKey -> bool)
    requires Sorted(es)
    ensures Sorted(Survivors(es, all, snap, base))
    ensures forall e :: e in Survivors(es, all, snap, base) <==> e in es && !Dropped(all, e, snap, base)
  {
    if es != [] {
      var init, e := es[..|es| - 1], es[|es| - 1];
      assert es == init + [e];
      SurvivorsSpec(init, all, snap, base);
      var k := Survivors(init, all, snap, base);
      forall i | 0 <= i < |k| ensures Less(k[i].key, e.key) {
        assert k[i] in init;
        var j :| 0 <= j < |init| && init[j] == k[i];
        assert Less(es[j].key, es[|es| - 1].key);
      }
    }
  }

  /** The tables written so far, concatenated. */
  function Flatten(outs: seq<seq<Entry>>): seq<Entry> {
    if outs == [] then [] else Flatten(outs[..|outs| - 1]) + outs[|outs| - 1]
  }

  ghost predicate AllNonempty(outs: seq<seq<Entry>>) {
    forall o :: o in outs ==> o != []
  }

  /** Within one user key, distinct entries carry distinct sequence numbers. */
  ghost predicate DistinctSequences(es: seq<Entry>) {
    forall i, j :: 0 <= i < j < |es| && es[i].key.user == es[j].key.user ==> es[i].key.sn != es[j].key.sn
  }

  lemma LaterIsOlder(es: seq<Entry>, i: nat, j: nat)
    requires Sorted(es) && i < j < |es| && es[i].key.user == es[j].key.user
    ensures es[i].key.sn >= es[j].key.sn
  {
    assert Less(es[i].key, es[j].key);
  }

  /** Rule (A) looks only at the previous entry; that is enough. */
  lemma HiddenByPrevious(es: seq<Entry>, i: nat, snap: nat)
    requires Sorted(es) && DistinctSequences(es) && i < |es|
    ensures Hidden(SetOf(es), es[i], snap) <==>
      i > 0 && es[i - 1].key.user == es[i].key.user && es[i - 1].key.sn <= snap
  {
    if Hidden(SetOf(es), es[i], snap) {
      var e :| e in SetOf(es) && e.key.user == es[i].key.user && es[i].key.sn < e.key.sn <= snap;
      var j :| 0 <= j < |es| && es[j] == e;
      assert j < i by { if i < j { LaterIsOlder(es, i, j); } }
      assert Less(es[i - 1].key, es[i].key);
      if j < i - 1 { assert Less(es[j].key, es[i - 1].key); }
    }
    if i > 0 && es[i - 1].key.user == es[i].key.user && es[i - 1].key.sn <= snap {
      assert Less(es[i - 1].key, es[i].key) && es[i - 1] in SetOf(es);
    }
  }

  ghost predicate DeeperLevelsOk(v: Version) {
    forall l: nat :: 1 <= l < NUM_LEVELS ==> AllValid(v[l]) && Disjoint(v[l])
  }

  /** What the loop remembers about the previous entry. */
  datatype Previous = Previous(userKey: Option<UserKey>, sequence: nat)

  /** The cursors are ready for entry e and everything after it. */
  ghost predicate Ready(c: Compaction, e: Entry)
    reads c
  {
    DeeperLevelsOk(c.version) && forall w :: e.key.user <= w ==> c.CursorsBefore(w)
  }

  /** The drop decision for one entry, as the loop body takes it. */
  method DecideDrop(c: Compaction, e: Entry, prev: Previous, snap: nat) returns (drop: bool, p: Previous)
    requires Ready(c, e) && snap < MAX_SEQUENCE
    modifies c
    ensures Ready(c, e) && p == Previous(Some(e.key.user), e.key.sn)
    ensures drop == ((prev.userKey == Some(e.key.user) && prev.sequence <= snap) ||
                     ObsoleteTombstone(e, snap, BaseOf(c.version, c.level)))
  {
    p := prev;
    drop := false;
    if p.userKey.None? || p.userKey.value != e.key.user {
      p := Previous(Some(e.key.user), MAX_SEQUENCE);
    }
    if p.sequence <= snap {
      drop := true;
    } else if e.key.typ == Deletion && e.key.sn <= snap {
      drop := c.IsBaseLevelForKey(e.key.user);
    }
    p := p.(sequence := e.key.sn);
  }

  lemma SurvivorsSnoc(es: seq<Entry>, i: nat, all: set<Entry>, snap: nat, base: UserKey -> bool)
    requires i < |es|
    ensures Survivors(es[..i + 1], all, snap, base)
         == Survivors(es[..i], all, snap, base) + (if Dropped(all, es[i], snap, base) then [] else [es[i]])
  {
    assert es[..i + 1][..i] == es[..i];
  }

  /** prev describes the entry before index i. */
  ghost predicate Remembers(es: seq<Entry>, i: nat, prev: Previous)
    requires i <= |es|
  {
    if i == 0 then prev.userKey == None
    else prev == Previous(Some(es[i - 1].key.user), es[i - 1].key.sn)
  }

  /** Everything written to finished tables and to the open one. */
  function Written(outputs: seq<seq<Entry>>, builder: Option<seq<Entry>>): seq<Entry> {
    Flatten(outputs) + Pending(builder)
  }

  /** No entry is added to a table that is full. */
  ghost predicate NotFullBefore(outputs: seq<seq<Entry>>, full: seq<Entry> -> bool) {
    forall i, k :: 0 <= i < |outputs| && 0 < k < |outputs[i]| ==> !full(outputs[i][..k])
  }

  /** Every table is full in the end, but for the last n. */
  ghost predicate FullAtEnd(outputs: seq<seq<Entry>>, full: seq<Entry> -> bool, n: nat) {
    forall i :: 0 <= i < |outputs| - n ==> full(outputs[i])
  }

  /** A table is closed just when it is full. */
  ghost predicate CutWhenFull(outputs: seq<seq<Entry>>, full: seq<Entry> -> bool) {
    NotFullBefore(outputs, full) && FullAtEnd(outputs, full, 1)
  }

  /** The open table has never been full. */
  ghost predicate StillOpen(builder: Option<seq<Entry>>, full: seq<Entry> -> bool) {
    builder.Some? ==> forall k :: 0 < k <= |builder.value| ==> !full(builder.value[..k])
  }

  /** One entry more, after which the table may be full. */
  lemma OneEntryMore(builder: Option<seq<Entry>>, e: Entry, full: seq<Entry> -> bool)
    requires StillOpen(builder, full)
    ensures var b := Pending(builder) + [e];
      NotFullBefore([b], full) && (!full(b) ==> StillOpen(Some(b), full))
  {
    var a := Pending(builder);
    var b := a + [e];
    assert forall k :: 0 <= k <= |a| ==> b[..k] == a[..k];
    assert b[..|b|] == b;
  }

  lemma OpenIsNotFullBefore(b: seq<Entry>, full: seq<Entry> -> bool)
    requires StillOpen(Some(b), full)
    ensures NotFullBefore([b], full)
  {
  }

  lemma OneTableMore(outputs: seq<seq<Entry>>, b: seq<Entry>, full: seq<Entry> -> bool)
    requires NotFullBefore(outputs, full) && NotFullBefore([b], full)
    ensures NotFullBefore(outputs + [b], full)
    ensures FullAtEnd(outputs, full, 0) ==> FullAtEnd(outputs + [b], full, 1) && (full(b) ==> FullAtEnd(outputs + [b], full, 0))
  {
    assert [b][0] == b;
  }

  /** Close the open table if asked to. */
  method CloseIf(stop: bool, outputs: seq<seq<Entry>>, builder: Option<seq<Entry>>, ghost full: seq<Entry> -> bool)
    returns (r: seq<seq<Entry>>, b: Option<seq<Entry>>)
    requires AllNonempty(outputs) && builder != Some([])
    requires NotFullBefore(outputs, full) && (builder.Some? ==> NotFullBefore([builder.value], full))
    ensures AllNonempty(r) && b != Some([]) && Written(r, b) == Written(outputs, builder) && NotFullBefore(r, full)
    ensures (!stop ==> r == outputs && b == builder) && (stop ==> b == None)
    ensures FullAtEnd(outputs, full, 0) ==> FullAtEnd(r, full, 1) && (stop && builder.Some? && full(builder.value) ==> FullAtEnd(r, full, 0))
    ensures builder.None? ==> r == outputs
  {
    hide NotFullBefore, FullAtEnd;
    r, b := outputs, builder;
    FewerFull(outputs, full);
    if stop && b.Some? {
      OneTableMore(r, b.value, full);
      r := Finish(r, b.value);
      b := None;
    }
  }

  lemma FewerFull(outputs: seq<seq<Entry>>, full: seq<Entry> -> bool)
    ensures FullAtEnd(outputs, full, 0) ==> FullAtEnd(outputs, full, 1)
  {
  }

  function Pending(builder: Option<seq<Entry>>): seq<Entry> {
    if builder.Some? then builder.value else []
  }

  /** DoCompactionWork. stopBefore and full stand for ShouldStopBefore and the size test: whatever
      they answer, the tables written hold exactly the kept entries, in order, none of them empty. No table
      goes on once it is full, and without stops none but the last ends before that. */
  method DoCompactionWork(input: seq<Entry>, snap: nat, v: Version, level: nat,
                          stopBefore: nat -> bool, full: seq<Entry> -> bool)
    returns (outputs: seq<seq<Entry>>)
    requires Sorted(input) && DistinctSequences(input) && snap < MAX_SEQUENCE && DeeperLevelsOk(v)
    ensures Flatten(outputs) == Survivors(input, SetOf(input), snap, BaseOf(v, level))
    ensures AllNonempty(outputs) && NotFullBefore(outputs, full)
    ensures (forall i :: !stopBefore(i)) ==> CutWhenFull(outputs, full)
  {
    hide NotFullBefore, FullAtEnd, StillOpen, Flatten, Survivors, AllNonempty, DeeperLevelsOk, BaseLevel, BaseOf, Less,
      Hidden, ObsoleteTombstone, DistinctSequences, Compaction.CursorsBefore;
    outputs := [];
    NothingWritten(SetOf(input), snap, BaseOf(v, level));
    NothingOpen(full);
    var compaction := new Compaction(v, level);
    var builder: Option<seq<Entry>> := None;
    var prev := Previous(None, MAX_SEQUENCE);
    ghost var all, base := SetOf(input), BaseOf(v, level);
    var i := 0;
    while i < |input|
      invariant i <= |input| && Remembers(input, i, prev)
      invariant compaction.version == v && compaction.level == level && fresh(compaction)
      invariant i < |input| ==> Ready(compaction, input[i])
      invariant AllNonempty(outputs) && builder != Some([]) && NotFullBefore(outputs, full) && StillOpen(builder, full)
      invariant (forall j :: !stopBefore(j)) ==> FullAtEnd(outputs, full, 0)
      invariant Written(outputs, builder) == Survivors(input[..i], all, snap, base)
    {
      var e := input[i];
      HiddenByPrevious(input, i, snap);
      SurvivorsSnoc(input, i, all, snap, base);
      if builder.Some? { OpenIsNotFullBefore(builder.value, full); }
      outputs, builder := CloseIf(stopBefore(i), outputs, builder, full);
      NothingOpen(full);
      var drop;
      drop, prev := DecideDrop(compaction, e, prev, snap);
      if !drop {
        var b := Pending(builder) + [e];
        assert Flatten(outputs) + (Pending(builder) + [e]) == Flatten(outputs) + Pending(builder) + [e];
        OneEntryMore(builder, e, full);
        outputs, builder := CloseIf(full(b), outputs, Some(b), full);
      }
      i := i + 1;
      if i < |input| { UsersAscend(e, input[i]); }
    }
    assert input[..|input|] == input;
    if builder.Some? { OpenIsNotFullBefore(builder.value, full); }
    outputs, builder := CloseIf(true, outputs, builder, full);
  }

  lemma NothingOpen(full: seq<Entry> -> bool)
    ensures StillOpen(None, full) && NotFullBefore([], full) && FullAtEnd([], full, 0)
  {
  }

  lemma NothingWritten(all: set<Entry>, snap: nat, base: UserKey -> bool)
    ensures Written([], None) == Survivors([], all, snap, base) == [] && AllNonempty([])
  {
  }

  lemma UsersAscend(e: Entry, d: Entry)
    requires Less(e.key, d.key)
    ensures e.key.user <= d.key.user
  {
  }

  /** FinishCompactionOutputFile: one more table. */
  method Finish(outputs: seq<seq<Entry>>, table: seq<Entry>) returns (r: seq<seq<Entry>>)
    requires AllNonempty(outputs) && table != []
    ensures r == outputs + [table] && AllNonempty(r) && Flatten(r) == Flatten(outputs) + table
  {
    r := outputs + [table];
    assert r[..|r| - 1] == outputs;
  }
}
