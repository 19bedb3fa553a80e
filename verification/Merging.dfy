/** MergingIterator: one bidirectional cursor over several sorted runs. */
module Merging {
  import opened Keys

  /** Every run is sorted, and no internal key is in two runs. */
  ghost predicate Mergeable(runs: seq<seq<Entry>>) {
    (forall i :: 0 <= i < |runs| ==> Sorted(runs[i])) &&
    forall i, j, e, d :: 0 <= i < j < |runs| && e in runs[i] && d in runs[j] ==> e.key != d.key
  }

  function InsertAll(es: seq<Entry>, more: seq<Entry>): seq<Entry> {
    if more == [] then es else Insert(InsertAll(es, more[..|more| - 1]), more[|more| - 1])
  }

  /** All entries of all runs in one sorted sequence. */
  function Merged(runs: seq<seq<Entry>>): seq<Entry> {
    if runs == [] then [] else InsertAll(Merged(runs[..|runs| - 1]), runs[|runs| - 1])
  }

  lemma {:induction false} InsertAllSpec(es: seq<Entry>, more: seq<Entry>)
    requires Sorted(es) && Sorted(more) && forall e, d :: e in es && d in more ==> e.key != d.key
    ensures Sorted(InsertAll(es, more))
    ensures forall e :: e in InsertAll(es, more) <==> e in es || e in more
  {
    hide Insert, Less, Sorted;
    if more != [] {
      var n := |more| - 1;
      LastOfSorted(more);
      InsertAllSpec(es, more[..n]);
      InsertIsSorted(InsertAll(es, more[..n]), more[n]);
      assert more == more[..n] + [more[n]];
    }
  }

  lemma LastOfSorted(more: seq<Entry>)
    requires Sorted(more) && more != []
    ensures var n := |more| - 1; Sorted(more[..n]) && forall x :: x in more[..n] ==> x.key != more[n].key
  {
    var n := |more| - 1;
    forall x | x in more[..n] ensures x.key != more[n].key {
      var i :| 0 <= i < n && more[i] == x;
      assert Less(more[i].key, more[n].key);
    }
  }

  lemma {:induction false} MergedSpec(runs: seq<seq<Entry>>)
    requires Mergeable(runs)
    ensures Sorted(Merged(runs))
    ensures forall e :: e in Merged(runs) <==> exists i :: 0 <= i < |runs| && e in runs[i]
  {
    hide InsertAll, Less;
    if runs != [] {
      var n := |runs| - 1;
      MergedSpec(runs[..n]);
      InsertAllSpec(Merged(runs[..n]), runs[n]);
      forall e ensures e in Merged(runs) <==> exists i :: 0 <= i < |runs| && e in runs[i] {
        if e in Merged(runs[..n]) {
          var i :| 0 <= i < n && e in runs[..n][i];
          assert e in runs[i];
        }
        if i :| 0 <= i < |runs| && e in runs[i] {
          if i < n { assert e in runs[..n][i]; }
        }
      }
    }
  }

  // ------------------------------------------------------------ positions in a sorted run

  lemma SeekIndexIs(es: seq<Entry>, t: InternalKey, x: nat)
    requires Sorted(es) && x <= |es|
    requires forall j :: 0 <= j < x ==> Less(es[j].key, t)
    requires x < |es| ==> !Less(es[x].key, t)
    ensures SeekIndex(es, t) == x
  {
    hide Less;
    assert SeekIndex(es, t) < |es| && x < |es| ==> SeekIndex(es, t) == x;
  }

  /** The position before x, or none, written |es|. */
  function StepBack(x: nat, n: nat): nat {
    if x == 0 then n else x - 1
  }

  lemma SortedOrder(es: seq<Entry>, a: nat, b: nat)
    requires Sorted(es) && a < |es| && b < |es|
    ensures Less(es[a].key, es[b].key) <==> a < b
    ensures es[a].key == es[b].key <==> a == b
  {
    if b < a { OrderIsTotal(es[b].key, es[a].key); }
  }

  lemma SeekCuts(es: seq<Entry>, t: InternalKey, j: nat)
    requires Sorted(es) && j < |es|
    ensures j < SeekIndex(es, t) <==> Less(es[j].key, t)
  {
    var r := SeekIndex(es, t);
    if r < j { OrderIsTotal(es[j].key, t); }
  }

  lemma SeekMember(es: seq<Entry>, x: nat)
    requires Sorted(es) && x < |es|
    ensures SeekIndex(es, es[x].key) == x
  {
    hide Less;
    forall j | 0 <= j <= x ensures Less(es[j].key, es[x].key) <==> j < x { SortedOrder(es, j, x); }
    SeekIndexIs(es, es[x].key, x);
  }

  // ------------------------------------------------------------ splitting all runs at one point

  /** e comes before index x of es. */
  predicate Precedes(e: Entry, es: seq<Entry>, x: nat) {
    x >= |es| || Less(e.key, es[x].key)
  }

  /** The positions split every run where index x splits the merged sequence. */
  ghost predicate SplitsAt(runs: seq<seq<Entry>>, pos: seq<nat>, x: nat) {
    |pos| == |runs| && x <= |Merged(runs)| &&
    forall i :: 0 <= i < |runs| ==> SplitsRun(runs[i], pos[i], Merged(runs), x)
  }

  ghost predicate SplitsRun(run: seq<Entry>, p: nat, es: seq<Entry>, x: nat) {
    p <= |run| && forall j :: 0 <= j < |run| ==> (j < p <==> Precedes(run[j], es, x))
  }

  /** Where an entry of a run lies in the merged sequence. */
  lemma FromRun(runs: seq<seq<Entry>>, i: nat, j: nat) returns (y: nat)
    requires Mergeable(runs) && i < |runs| && j < |runs[i]|
    ensures y < |Merged(runs)| && Merged(runs)[y] == runs[i][j]
  {
    hide Mergeable, Merged;
    MergedSpec(runs);
    assert runs[i][j] in Merged(runs);
    y :| 0 <= y < |Merged(runs)| && Merged(runs)[y] == runs[i][j];
  }

  /** The run that holds an entry of the merged sequence, and where. */
  lemma HomeRun(runs: seq<seq<Entry>>, x: nat) returns (i: nat, j: nat)
    requires Mergeable(runs) && x < |Merged(runs)|
    ensures i < |runs| && j < |runs[i]| && runs[i][j] == Merged(runs)[x]
  {
    hide Mergeable, Merged;
    MergedSpec(runs);
    assert Merged(runs)[x] in Merged(runs);
    i :| 0 <= i < |runs| && Merged(runs)[x] in runs[i];
    j :| 0 <= j < |runs[i]| && runs[i][j] == Merged(runs)[x];
  }

  lemma SeekSplits(runs: seq<seq<Entry>>, i: nat, t: InternalKey)
    requires Mergeable(runs) && i < |runs|
    ensures SplitsRun(runs[i], SeekIndex(runs[i], t), Merged(runs), SeekIndex(Merged(runs), t))
  {
    hide Merged, SeekIndex, Less, Sorted;
    MergedSpec(runs);
    var run, es := runs[i], Merged(runs);
    var p, x := SeekIndex(run, t), SeekIndex(es, t);
    forall j | 0 <= j < |run| ensures j < p <==> Precedes(run[j], es, x) {
      var y := FromRun(runs, i, j);
      SeekCuts(run, t, j);
      SeekCuts(es, t, y);
      if x < |es| { SortedOrder(es, y, x); }
    }
  }

  /** Stepping over the current entry in its own run splits the runs one index later. */
  lemma SplitAfter(runs: seq<seq<Entry>>, c: nat, i: nat, p: nat, x: nat)
    requires Mergeable(runs) && c < |runs| && i < |runs| && p < |runs[c]| && x < |Merged(runs)| && runs[c][p] == Merged(runs)[x]
    ensures var q := if i == c then p + 1 else SeekIndex(runs[i], runs[c][p].key);
      SplitsRun(runs[i], q, Merged(runs), x + 1)
  {
    hide Merged, SeekIndex, Less, Sorted;
    MergedSpec(runs);
    var run, es, k := runs[i], Merged(runs), runs[c][p].key;
    var q := if i == c then p + 1 else SeekIndex(run, k);
    forall j | 0 <= j < |run| ensures j < q <==> Precedes(run[j], es, x + 1) {
      var y := FromRun(runs, i, j);
      SortedOrder(es, y, x);
      if x + 1 < |es| { SortedOrder(es, y, x + 1); }
      SortedOrder(es, x, y);
      if i == c {
        SortedOrder(run, p, j);
      } else {
        SeekCuts(run, k, j);
        assert run[j] in runs[i] && runs[c][p] in runs[c];
      }
    }
  }

  /** The positions all stand at or after index x; child c stands at the smallest of them. */
  ghost predicate IsSmallest(runs: seq<seq<Entry>>, pos: seq<nat>, c: nat) {
    |pos| == |runs| && c <= |runs| &&
    (c == |runs| ==> forall i :: 0 <= i < |runs| ==> pos[i] == |runs[i]|) &&
    (c < |runs| ==> pos[c] < |runs[c]|) &&
    (c < |runs| ==> forall i :: 0 <= i < |runs| && pos[i] < |runs[i]| ==> AtMost(runs[c][pos[c]].key, runs[i][pos[i]].key))
  }

  ghost predicate IsLargestOf(runs: seq<seq<Entry>>, pos: seq<nat>, c: nat) {
    |pos| == |runs| && c <= |runs| &&
    (c == |runs| ==> forall i :: 0 <= i < |runs| ==> pos[i] >= |runs[i]|) &&
    (c < |runs| ==> pos[c] < |runs[c]|) &&
    (c < |runs| ==> forall i :: 0 <= i < |runs| && pos[i] < |runs[i]| ==> AtMost(runs[i][pos[i]].key, runs[c][pos[c]].key))
  }

  /** A child that stands at the split stands at index x or later; the run of index x stands there. */
  lemma AtSplit(runs: seq<seq<Entry>>, pos: seq<nat>, x: nat, i: nat) returns (y: nat)
    requires Mergeable(runs) && SplitsAt(runs, pos, x) && i < |runs| && pos[i] < |runs[i]|
    ensures x <= y < |Merged(runs)| && Merged(runs)[y] == runs[i][pos[i]]
  {
    hide Merged, SeekIndex, Less, Sorted;
    MergedSpec(runs);
    y := FromRun(runs, i, pos[i]);
    assert SplitsRun(runs[i], pos[i], Merged(runs), x);
    if x < |Merged(runs)| { SortedOrder(Merged(runs), y, x); }
  }

  lemma HomeAtSplit(runs: seq<seq<Entry>>, pos: seq<nat>, x: nat) returns (i: nat)
    requires Mergeable(runs) && SplitsAt(runs, pos, x) && x < |Merged(runs)|
    ensures i < |runs| && pos[i] < |runs[i]| && runs[i][pos[i]] == Merged(runs)[x]
  {
    hide Merged, SeekIndex, Less, Sorted;
    MergedSpec(runs);
    var j;
    i, j := HomeRun(runs, x);
    assert SplitsRun(runs[i], pos[i], Merged(runs), x);
    SortedOrder(Merged(runs), x, x);
    var y := AtSplit(runs, pos, x, i);
    SortedOrder(Merged(runs), y, x);
    SortedOrder(runs[i], pos[i], j);
  }

  /** Standing at the split, the smallest current entry of the children is the merged entry there. */
  lemma ArriveForward(runs: seq<seq<Entry>>, pos: seq<nat>, x: nat, c: nat)
    requires Mergeable(runs) && SplitsAt(runs, pos, x) && IsSmallest(runs, pos, c)
    ensures c < |runs| <==> x < |Merged(runs)|
    ensures c < |runs| ==> SeekIndex(Merged(runs), runs[c][pos[c]].key) == x && runs[c][pos[c]] == Merged(runs)[x]
    ensures c < |runs| ==> forall i :: 0 <= i < |runs| ==> pos[i] == SeekIndex(runs[i], runs[c][pos[c]].key)
  {
    hide Merged, Less, SeekIndex, Sorted;
    MergedSpec(runs);
    var es := Merged(runs);
    if c < |runs| { var y := AtSplit(runs, pos, x, c); }
    if x < |es| {
      var i := HomeAtSplit(runs, pos, x);
      var y := AtSplit(runs, pos, x, c);
      SortedOrder(es, y, x);
      SeekMember(es, x);
      forall i | 0 <= i < |runs| ensures pos[i] == SeekIndex(runs[i], es[x].key) {
        assert SplitsRun(runs[i], pos[i], es, x);
        SeekIndexIs(runs[i], es[x].key, pos[i]);
      }
    }
  }

  /** A child that stands just before the split stands before index x; the run of x - 1 stands there. */
  lemma BeforeSplit(runs: seq<seq<Entry>>, split: seq<nat>, x: nat, i: nat) returns (y: nat)
    requires Mergeable(runs) && SplitsAt(runs, split, x) && i < |runs| && split[i] > 0
    ensures y < x && split[i] <= |runs[i]| && Merged(runs)[y] == runs[i][split[i] - 1]
  {
    hide Merged, SeekIndex, Less, Sorted;
    MergedSpec(runs);
    assert SplitsRun(runs[i], split[i], Merged(runs), x);
    y := FromRun(runs, i, split[i] - 1);
    if x < |Merged(runs)| { SortedOrder(Merged(runs), y, x); }
  }

  lemma HomeBeforeSplit(runs: seq<seq<Entry>>, split: seq<nat>, x: nat) returns (i: nat)
    requires Mergeable(runs) && SplitsAt(runs, split, x) && x > 0
    ensures i < |runs| && 0 < split[i] <= |runs[i]| && runs[i][split[i] - 1] == Merged(runs)[x - 1]
  {
    hide Merged, SeekIndex, Less, Sorted;
    MergedSpec(runs);
    var es, j := Merged(runs), 0;
    i, j := HomeRun(runs, x - 1);
    assert SplitsRun(runs[i], split[i], es, x);
    if x < |es| { SortedOrder(es, x - 1, x); }
    var y := BeforeSplit(runs, split, x, i);
    SortedOrder(es, x - 1, y);
    SortedOrder(runs[i], j, split[i] - 1);
  }

  /** Standing just before the split, the largest current entry is the merged entry before it. */
  lemma ArriveBackward(runs: seq<seq<Entry>>, split: seq<nat>, pos: seq<nat>, x: nat, c: nat)
    requires Mergeable(runs) && SplitsAt(runs, split, x) && IsLargestOf(runs, pos, c)
    requires forall i :: 0 <= i < |runs| ==> pos[i] == StepBack(split[i], |runs[i]|)
    ensures c < |runs| <==> x > 0
    ensures c < |runs| ==> SeekIndex(Merged(runs), runs[c][pos[c]].key) == x - 1 && runs[c][pos[c]] == Merged(runs)[x - 1]
    ensures c < |runs| ==> forall i :: 0 <= i < |runs| ==>
      var z := SeekIndex(runs[i], runs[c][pos[c]].key); pos[i] == if i == c then z else StepBack(z, |runs[i]|)
  {
    hide Merged, Less, SeekIndex, Sorted;
    MergedSpec(runs);
    var es := Merged(runs);
    if c < |runs| { var y := BeforeSplit(runs, split, x, c); }
    if x > 0 {
      var i := HomeBeforeSplit(runs, split, x);
      var y := BeforeSplit(runs, split, x, c);
      SortedOrder(es, x - 1, y);
      SeekMember(es, x - 1);
      forall i | 0 <= i < |runs|
        ensures var z := SeekIndex(runs[i], es[x - 1].key); pos[i] == if i == c then z else StepBack(z, |runs[i]|)
      {
        if i == c { SeekMember(runs[c], pos[c]); } else { SplitIsSeek(runs, split, x, i, c); }
      }
    }
  }

  lemma SplitIsSeek(runs: seq<seq<Entry>>, split: seq<nat>, x: nat, i: nat, c: nat)
    requires Mergeable(runs) && SplitsAt(runs, split, x) && x > 0 && i < |runs| && c < |runs| && i != c
    requires Merged(runs)[x - 1] in runs[c]
    ensures split[i] == SeekIndex(runs[i], Merged(runs)[x - 1].key)
  {
    hide Merged, Less, SeekIndex, Sorted;
    MergedSpec(runs);
    var es := Merged(runs);
    assert SplitsRun(runs[i], split[i], es, x);
    forall j | 0 <= j < |runs[i]| ensures j < split[i] <==> Less(runs[i][j].key, es[x - 1].key) {
      var y := FromRun(runs, i, j);
      SortedOrder(es, y, x - 1);
      if x < |es| { SortedOrder(es, y, x); }
      assert runs[i][j] in runs[i];
    }
    SeekIndexIs(runs[i], es[x - 1].key, split[i]);
  }

  lemma FirstSplit(runs: seq<seq<Entry>>, pos: seq<nat>)
    requires Mergeable(runs) && |pos| == |runs| && forall i :: 0 <= i < |runs| ==> pos[i] == 0
    ensures SplitsAt(runs, pos, 0)
  {
    hide Merged, Less, Sorted;
    MergedSpec(runs);
    forall i, j | 0 <= i < |runs| && 0 <= j < |runs[i]| ensures !Precedes(runs[i][j], Merged(runs), 0) {
      var y := FromRun(runs, i, j);
      SortedOrder(Merged(runs), y, 0);
    }
  }

  lemma LastSplit(runs: seq<seq<Entry>>, split: seq<nat>)
    requires |split| == |runs| && forall i :: 0 <= i < |runs| ==> split[i] == |runs[i]|
    ensures SplitsAt(runs, split, |Merged(runs)|)
  {
  }

  /** The child after Seek, stepped over an entry that has the sought key. */
  function StepPast(run: seq<Entry>, x: nat, key: InternalKey): nat {
    if x < |run| && run[x].key == key then x + 1 else x
  }

  /** Only its own child holds the current key. */
  lemma OtherRunLacks(runs: seq<seq<Entry>>, i: nat, c: nat, p: nat)
    requires Mergeable(runs) && i < |runs| && c < |runs| && i != c && p < |runs[c]|
    ensures var x := SeekIndex(runs[i], runs[c][p].key); StepPast(runs[i], x, runs[c][p].key) == x
  {
    assert runs[c][p] in runs[c];
    forall j | 0 <= j < |runs[i]| ensures runs[i][j].key != runs[c][p].key { assert runs[i][j] in runs[i]; }
  }

  // ------------------------------------------------------------ the iterator

  class MergingIterator {
    const runs: seq<seq<Entry>>
    /** Where each child stands; the length of its run when it is not valid. */
    var pos: seq<nat>
    /** The child that yields the current entry, or |runs|. */
    var current: nat
    var forward: bool

    ghost predicate Ready()
      reads this
    {
      Mergeable(runs) && |pos| == |runs| && (forall i :: 0 <= i < |runs| ==> pos[i] <= |runs[i]|)
    }

    predicate IsValid()
      reads this
    {
      current < |runs| && current < |pos| && pos[current] < |runs[current]|
    }

    function Current(): Entry
      requires IsValid()
      reads this
    {
      runs[current][pos[current]]
    }

    /** Moving forward, child i stands at its first entry after the current one; in reverse, at its
        last entry before it. */
    ghost predicate InPlace(i: nat)
      requires Ready() && IsValid() && i < |runs|
      reads this
    {
      var x := SeekIndex(runs[i], Current().key);
      pos[i] == if forward || i == current then x else StepBack(x, |runs[i]|)
    }

    ghost predicate Valid()
      reads this
    {
      Ready() && (IsValid() || current == |runs|) && (IsValid() ==> forall i :: 0 <= i < |runs| ==> InPlace(i))
    }

    /** The index of the current entry in the merged sequence; its length when there is none. */
    ghost function Position(): nat
      reads this
    {
      if IsValid() then SeekIndex(Merged(runs), Current().key) else |Merged(runs)|
    }

    constructor (runs: seq<seq<Entry>>)
      requires Mergeable(runs)
      ensures Valid() && this.runs == runs && !IsValid()
    {
      this.runs := runs;
      pos := seq(|runs|, i requires 0 <= i < |runs| => |runs[i]|);
      current := |runs|;
      forward := true;
    }

    method FindSmallest()
      requires Ready()
      modifies this`current
      ensures IsSmallest(runs, pos, current)
    {
      var smallest: nat := |runs|;
      for i := 0 to |runs|
        invariant smallest == |runs| || (smallest < i <= |runs| && pos[smallest] < |runs[smallest]|)
        invariant smallest == |runs| ==> forall j :: 0 <= j < i ==> pos[j] == |runs[j]|
        invariant smallest < |runs| ==> forall j :: 0 <= j < i && pos[j] < |runs[j]| ==>
          AtMost(runs[smallest][pos[smallest]].key, runs[j][pos[j]].key)
      {
        if pos[i] < |runs[i]| {
          if smallest == |runs| {
            smallest := i;
          } else if Less(runs[i][pos[i]].key, runs[smallest][pos[smallest]].key) {
            smallest := i;
          }
        }
      }
      current := smallest;
    }

    method FindLargest()
      requires Ready()
      modifies this`current
      ensures IsLargestOf(runs, pos, current)
    {
      hide Mergeable, Merged, Sorted;
      var largest := |runs|;
      for i := |runs| downto 0
        invariant largest == |runs| || (i <= largest < |runs| && pos[largest] < |runs[largest]|)
        invariant largest == |runs| ==> forall j :: i <= j < |runs| ==> pos[j] == |runs[j]|
        invariant largest < |runs| ==> forall j :: i <= j < |runs| && pos[j] < |runs[j]| ==>
          AtMost(runs[j][pos[j]].key, runs[largest][pos[largest]].key)
      {
        if pos[i] < |runs[i]| {
          if largest == |runs| {
            largest := i;
          } else if Less(runs[largest][pos[largest]].key, runs[i][pos[i]].key) {
            largest := i;
          }
        }
      }
      current := largest;
    }
  
    method SeekToFirst()
      requires Valid()
      modifies this
      ensures Valid() && Position() == 0
    {
      hide Merged, Less, SeekIndex, Mergeable, SplitsRun;
      for i := 0 to |runs|
        invariant Ready()
        invariant forall j :: 0 <= j < i ==> pos[j] == 0
      {
        pos := pos[i := 0];
      }
      FirstSplit(runs, pos);
      FindSmallest();
      ArriveForward(runs, pos, 0, current);
      forward := true;
    }

    method SeekToLast()
      requires Valid()
      modifies this
      ensures Valid() && Position() == StepBack(|Merged(runs)|, |Merged(runs)|)
    {
      hide Merged, Less, SeekIndex, Mergeable, SplitsRun;
      for i := 0 to |runs|
        invariant Ready()
        invariant forall j :: 0 <= j < i ==> pos[j] == StepBack(|runs[j]|, |runs[j]|)
      {
        pos := pos[i := StepBack(|runs[i]|, |runs[i]|)];
      }
      ghost var split := seq(|runs|, i requires 0 <= i < |runs| => |runs[i]|);
      LastSplit(runs, split);
      FindLargest();
      ArriveBackward(runs, split, pos, |Merged(runs)|, current);
      forward := false;
    }

    /** Moves to the first entry at or after the target. */
    method Seek(target: InternalKey)
      requires Valid()
      modifies this
      ensures Valid() && Position() == SeekIndex(Merged(runs), target)
    {
      hide Merged, Less, SeekIndex, Mergeable, SplitsRun;
      for i := 0 to |runs|
        invariant Ready()
        invariant forall j :: 0 <= j < i ==> pos[j] == SeekIndex(runs[j], target)
      {
        pos := pos[i := SeekIndex(runs[i], target)];
      }
      ghost var x := SeekIndex(Merged(runs), target);
      forall i | 0 <= i < |runs| ensures SplitsRun(runs[i], pos[i], Merged(runs), x) { SeekSplits(runs, i, target); }
      FindSmallest();
      ArriveForward(runs, pos, x, current);
      forward := true;
    }

    /** Moves to the next entry, whichever way the iterator was moving. */
    method Next()
      requires Valid() && IsValid()
      modifies this
      ensures Valid() && Position() == old(Position()) + 1
    {
      hide Merged, Less, SeekIndex, Mergeable, SplitsRun;
      ghost var x, c, p := Position(), current, pos[current];
      CurrentIsMerged();
      if !forward {
        TurnForward();
      }
      WhereChildrenStand();
      pos := pos[current := pos[current] + 1];
      forall i | 0 <= i < |runs| ensures SplitsRun(runs[i], pos[i], Merged(runs), x + 1) { SplitAfter(runs, c, i, p, x); }
      FindSmallest();
      ArriveForward(runs, pos, x + 1, current);
    }

    /** Moves to the previous entry; before the first there is none. */
    method Prev()
      requires Valid() && IsValid()
      modifies this
      ensures Valid() && Position() == StepBack(old(Position()), |Merged(runs)|)
    {
      hide Merged, Less, SeekIndex, Mergeable, SplitsRun;
      ghost var x, k := Position(), Current().key;
      ghost var split := seq(|runs|, i requires 0 <= i < |runs| => SeekIndex(runs[i], k));
      if forward {
        TurnBackward();
      }
      WhereChildrenStand();
      pos := pos[current := StepBack(pos[current], |runs[current]|)];
      forall i | 0 <= i < |runs| ensures SplitsRun(runs[i], split[i], Merged(runs), x) { SeekSplits(runs, i, k); }
      FindLargest();
      ArriveBackward(runs, split, pos, x, current);
    }

    /** Places every other child at its first entry after the current one. */
    method TurnForward()
      requires Valid() && IsValid()
      modifies this`pos, this`forward
      ensures Valid() && IsValid() && forward && Current() == old(Current()) && pos[current] == old(pos[current])
    {
      hide Merged, Less, SeekIndex, Mergeable, SplitsRun;
      var key := Current().key;
      WhereChildrenStand();
      for i := 0 to |runs|
        invariant Ready() && IsValid() && pos[current] == old(pos[current])
        invariant forall j :: 0 <= j < i && j != current ==> pos[j] == SeekIndex(runs[j], key)
      {
        if i != current {
          pos := pos[i := StepPast(runs[i], SeekIndex(runs[i], key), key)];
          OtherRunLacks(runs, i, current, pos[current]);
        }
      }
      forward := true;
    }

    /** Places every other child at its last entry before the current one. */
    method TurnBackward()
      requires Valid() && IsValid()
      modifies this`pos, this`forward
      ensures Valid() && IsValid() && !forward && Current() == old(Current()) && pos[current] == old(pos[current])
    {
      hide Merged, Less, SeekIndex, Mergeable, SplitsRun;
      var key := Current().key;
      WhereChildrenStand();
      for i := 0 to |runs|
        invariant Ready() && IsValid() && pos[current] == old(pos[current])
        invariant forall j :: 0 <= j < i && j != current ==> pos[j] == StepBack(SeekIndex(runs[j], key), |runs[j]|)
      {
        if i != current {
          var x := SeekIndex(runs[i], key);
          if x < |runs[i]| {
            pos := pos[i := StepBack(x, |runs[i]|)];
          } else {
            pos := pos[i := StepBack(|runs[i]|, |runs[i]|)];
          }
        }
      }
      forward := false;
    }

    lemma WhereChildrenStand()
      requires Valid() && IsValid()
      ensures forall i :: 0 <= i < |runs| ==>
        var z := SeekIndex(runs[i], Current().key); pos[i] == if forward || i == current then z else StepBack(z, |runs[i]|)
    {
      hide SeekIndex, Mergeable;
      forall i | 0 <= i < |runs|
        ensures var z := SeekIndex(runs[i], Current().key); pos[i] == if forward || i == current then z else StepBack(z, |runs[i]|)
      {
        assert InPlace(i);
      }
    }

    lemma ValidWithinMerged()
      requires Valid()
      ensures Position() <= |Merged(runs)| && (IsValid() <==> Position() < |Merged(runs)|)
    {
      hide Merged, SeekIndex, InPlace;
      if IsValid() { CurrentIsMerged(); }
    }

    lemma CurrentIsMerged()
      requires Valid() && IsValid()
      ensures Position() < |Merged(runs)| && Merged(runs)[Position()] == Current()
    {
      hide Merged, SeekIndex;
      var y := FromRun(runs, current, pos[current]);
      MergedSpec(runs);
      SeekMember(Merged(runs), y);
    }
  }
}
