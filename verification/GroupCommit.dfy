/** The queue of writers: the front writer commits a group for itself and its followers. */
module GroupCommit {
  import opened Keys
  import opened History
  import opened Lsm
  import opened LsmWrites

  /** A waiting call of DBImpl::Write; a null batch only asks for a memtable switch. */
  datatype Writer = Writer(id: nat, batch: Option<Log>, size: nat, sync: bool)

  const SMALL: nat := 0x2_0000
  const MAX_GROUP: nat := 0x10_0000

  function OpsOf(w: Writer): Log {
    if w.batch.Some? then w.batch.value else []
  }

  function SizeOf(w: Writer): nat {
    if w.batch.Some? then w.size else 0
  }

  /** The operations of writers in the order they queued up. */
  function AllOps(ws: seq<Writer>): Log {
    if ws == [] then [] else AllOps(ws[..|ws| - 1]) + OpsOf(ws[|ws| - 1])
  }

  function TotalSize(ws: seq<Writer>): nat {
    if ws == [] then 0 else TotalSize(ws[..|ws| - 1]) + SizeOf(ws[|ws| - 1])
  }

  function MaxSize(first: Writer): nat {
    if first.size <= SMALL then first.size + SMALL else MAX_GROUP
  }

  /** The first n writers may form a group. */
  ghost predicate IsGroup(ws: seq<Writer>, n: nat) {
    1 <= n <= |ws| &&
    (forall i :: 1 <= i < n ==> ws[i].sync ==> ws[0].sync) &&
    (forall i :: 1 <= i < n && ws[i].batch.Some? ==> TotalSize(ws[..i + 1]) <= MaxSize(ws[0]))
  }

  lemma {:induction false} AllOpsAppend(a: seq<Writer>, b: seq<Writer>)
    ensures AllOps(a + b) == AllOps(a) + AllOps(b)
    decreases |b|
  {
    if b == [] {
      assert a + b == a;
    } else {
      assert (a + b)[..|a + b| - 1] == a + b[..|b| - 1];
      AllOpsAppend(a, b[..|b| - 1]);
    }
  }

  lemma OneMoreWriter(ws: seq<Writer>, n: nat)
    requires n < |ws|
    ensures AllOps(ws[..n + 1]) == AllOps(ws[..n]) + OpsOf(ws[n])
    ensures TotalSize(ws[..n + 1]) == TotalSize(ws[..n]) + SizeOf(ws[n])
  {
    hide OpsOf, SizeOf;
    assert ws[..n + 1][..n] == ws[..n];
  }

  /** When one more writer may join the group. */
  lemma GroupGrows(ws: seq<Writer>, n: nat)
    requires IsGroup(ws, n) && n < |ws|
    ensures IsGroup(ws, n + 1) <==>
      (ws[n].sync ==> ws[0].sync) && (ws[n].batch.Some? ==> TotalSize(ws[..n]) + SizeOf(ws[n]) <= MaxSize(ws[0]))
  {
    hide TotalSize, MaxSize;
    OneMoreWriter(ws, n);
  }

  /** The sequence numbers of a writer's batch: right after those of all writers before it. */
  lemma BatchesAreContiguous(ws: seq<Writer>, i: nat)
    requires i < |ws|
    ensures AllOps(ws) == AllOps(ws[..i]) + OpsOf(ws[i]) + AllOps(ws[i + 1..])
  {
    hide AllOps, OpsOf;
    var a, b := ws[..i + 1], ws[i + 1..];
    assert ws == a + b;
    AllOpsAppend(a, b);
    assert AllOps(a) == AllOps(ws[..i]) + OpsOf(ws[i]) by { OneMoreWriter(ws, i); }
  }

  /** The group being committed: the last writer it stands for, and the operations of all. */
  datatype WriteGroup = WriteGroup(last: nat, ops: Log)

  ghost predicate DistinctIds(ws: seq<Writer>) {
    forall i, j :: 0 <= i < j < |ws| ==> ws[i].id != ws[j].id
  }

  /** Of every writer that asked for a sync, all operations are among the first that were synced. */
  ghost predicate SyncsHonoured(ws: seq<Writer>, synced: nat) {
    forall i :: 0 <= i < |ws| && ws[i].sync && ws[i].batch.Some? ==> |AllOps(ws[..i + 1])| <= synced
  }

  lemma SyncsAfter(ws: seq<Writer>, more: seq<Writer>, before: nat, after: nat)
    requires SyncsHonoured(ws, before) && before <= after
    requires (exists x :: x in more && x.sync && x.batch.Some?) ==> after >= |AllOps(ws + more)|
    ensures SyncsHonoured(ws + more, after)
  {
    hide AllOps;
    var all := ws + more;
    forall i | 0 <= i < |all| && all[i].sync && all[i].batch.Some? ensures |AllOps(all[..i + 1])| <= after {
      if i < |ws| {
        assert all[..i + 1] == ws[..i + 1] && all[i] == ws[i];
      } else {
        assert all[i] in more;
        AllOpsAppend(all[..i + 1], all[i + 1..]);
        assert all == all[..i + 1] + all[i + 1..];
      }
    }
  }

  lemma SyncLeads(ws: seq<Writer>, n: nat)
    requires 1 <= n <= |ws| && forall i :: 1 <= i < n && ws[i].sync ==> ws[0].sync
    ensures (exists x :: x in ws[..n] && x.sync && x.batch.Some?) ==> ws[0].sync
  {
  }

  class WriteQueue {
    var writers: seq<Writer>
    var lastSequence: nat
    var log: seq<Batch>
    var mem: seq<Entry>
    var group: Option<WriteGroup>
    /** How many operations are in the part of the log that was synced. */
    var synced: nat
    /** How many of the queued writers the group stands for. */
    ghost var count: nat
    /** Every writer that ever queued up, in order, and those whose call has returned. */
    ghost var arrived: seq<Writer>
    ghost var released: seq<Writer>

    /** Writers are released in the order they arrive; the released ones' operations, and no others,
        are logged, inserted and published, each under its place in that order. No writer that asked
        for a sync is released before its operations are synced. */
    ghost predicate Valid()
      reads this
    {
      arrived == released + writers && DistinctIds(arrived) && Committed(AllOps(released)) &&
      synced <= lastSequence && SyncsHonoured(released, synced) &&
      (group.Some? ==> InFlight(group.value))
    }

    ghost predicate Committed(h: Log)
      reads this
    {
      lastSequence == |h| && Contiguous(log, 0) && Ops(log) == h && MemOk(MemTable(mem, 0), h, |h|)
    }

    ghost predicate InFlight(g: WriteGroup)
      reads this
    {
      1 <= count <= |writers| && writers[count - 1].id == g.last && g.ops == AllOps(writers[..count]) &&
      forall i :: 1 <= i < count && writers[i].sync ==> writers[0].sync
    }

    constructor ()
      ensures Valid() && arrived == [] && group == None
    {
      writers, lastSequence, log, mem, group, synced := [], 0, [], [], None, 0;
      arrived, released, count := [], [], 0;
    }

    /** A call of Write queues up, possibly while a group is being committed. */
    method Join(w: Writer)
      requires Valid() && forall x :: x in arrived ==> x.id != w.id
      modifies this
      ensures Valid() && arrived == old(arrived) + [w] && released == old(released) && group == old(group) && synced == old(synced)
    {
      hide AllOps, MemOk, Contiguous, Ops, SyncsHonoured;
      writers := writers + [w];
      arrived := arrived + [w];
      if group.Some? {
        assert writers[..count] == old(writers)[..count];
      }
    }

    /** Takes as many queued writers as the rules allow, and no fewer. */
    method BuildBatchGroup() returns (result: Log, n: nat)
      requires writers != [] && writers[0].batch.Some?
      ensures IsGroup(writers, n) && result == AllOps(writers[..n])
      ensures n == |writers| || !IsGroup(writers, n + 1)
    {
      hide AllOps, TotalSize, IsGroup;
      var first := writers[0];
      FirstIsGroup(writers);
      result := first.batch.value;
      var size := first.size;
      var maxSize := MAX_GROUP;
      if size <= SMALL {
        maxSize := size + SMALL;
      }
      n := 1;
      while n < |writers|
        invariant 1 <= n <= |writers| && IsGroup(writers, n) && result == AllOps(writers[..n]) && size == TotalSize(writers[..n])
      {
        var w := writers[n];
        GroupGrows(writers, n);
        OneMoreWriter(writers, n);
        if w.sync && !first.sync {
          break;
        }
        if w.batch.Some? {
          size := size + w.size;
          if size > maxSize {
            break;
          }
          result := result + w.batch.value;
        }
        n := n + 1;
      }
    }

    /** The front writer takes the lead. */
    method Lead()
      requires Valid() && group.None? && writers != [] && writers[0].batch.Some?
      modifies this`group, this`count
      ensures Valid() && group.Some? && IsGroup(writers, count)
    {
      var ops, n := BuildBatchGroup();
      group := Some(WriteGroup(writers[n - 1].id, ops));
      count := n;
    }

    /** The front writer only wanted a memtable switch: it returns alone. */
    method ReturnAlone()
      requires Valid() && group.None? && writers != [] && writers[0].batch.None?
      modifies this
      ensures Valid() && released == old(released) + [old(writers)[0]] && arrived == old(arrived)
      ensures lastSequence == old(lastSequence)
    {
      hide AllOps, MemOk, Contiguous, Ops, DistinctIds, SyncsHonoured;
      ghost var rel, ws, h := released, writers, AllOps(released);
      AllOpsAppend(rel, ws[..1]);
      FirstIsGroup(ws);
      assert h + [] == h && AllOps(ws[..1]) == [];
      QueueSplits(rel, ws, 1);
      released := released + [writers[0]];
      writers := writers[1..];
      assert released == rel + ws[..1] && writers == ws[1..];
      SyncsAfter(rel, ws[..1], synced, synced);
      assert AllOps(released) == h && released + writers == rel + ws;
    }

    /** MemTableInserter: one entry for each operation, under consecutive sequence numbers. */
    method InsertInto(b: Batch, ghost h: Log)
      requires MemOk(MemTable(mem, 0), h, |h|) && b.start == |h| + 1
      modifies this`mem
      ensures MemOk(MemTable(mem, 0), h + b.ops, |h + b.ops|)
      ensures forall e :: e in mem && e !in old(mem) ==> e.key.sn > |h|
    {
      hide Insert, MemOk;
      ghost var full := h + b.ops;
      LaterHistory(mem, h, b.ops);
      var sn := b.start;
      for i := 0 to |b.ops|
        invariant sn == |h| + 1 + i && MemOk(MemTable(mem, 0), full, |h| + i)
        invariant forall e :: e in mem && e !in old(mem) ==> e.key.sn > |h|
      {
        var e := match b.ops[i]
          case Put(k, v) => Entry(InternalKey(k, sn, Value), v)
          case Delete(k) => Entry(InternalKey(k, sn, Deletion), "");
        assert e == EntryOf(full, sn);
        InsertKeepsMem(MemTable(mem, 0), full, |h| + i);
        mem := Insert(mem, e);
        sn := sn + 1;
      }
    }

    /** Pops writers off the queue, and lets their calls return, up to the group's last one. */
    method ReleaseUpTo(last: nat, ghost n: nat)
      requires 1 <= n <= |writers| && writers[n - 1].id == last && DistinctIds(writers)
      modifies this`writers, this`released
      ensures writers == old(writers)[n..] && released == old(released) + old(writers)[..n]
    {
      ghost var ws, popped := writers, 0;
      while true
        invariant popped < n && writers == ws[popped..] && released == old(released) + ws[..popped]
        decreases n - popped
      {
        var ready := writers[0];
        writers := writers[1..];
        released := released + [ready];
        popped := popped + 1;
        assert ready == ws[popped - 1];
        if ready.id == last {
          break;
        }
      }
    }

    /** Logs and inserts the group, publishes its last sequence number, and releases every writer
        from the front to the group's last one. */
    method Finish()
      requires Valid() && group.Some?
      modifies this
      ensures Valid() && group.None? && arrived == old(arrived)
      ensures released == old(released) + old(writers)[..old(count)]
      ensures log == old(log) + [Batch(old(lastSequence) + 1, old(group.value.ops))]
      ensures lastSequence == old(lastSequence) + |old(group.value.ops)|
      ensures synced == if old(writers)[0].sync then lastSequence else old(synced)
    {
      hide AllOps, MemOk, Contiguous, Ops, DistinctIds, SyncsHonoured;
      var g := group.value;
      ghost var h, ws := AllOps(released), writers;
      var b := Batch(lastSequence + 1, g.ops);
      LogMore(log, b);
      log := log + [b];
      var sync := writers[0].sync;
      InsertInto(b, h);
      lastSequence := lastSequence + |g.ops|;
      if sync {
        synced := lastSequence;
      }
      AllOpsAppend(released, ws[..count]);
      SyncLeads(ws, count);
      SyncsAfter(released, ws[..count], old(synced), synced);
      QueueSplits(released, ws, count);
      ReleaseUpTo(g.last, count);
      group := None;
    }
  }

  lemma QueueSplits(released: seq<Writer>, ws: seq<Writer>, n: nat)
    requires DistinctIds(released + ws) && n <= |ws|
    ensures DistinctIds(ws) && released + ws == released + ws[..n] + ws[n..]
  {
    assert forall i :: 0 <= i < |ws| ==> ws[i] == (released + ws)[|released| + i];
  }

  lemma FirstIsGroup(ws: seq<Writer>)
    requires ws != []
    ensures IsGroup(ws, 1) && AllOps(ws[..1]) == OpsOf(ws[0]) && TotalSize(ws[..1]) == SizeOf(ws[0])
  {
    assert ws[..1][..0] == [];
  }

  lemma LaterHistory(es: seq<Entry>, h: Log, more: Log)
    requires MemOk(MemTable(es, 0), h, |h|)
    ensures MemOk(MemTable(es, 0), h + more, |h|)
  {
    forall i | 1 <= i <= |h| ensures EntryOf(h + more, i) == EntryOf(h, i) { }
  }

  lemma LogMore(log: seq<Batch>, b: Batch)
    requires Contiguous(log, 0) && b.start == |Ops(log)| + 1
    ensures Contiguous(log + [b], 0) && Ops(log + [b]) == Ops(log) + b.ops
  {
    var r := log + [b];
    assert r[..|log|] == log;
    forall i | 0 <= i < |r| ensures r[i].start == |Ops(r[..i])| + 1 {
      if i < |log| { assert r[..i] == log[..i]; }
    }
  }
}
