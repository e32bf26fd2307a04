/** A memtable that is flushed at its threshold is never too big for one table. */
module MemRoom {
  import opened Keys
  import opened Runs
  import opened Room
  import opened SkipLists = SkipList

  /** A memtable that has room for one more record. */
  predicate MemSmall(mem: Run, bits: nat) {
    Bulk(mem) < TWO_60 / 2 && |mem| * bits <= TWO_30
  }

  /** A flush threshold that keeps the memtable small. */
  predicate ThresholdFits(threshold: nat, bits: nat) {
    threshold < TWO_60 / 8 && threshold * bits <= 8 * TWO_29 && bits <= TWO_29
  }

  /** The memory a memtable counts covers the bytes of its records. */
  lemma {:induction false} UsageBulk(run: Run, hs: seq<nat>, nodeSize: nat)
    requires |run| == |hs| && forall i :: 0 <= i < |hs| ==> hs[i] >= 1
    ensures Bulk(run) <= 2 * Usage(run, hs, nodeSize) && 8 * |run| <= Usage(run, hs, nodeSize)
  {
    hide Bulk;
    NoBulk();
    if run != [] {
      var rest, e := run[..|run| - 1], run[|run| - 1];
      UsageBulk(rest, hs[..|hs| - 1], nodeSize);
      BulkSplit(run, |run| - 1);
      assert run[|run| - 1..] == [e];
      OneBulk(e);
    }
  }

  /** Below its threshold a memtable is small, and stays so with one more record. */
  lemma BelowThreshold(list: SkipLists.SkipList, threshold: nat, bits: nat)
    requires list.Valid() && list.memUsage < threshold && ThresholdFits(threshold, bits)
    ensures MemSmall(list.contents, bits)
    ensures forall e :: SmallEntry(e) ==> MemSmall(Upsert(list.contents, e), bits)
  {
    hide Bulk, Usage, Sorted, Upsert;
    var mem := list.contents;
    UsageBulk(mem, list.hs, list.nodeSize);
    Times(8 * |mem|, threshold, bits);
    assert 8 * |mem| * bits == 8 * (|mem| * bits);
    forall e | SmallEntry(e) ensures MemSmall(Upsert(mem, e), bits) {
      UpsertSize(mem, e, bits);
    }
  }

  lemma UpsertSize(mem: Run, e: Entry, bits: nat)
    ensures Bulk(Upsert(mem, e)) <= Bulk(mem) + 9 + |e.key| + |e.value|
    ensures |Upsert(mem, e)| * bits <= |mem| * bits + bits
  {
    hide Bulk, Upsert;
    UpsertBulk(mem, e);
    OneBulk(e);
    Times(|Upsert(mem, e)|, |mem| + 1, bits);
    assert (|mem| + 1) * bits == |mem| * bits + bits;
  }

  lemma {:induction false} UpsertBulk(run: Run, e: Entry)
    ensures Bulk(Upsert(run, e)) <= Bulk(run) + Bulk([e]) && |Upsert(run, e)| <= |run| + 1
  {
    hide Bulk, Lt, Rank;
    NoBulk();
    if run != [] {
      UpsertBulk(run[1..], e);
      BulkSplit(run, 1);
      assert run[..1] == [run[0]];
      var more := [run[0]] + Upsert(run[1..], e);
      BulkSplit(more, 1);
      assert more[..1] == [run[0]] && more[1..] == Upsert(run[1..], e);
      BulkSplit([e] + run, 1);
      assert ([e] + run)[..1] == [e] && ([e] + run)[1..] == run;
      BulkSplit([e] + run[1..], 1);
      assert ([e] + run[1..])[..1] == [e] && ([e] + run[1..])[1..] == run[1..];
    }
  }

  /** One more record in a small memtable leaves one that fits a table. */
  lemma UpsertFits(mem: Run, e: Entry, bits: nat)
    requires MemSmall(mem, bits) && SmallEntry(e) && bits <= TWO_29
    ensures MemFits(Upsert(mem, e), bits)
  {
    hide Bulk, Upsert;
    UpsertSize(mem, e, bits);
  }

  lemma EmptyFits(bits: nat)
    ensures MemSmall([], bits) && MemFits([], bits)
  {
    hide Bulk;
    NoBulk();
  }
}
