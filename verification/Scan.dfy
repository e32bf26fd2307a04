/** Range scans: a merge of the memtable's iterator and every table's iterator. */
module Scan {
  import opened Keys
  import opened Runs
  import opened Merge
  import opened Versions
  import opened SkipLists = SkipList
  import opened TableFormat
  import opened TableWriter
  import opened TableReader
  import opened TableGet
  import opened TableFiles
  import opened TableIterator
  import opened Merging
  import Bloom

  // ---- Sources -----------------------------------------------------------------------------------

  /** The cursor a memtable iterator follows. */
  ghost function MemAt(it: SkipCursor): Cursor
    reads it, it.list
  {
    Cursor(it.list.contents, it.pos, |it.list.contents|)
  }

  /** The cursors of all sources, the memtable first. */
  ghost function SourcesAt(mem: SkipCursor, its: seq<TableCursor>): (cs: seq<Cursor>)
    reads mem, mem.list, its
    ensures |cs| == |its| + 1 && cs[0] == MemAt(mem) && cs[1..] == Cursors(its)
    ensures forall i :: 0 <= i < |its| ==> cs[i + 1] == its[i].cursor
  {
    [MemAt(mem)] + Cursors(its)
  }

  /** All sources stand where their cursors say. */
  ghost predicate Placed(mem: SkipCursor, its: seq<TableCursor>)
    reads mem, mem.list, mem.list.head, mem.list.nodes, its
  {
    mem.At() && AllDistinct(its) && AllTrack(its)
  }

  lemma MemFollows(mem: SkipCursor)
    requires mem.At()
    ensures MemAt(mem).WellFormed() && MemAt(mem).Ok() && (mem.node != null) == MemAt(mem).Valid()
    ensures mem.node != null ==> Entry(mem.node.key, mem.node.value, mem.node.tombstone) == MemAt(mem).Head()
  {
  }

  lemma PlacedWellFormed(mem: SkipCursor, its: seq<TableCursor>)
    requires Placed(mem, its)
    ensures AllWellFormed(SourcesAt(mem, its))
  {
    hide SkipCursor.At, AllTrack, Cursors;
    MemFollows(mem);
    TrackWellFormed(its);
  }

  // ---- Scan --------------------------------------------------------------------------------------

  predicate InRange(k: Key, start: Key, end: Key) {
    Le(start, k) && (end == [] || Lt(k, end))
  }

  ghost predicate Ascending(out: seq<(Key, Bytes)>) {
    forall i, j :: 0 <= i < j < |out| ==> Lt(out[i].0, out[j].0)
  }

  /** Exactly the live pairs of the range, in key order. */
  ghost predicate IsScan(out: seq<(Key, Bytes)>, mem: Run, v: Version, start: Key, end: Key) {
    && Ascending(out)
    && forall k, x :: (k, x) in out <==> InRange(k, start, end) && Seen(mem, v, k) == Some(x)
  }

  function Pairs(run: Run): (out: seq<(Key, Bytes)>) {
    if run == [] then []
    else
      var e := run[|run| - 1];
      if e.tombstone then Pairs(run[..|run| - 1]) else Pairs(run[..|run| - 1]) + [(e.key, e.value)]
  }

  lemma {:induction false} PairsOf(run: Run)
    requires Sorted(run)
    ensures Ascending(Pairs(run))
    ensures forall k, x :: (k, x) in Pairs(run) <==> Entry(k, x, false) in run
  {
    hide Lt, Le, Rank;
    if run != [] {
      var rest, e := run[..|run| - 1], run[|run| - 1];
      PairsOf(rest);
      assert run == rest + [e];
      forall p | p in Pairs(rest) ensures Lt(p.0, e.key) {
        assert (p.0, p.1) in Pairs(rest);
        assert Entry(p.0, p.1, false) in rest;
        var i :| 0 <= i < |rest| && rest[i] == Entry(p.0, p.1, false);
        assert Lt(run[i].key, run[|run| - 1].key);
      }
    }
  }

  lemma PairsAppend(run: Run, e: Entry)
    ensures Pairs([]) == []
    ensures Pairs(run + [e]) == if e.tombstone then Pairs(run) else Pairs(run) + [(e.key, e.value)]
  {
    assert (run + [e])[..|run|] == run;
  }

  lemma LookupMember(run: Run, e: Entry)
    requires Sorted(run)
    ensures e in run <==> Lookup(run, e.key) == Some(e)
  {
    if e in run {
      var i :| 0 <= i < |run| && run[i] == e;
      LookupAt(run, i);
    }
  }

  /** A merge that has passed every key of the range holds exactly the range. */
  lemma ScanComplete(cs: seq<Cursor>, mem: Run, v: Version, start: Key, end: Key, merged: Run)
    requires AllWellFormed(cs) && AllOk(cs) && MergedSoFar(cs, start, merged)
    requires RunsOf(cs) == [mem] + RunsIn(Tables(v))
    requires forall m :: 0 <= m < |merged| ==> end == [] || Lt(merged[m].key, end)
    requires forall i :: 0 <= i < |cs| && cs[i].Valid() ==> end != [] && Le(end, cs[i].Head().key)
    ensures IsScan(Pairs(merged), mem, v, start, end)
  {
    PairsOf(merged);
    forall k, x ensures (k, x) in Pairs(merged) <==> InRange(k, start, end) && Seen(mem, v, k) == Some(x) {
      var e := Entry(k, x, false);
      LookupMember(merged, e);
      SourcesView(mem, v, k);
      if InRange(k, start, end) {
        MergeComplete(cs, start, merged, k);
      }
    }
  }

  /** Open the tables of a version in priority order. */
  method OpenTables(v: Version) returns (tables: seq<FileMeta>)
    ensures tables == Tables(v)
  {
    tables := [];
    if |v.levels| > 0 {
      var l0 := v.levels[0];
      var i := |l0|;
      while i > 0
        invariant 0 <= i <= |l0|
        invariant tables == Reverse(l0)[..|l0| - i]
      {
        i := i - 1;
        tables := tables + [l0[i]];
      }
      assert tables == Reverse(l0);
      var lvl := 1;
      while lvl < |v.levels|
        invariant 1 <= lvl <= |v.levels|
        invariant tables + DeepTables(v, lvl) == Reverse(l0) + DeepTables(v, 1)
      {
        assert tables + v.levels[lvl] + DeepTables(v, lvl + 1) == tables + DeepTables(v, lvl);
        tables := tables + v.levels[lvl];
        lvl := lvl + 1;
      }
    }
  }

  // ---- Iterators over the tables -----------------------------------------------------------------

  /** The iterators walk these tables, in this order. */
  ghost predicate Over(its: seq<TableCursor>, tables: seq<FileMeta>, readers: Readers) {
    |its| == |tables| && forall i :: 0 <= i < |its| ==>
      tables[i].number in readers && its[i].reader == readers[tables[i].number]
      && its[i].blocks == BlocksOf(tables[i].run, BLOCK_SIZE)
  }

  method OpenIterators(tables: seq<FileMeta>, readers: Readers, ghost hash: Key -> Bloom.Hash)
    returns (its: seq<TableCursor>)
    requires TablesStand(tables, readers, hash)
    ensures fresh(its) && Over(its, tables, readers) && AllDistinct(its) && AllServe(its)
  {
    hide Serves, BlocksOf, FilterSound;
    its := [];
    var i := 0;
    while i < |tables|
      invariant 0 <= i <= |tables|
      invariant fresh(its) && Over(its, tables[..i], readers) && AllDistinct(its) && AllServe(its)
    {
      var f := tables[i];
      assert f in tables;
      var it := new TableCursor(readers[f.number], BlocksOf(f.run, BLOCK_SIZE));
      its := its + [it];
      i := i + 1;
    }
    assert tables[..i] == tables;
  }

  /** Where a table iterator stands after seeking. */
  ghost function SeekCursor(it: TableCursor, start: Key): Cursor {
    Merge.Seek(Flatten(it.blocks), start, SeekLimit(it.reader, it.blocks, start))
  }

  /** Position every source at `start`; stop at the first that fails. */
  method SeekSources(mem: SkipCursor, its: seq<TableCursor>, start: Key) returns (ok: bool)
    requires mem.list.Valid() && AllDistinct(its) && AllServe(its)
    modifies mem, its
    ensures ok == forall i :: 0 <= i < |its| ==> SeekCursor(its[i], start).Ok()
    ensures ok ==> Placed(mem, its) && mem.pos == LowerBound(mem.list.contents, start)
    ensures ok ==> forall i :: 0 <= i < |its| ==> its[i].cursor == SeekCursor(its[i], start)
  {
    hide TableCursor.Tracks, TableCursor.Serving, SkipCursor.At, SkipLists.SkipList.Valid, SeekCursor, LowerBound;
    mem.Seek(start);
    var i := 0;
    while i < |its|
      invariant 0 <= i <= |its|
      invariant mem.At() && mem.pos == LowerBound(mem.list.contents, start)
      invariant forall j :: 0 <= j < i ==>
        its[j].Tracks() && its[j].cursor == SeekCursor(its[j], start) && its[j].cursor.Ok()
      invariant forall j :: i <= j < |its| ==> its[j].Serving()
    {
      SeekIt(its[i], start);
      TracksCursor(its[i]);
      if !its[i].ok {
        return false;
      }
      i := i + 1;
    }
    ok := true;
  }

  method SeekIt(it: TableCursor, start: Key)
    requires it.Serving()
    modifies it
    ensures it.Tracks() && it.cursor == SeekCursor(it, start)
  {
    hide TableCursor.Tracks, TableCursor.Serving, SeekLimit, Flatten;
    it.Seek(start);
  }

  // ---- The merge loop ----------------------------------------------------------------------------

  /** What source i shows is what its cursor says; the memtable is source 0, table i source i + 1. */
  ghost predicate Shows(mem: SkipCursor, its: seq<TableCursor>, c: Cursor, i: nat)
    reads mem, mem.node, its
  {
    && c.WellFormed() && i <= |its|
    && (i == 0 ==> (mem.node != null) == c.Valid())
    && (i == 0 && mem.node != null ==> Entry(mem.node.key, mem.node.value, mem.node.tombstone) == c.Head())
    && (i > 0 ==> its[i - 1].valid == c.Valid())
    && (i > 0 && its[i - 1].valid ==> Entry(its[i - 1].key, its[i - 1].value, its[i - 1].tombstone) == c.Head())
  }

  lemma SourceShows(mem: SkipCursor, its: seq<TableCursor>, cs: seq<Cursor>, i: nat)
    requires Placed(mem, its) && cs == SourcesAt(mem, its) && i <= |its|
    ensures Shows(mem, its, cs[i], i)
  {
    hide SkipCursor.At, AllTrack, Cursors;
    MemFollows(mem);
    if i > 0 {
      TrackAt(its, i - 1);
    }
  }

  /** The first source that stands on the least key. */
  method LeastSource(mem: SkipCursor, its: seq<TableCursor>, ghost cs: seq<Cursor>) returns (best: int)
    requires Placed(mem, its) && cs == SourcesAt(mem, its) && AllWellFormed(cs)
    ensures -1 <= best < |cs|
    ensures best < 0 ==> forall i :: 0 <= i < |cs| ==> !cs[i].Valid()
    ensures best >= 0 ==> IsLeast(cs, best)
  {
    hide Placed, SourcesAt, Lt, Le, Rank;
    SourceShows(mem, its, cs, 0);
    best := -1;
    var least: Key := [];
    if mem.node != null {
      best, least := 0, mem.node.key;
    }
    var i := 0;
    while i < |its|
      invariant 0 <= i <= |its| && -1 <= best <= i
      invariant best < 0 ==> forall j :: 0 <= j <= i ==> !cs[j].Valid()
      invariant best >= 0 ==> cs[best].Valid() && cs[best].Head().key == least
      invariant best >= 0 ==> forall j :: 0 <= j <= i && cs[j].Valid() ==> Le(least, cs[j].Head().key)
    {
      SourceShows(mem, its, cs, i + 1);
      if its[i].valid && (best < 0 || Lt(its[i].key, least)) {
        best, least := i + 1, its[i].key;
      }
      i := i + 1;
    }
  }

  /** The entry of the highest-priority source that holds the key. */
  method FirstSource(mem: SkipCursor, its: seq<TableCursor>, ghost cs: seq<Cursor>, cur: Key, ghost best: nat)
    returns (e: Entry, ghost winner: nat)
    requires Placed(mem, its) && cs == SourcesAt(mem, its) && AllWellFormed(cs)
    requires best < |cs| && OnKey(cs[best], cur)
    ensures FirstOn(cs, cur, winner) && e == cs[winner].Head()
  {
    hide Placed, SourcesAt;
    SourceShows(mem, its, cs, 0);
    if mem.node != null && mem.node.key == cur {
      return Entry(mem.node.key, mem.node.value, mem.node.tombstone), 0;
    }
    var i := 0;
    SourceShows(mem, its, cs, 1);
    while !(its[i].valid && its[i].key == cur)
      invariant i < best
      invariant forall j :: 0 <= j <= i ==> !OnKey(cs[j], cur)
      invariant Shows(mem, its, cs[i + 1], i + 1)
      decreases best - i
    {
      i := i + 1;
      SourceShows(mem, its, cs, i + 1);
    }
    return Entry(its[i].key, its[i].value, its[i].tombstone), i + 1;
  }

  /** Move the memtable's iterator past the key. */
  method SkipMem(mem: SkipCursor, cur: Key)
    requires mem.At()
    modifies mem
    ensures mem.At() && old(MemAt(mem)).WellFormed()
    ensures MemAt(mem) == if OnKey(old(MemAt(mem)), cur) then old(MemAt(mem)).Next() else old(MemAt(mem))
  {
    hide SkipCursor.At;
    MemFollows(mem);
    if mem.node != null && mem.node.key == cur {
      mem.Next();
    }
  }

  lemma ConsumeParts(c: Cursor, cs: seq<Cursor>, k: Key)
    requires AllWellFormed([c] + cs)
    ensures c.WellFormed() && AllWellFormed(cs)
    ensures Consume([c] + cs, k) == [if OnKey(c, k) then c.Next() else c] + Consume(cs, k)
  {
    hide Sorted, OnKey;
    assert ([c] + cs)[0] == c;
    forall i | 0 <= i < |cs| ensures cs[i].WellFormed() && cs[i] == ([c] + cs)[i + 1] {
      assert ([c] + cs)[i + 1].WellFormed();
    }
  }

  /** Move every source past the key. */
  method SkipKey(mem: SkipCursor, its: seq<TableCursor>, cur: Key)
    requires Placed(mem, its) && AllWellFormed(SourcesAt(mem, its))
    modifies mem, its
    ensures Placed(mem, its) && SourcesAt(mem, its) == Skipped(old(SourcesAt(mem, its)), cur)
  {
    hide SkipCursor.At, AllTrack, Cursors, Consume, OnKey, MemAt, Sorted;
    ConsumeParts(MemAt(mem), Cursors(its), cur);
    ghost var cs := Cursors(its);
    SkipMem(mem, cur);
    assert Cursors(its) == cs;
    ConsumeKey(its, cur);
  }

  // ---- How far a scan reads ----------------------------------------------------------------------

  /** Where a scan of the range leaves a source: at the first record behind the range. */
  function StopAt(run: Run, start: Key, end: Key): (p: nat)
    ensures LowerBound(run, start) <= p <= |run|
  {
    var p, q := LowerBound(run, start), LowerBound(run, end);
    if end == [] then |run| else if p < q then q else p
  }

  /** A scan of the range can read all it needs of a table: no block from the one the search starts in to the one
  that holds the first record behind the range is unreadable. */
  ghost predicate Reaches(r: Reader, blocks: seq<Run>, start: Key, end: Key) {
    var limit := SeekLimit(r, blocks, start);
    limit >= |Flatten(blocks)| || StopAt(Flatten(blocks), start, end) < limit
  }

  /** Every source stands inside the range or right behind it. */
  ghost predicate Within(cs: seq<Cursor>, start: Key, end: Key) {
    forall i :: 0 <= i < |cs| ==> LowerBound(cs[i].run, start) <= cs[i].pos <= StopAt(cs[i].run, start, end)
  }

  lemma ConsumeWithin(cs: seq<Cursor>, start: Key, end: Key, k: Key)
    requires AllWellFormed(cs) && Within(cs, start, end) && (end == [] || Lt(k, end))
    ensures Within(Consume(cs, k), start, end)
  {
    hide Lt, Le, Rank, LowerBound, Sorted, StopAt;
    forall i | 0 <= i < |cs|
      ensures LowerBound(cs[i].run, start) <= Consume(cs, k)[i].pos <= StopAt(cs[i].run, start, end)
    {
      if OnKey(cs[i], k) {
        StopBehind(cs[i].run, start, end, cs[i].pos);
      }
    }
  }

  /** A record inside the range lies before the stop. */
  lemma StopBehind(run: Run, start: Key, end: Key, p: nat)
    requires p < |run| && (end == [] || Lt(run[p].key, end))
    ensures p <= StopAt(run, start, end) ==> p < StopAt(run, start, end)
  {
    hide Lt, Le, Rank, LowerBound;
    var n := LowerBound(run, end);
    assert end != [] && n <= p && n < |run| ==> Le(end, run[n].key);
  }

  /** What a scan has put out so far: while no source has failed, the live pairs of the merge up to `end`. */
  ghost predicate ScannedSoFar(cs: seq<Cursor>, start: Key, end: Key, merged: Run, out: seq<(Key, Bytes)>) {
    && (AllOk(cs) ==> MergedSoFar(cs, start, merged) && out == Pairs(merged))
    && (forall m :: 0 <= m < |merged| ==> end == [] || Lt(merged[m].key, end))
    && Within(cs, start, end)
  }

  /** The cursors once every source has moved past the key. */
  ghost function Skipped(cs: seq<Cursor>, k: Key): seq<Cursor> {
    if AllWellFormed(cs) then Consume(cs, k) else cs
  }

  lemma ScanStep(cs: seq<Cursor>, start: Key, end: Key, merged: Run, out: seq<(Key, Bytes)>, k: Key, w: nat)
    requires AllWellFormed(cs) && ScannedSoFar(cs, start, end, merged, out)
    requires LeastHead(cs, k) && FirstOn(cs, k, w) && (end == [] || Lt(k, end))
    ensures var e := cs[w].Head();
      ScannedSoFar(Skipped(cs, k), start, end, merged + [e], if e.tombstone then out else out + [(k, e.value)])
    ensures AllWellFormed(Skipped(cs, k)) && SameSources(cs, Skipped(cs, k))
    ensures Remaining(Skipped(cs, k)) < Remaining(cs)
  {
    hide Lt, Le, Rank, MergedSoFar, Consume, Pairs, Sorted, Within, AllOk, Remaining;
    var e := cs[w].Head();
    ConsumeKeeps(cs, k);
    ConsumeShrinks(cs, k);
    ConsumeWithin(cs, start, end, k);
    if AllOk(Consume(cs, k)) {
      FailureStays(cs, k);
      MergeStep(cs, start, merged, k, w);
      PairsAppend(merged, e);
    }
  }

  /** The winner of the least key goes to the output unless it is a tombstone, and every source moves past the key. */
  method PutOut(mem: SkipCursor, its: seq<TableCursor>, ghost cs: seq<Cursor>, ghost start: Key, ghost end: Key,
                cur: Key, ghost best: nat, ghost merged: Run, out: seq<(Key, Bytes)>)
    returns (e: Entry, out': seq<(Key, Bytes)>)
    requires Placed(mem, its) && cs == SourcesAt(mem, its) && AllWellFormed(cs) && IsLeast(cs, best)
    requires cur == cs[best].Head().key && (end == [] || Lt(cur, end)) && ScannedSoFar(cs, start, end, merged, out)
    modifies mem, its
    ensures Placed(mem, its) && SourcesAt(mem, its) == Skipped(cs, cur) && AllWellFormed(Skipped(cs, cur))
    ensures ScannedSoFar(Skipped(cs, cur), start, end, merged + [e], out')
    ensures Remaining(Skipped(cs, cur)) < Remaining(cs)
  {
    hide Lt, Le, Rank, Skipped, Remaining, Sorted, Placed, SourcesAt, ScannedSoFar, SameSources;
    ghost var winner;
    e, winner := FirstSource(mem, its, cs, cur, best);
    ScanStep(cs, start, end, merged, out, cur, winner);
    SkipKey(mem, its, cur);
    out' := if e.tombstone then out else out + [(cur, e.value)];
  }

  lemma SameSourcesStep(first: seq<Cursor>, cs: seq<Cursor>, k: Key)
    requires SameSources(first, cs) && AllWellFormed(cs)
    ensures SameSources(first, Skipped(cs, k))
  {
    hide Consume;
    ConsumeKeeps(cs, k);
    SameSourcesChain(first, cs, Consume(cs, k));
  }

  /** The merge loop of a scan: it goes on past a source that has failed. */
  method MergeRange(mem: SkipCursor, its: seq<TableCursor>, start: Key, end: Key)
    returns (out: seq<(Key, Bytes)>, ghost merged: Run)
    requires Placed(mem, its) && ScannedSoFar(SourcesAt(mem, its), start, end, [], [])
    modifies mem, its
    ensures Placed(mem, its) && SameSources(old(SourcesAt(mem, its)), SourcesAt(mem, its))
    ensures ScannedSoFar(SourcesAt(mem, its), start, end, merged, out)
    ensures AllWellFormed(SourcesAt(mem, its)) && PastRange(SourcesAt(mem, its), end)
  {
    hide Lt, Le, Rank, Skipped, Remaining, Sorted, Placed, SourcesAt, ScannedSoFar, SameSources;
    out, merged := [], [];
    var bounded := end != [];
    ghost var cs := SourcesAt(mem, its);
    ghost var first := cs;
    SameAsItself(cs);
    PlacedWellFormed(mem, its);
    while true
      invariant Placed(mem, its) && cs == SourcesAt(mem, its) && AllWellFormed(cs)
      invariant SameSources(first, cs) && ScannedSoFar(cs, start, end, merged, out)
      decreases Remaining(cs)
    {
      var best := LeastSource(mem, its, cs);
      if best < 0 {
        break;
      }
      var cur := SourceKey(mem, its, cs, best);
      if bounded && Le(end, cur) {
        break;
      }
      SameSourcesStep(first, cs, cur);
      var e;
      e, out := PutOut(mem, its, cs, start, end, cur, best, merged, out);
      merged := merged + [e];
      cs := Skipped(cs, cur);
    }
  }

  /** Every source is at its end or behind the range. */
  ghost predicate PastRange(cs: seq<Cursor>, end: Key)
    requires AllWellFormed(cs)
  {
    forall i :: 0 <= i < |cs| && cs[i].Valid() ==> end != [] && Le(end, cs[i].Head().key)
  }

  method SourceKey(mem: SkipCursor, its: seq<TableCursor>, ghost cs: seq<Cursor>, i: nat) returns (k: Key)
    requires Placed(mem, its) && cs == SourcesAt(mem, its) && i < |cs| && cs[i].Valid()
    ensures cs[i].pos < |cs[i].run| && k == cs[i].Head().key
  {
    hide Placed, SourcesAt;
    SourceShows(mem, its, cs, i);
    k := if i == 0 then mem.node.key else its[i - 1].key;
  }

  lemma SameAsItself(cs: seq<Cursor>)
    ensures SameSources(cs, cs)
  {
  }

  lemma SameSourcesChain(cs: seq<Cursor>, ds: seq<Cursor>, es: seq<Cursor>)
    requires SameSources(cs, ds) && SameSources(ds, es)
    ensures SameSources(cs, es)
  {
  }

  // ---- The whole scan ----------------------------------------------------------------------------

  /** Every table can be read as far as the range reaches. */
  ghost predicate AllReach(its: seq<TableCursor>, start: Key, end: Key) {
    forall i :: 0 <= i < |its| ==> Reaches(its[i].reader, its[i].blocks, start, end)
  }

  /** A seek fails only on a table the range does not reach through. */
  lemma FailedSeek(it: TableCursor, start: Key, end: Key)
    requires Serves(it.reader, it.blocks) && !SeekCursor(it, start).Ok()
    ensures !Reaches(it.reader, it.blocks, start, end)
  {
    hide Lt, Le, Rank, LowerBound, Serves, Flatten, SeekLimit;
  }

  lemma SeekLimitBound(r: Reader, blocks: seq<Run>, start: Key)
    requires |blocks| == |r.index|
    ensures SeekLimit(r, blocks, start) <= |Flatten(blocks)|
  {
    hide Flatten, LimitFrom, CandidateIndex;
    var i := CandidateIndex(r.index, start);
    LimitBounds(r, blocks, if i < 0 then 0 else i);
  }

  /** Where a source stands at the end of the merge tells whether its table was read far enough. */
  lemma EndReaches(it: TableCursor, c: Cursor, start: Key, end: Key)
    requires Serves(it.reader, it.blocks) && SeekCursor(it, start).Ok()
    requires c.run == SeekCursor(it, start).run && c.limit == SeekCursor(it, start).limit && c.WellFormed()
    requires LowerBound(c.run, start) <= c.pos <= StopAt(c.run, start, end)
    requires c.Valid() ==> end != [] && Le(end, c.Head().key)
    ensures c.Ok() == Reaches(it.reader, it.blocks, start, end)
  {
    hide Lt, Le, Rank, Serves, Flatten, SeekLimit, Sorted, LowerBound;
    ServesSize(it.reader, it.blocks);
    SeekLimitBound(it.reader, it.blocks, start);
    if c.Valid() {
      StopBefore(c.run, start, end, c.pos);
    }
  }

  lemma StopBefore(run: Run, start: Key, end: Key, p: nat)
    requires LowerBound(run, start) <= p < |run| && end != [] && Le(end, run[p].key)
    ensures StopAt(run, start, end) <= p
  {
    hide Lt, Le, Rank, LowerBound;
  }

  /** Nothing is put out yet. */
  lemma ScanStarts(mem: SkipCursor, its: seq<TableCursor>, start: Key, end: Key)
    requires Placed(mem, its) && mem.pos == LowerBound(mem.list.contents, start)
    requires forall i :: 0 <= i < |its| ==> its[i].cursor == SeekCursor(its[i], start) && its[i].cursor.Ok()
    ensures ScannedSoFar(SourcesAt(mem, its), start, end, [], [])
  {
    hide Lt, Le, Rank, LowerBound, Placed, Flatten, SeekLimit, MergedSoFar, Sorted;
    var cs := SourcesAt(mem, its);
    PlacedWellFormed(mem, its);
    forall i | 0 <= i < |cs| ensures cs[i].pos == LowerBound(cs[i].run, start) {
      assert i > 0 ==> cs[i] == its[i - 1].cursor;
    }
    MergeStarts(cs, start);
    PairsAppend([], Entry([], [], false));
  }

  /** The statuses at the end. */
  method AllFine(its: seq<TableCursor>) returns (ok: bool)
    requires AllTrack(its)
    ensures ok == forall i :: 0 <= i < |its| ==> its[i].cursor.Ok()
  {
    hide AllTrack;
    var i := 0;
    while i < |its|
      invariant 0 <= i <= |its|
      invariant forall j :: 0 <= j < i ==> its[j].cursor.Ok()
    {
      TrackAt(its, i);
      if !its[i].ok {
        return false;
      }
      i := i + 1;
    }
    ok := true;
  }

  ghost predicate AllServed(its: seq<TableCursor>) {
    forall i :: 0 <= i < |its| ==> Serves(its[i].reader, its[i].blocks)
  }

  lemma AllServing(its: seq<TableCursor>)
    requires AllServe(its)
    ensures AllServed(its)
  {
    hide Serves;
  }

  lemma ReachesOver(its: seq<TableCursor>, tables: seq<FileMeta>, readers: Readers, start: Key, end: Key)
    requires Over(its, tables, readers)
    ensures AllReach(its, start, end) <==> forall f :: f in tables ==>
      f.number in readers && Reaches(readers[f.number], BlocksOf(f.run, BLOCK_SIZE), start, end)
  {
    hide Reaches, BlocksOf;
    if AllReach(its, start, end) {
      forall f | f in tables
        ensures f.number in readers && Reaches(readers[f.number], BlocksOf(f.run, BLOCK_SIZE), start, end)
      {
        var i :| 0 <= i < |tables| && tables[i] == f;
        assert Reaches(its[i].reader, its[i].blocks, start, end);
      }
    }
    forall i | 0 <= i < |its| ensures tables[i] in tables {
    }
  }

  lemma SeekFails(its: seq<TableCursor>, start: Key, end: Key)
    requires AllServed(its) && exists i :: 0 <= i < |its| && !SeekCursor(its[i], start).Ok()
    ensures !AllReach(its, start, end)
  {
    hide Reaches, SeekCursor, Serves;
    var i :| 0 <= i < |its| && !SeekCursor(its[i], start).Ok();
    FailedSeek(its[i], start, end);
  }

  /** The cursors of all sources right after the seeks. */
  ghost predicate Sought(cs: seq<Cursor>, contents: Run, its: seq<TableCursor>, start: Key) {
    && |cs| == |its| + 1 && cs[0].run == contents
    && forall i :: 0 <= i < |its| ==> cs[i + 1] == SeekCursor(its[i], start) && cs[i + 1].Ok()
  }

  lemma SourcesFirst(mem: SkipCursor, its: seq<TableCursor>, start: Key)
    requires forall i :: 0 <= i < |its| ==> its[i].cursor == SeekCursor(its[i], start)
    requires forall i :: 0 <= i < |its| ==> SeekCursor(its[i], start).Ok()
    ensures Sought(SourcesAt(mem, its), mem.list.contents, its, start)
  {
    hide SeekCursor;
  }

  lemma PlacedTracks(mem: SkipCursor, its: seq<TableCursor>)
    requires Placed(mem, its)
    ensures AllTrack(its)
  {
    hide AllTrack, SkipCursor.At;
  }

  /** What the scan's statuses and output mean once the merge has come to its end. */
  lemma ScanEnds(mem: SkipCursor, its: seq<TableCursor>, first: seq<Cursor>, tables: seq<FileMeta>, readers: Readers,
                 v: Version, start: Key, end: Key, merged: Run, out: seq<(Key, Bytes)>)
    requires Placed(mem, its) && AllServed(its) && Over(its, tables, readers) && tables == Tables(v)
    requires Sought(first, mem.list.contents, its, start)
    requires SameSources(first, SourcesAt(mem, its)) && AllWellFormed(SourcesAt(mem, its))
    requires ScannedSoFar(SourcesAt(mem, its), start, end, merged, out) && PastRange(SourcesAt(mem, its), end)
    ensures AllReach(its, start, end) <==> forall i :: 0 <= i < |its| ==> its[i].cursor.Ok()
    ensures AllReach(its, start, end) ==> IsScan(out, mem.list.contents, v, start, end)
  {
    hide Lt, Le, Rank, IsScan, Tables, Placed, Reaches, SeekCursor, LowerBound, Serves, MergedSoFar, Pairs, Sorted,
      Cursors;
    var cs := SourcesAt(mem, its);
    forall i | 0 <= i < |its| ensures its[i].cursor.Ok() == Reaches(its[i].reader, its[i].blocks, start, end) {
      assert cs[i + 1] == its[i].cursor;
      EndReaches(its[i], cs[i + 1], start, end);
    }
    if AllReach(its, start, end) {
      assert AllOk(cs);
      ScanRuns(its, cs, tables, readers, mem.list.contents, first, start);
      ScanComplete(cs, mem.list.contents, v, start, end, merged);
    }
  }

  lemma ScanRuns(its: seq<TableCursor>, cs: seq<Cursor>, tables: seq<FileMeta>, readers: Readers, contents: Run,
                 first: seq<Cursor>, start: Key)
    requires Over(its, tables, readers) && |first| == |its| + 1 && first[0].run == contents && SameSources(first, cs)
    requires forall i :: 0 <= i < |its| ==> first[i + 1] == SeekCursor(its[i], start)
    ensures RunsOf(cs) == [contents] + RunsIn(tables)
  {
    hide Flatten, BlocksOf, SeekLimit, LowerBound;
    forall i | 0 <= i < |cs| ensures RunsOf(cs)[i] == ([contents] + RunsIn(tables))[i] {
      if i > 0 {
        BlocksOfFlatten(tables[i - 1].run, BLOCK_SIZE);
        assert first[i] == SeekCursor(its[i - 1], start);
      }
    }
  }

  /** Seek, merge, and look at the statuses. */
  method ScanSources(mem: SkipCursor, its: seq<TableCursor>, start: Key, end: Key, ghost v: Version,
                     ghost readers: Readers)
    returns (ok: bool, out: seq<(Key, Bytes)>)
    requires mem.list.Valid() && AllDistinct(its) && AllServe(its) && Over(its, Tables(v), readers)
    modifies mem, its
    ensures ok == AllReach(its, start, end)
    ensures ok ==> IsScan(out, mem.list.contents, v, start, end)
  {
    hide Lt, Le, Rank, IsScan, Tables, SkipLists.SkipList.Valid, Over, AllServe, Placed, AllReach, SeekCursor,
      SourcesAt, ScannedSoFar, LowerBound, AllServed, Sought, SameSources;
    out := [];
    AllServing(its);
    ok := SeekSources(mem, its, start);
    if !ok {
      SeekFails(its, start, end);
      return;
    }
    ScanStarts(mem, its, start, end);
    ghost var first := SourcesAt(mem, its);
    SourcesFirst(mem, its, start);
    ghost var merged;
    out, merged := MergeRange(mem, its, start, end);
    ScanEnds(mem, its, first, Tables(v), readers, v, start, end, merged, out);
    PlacedTracks(mem, its);
    ok := AllFine(its);
  }

  /** A scan reports success exactly if every table can be read as far as the range reaches, and then returns
  exactly the live pairs of the range. */
  method ScanRange(list: SkipLists.SkipList, v: Version, readers: Readers, start: Key, end: Key,
                   ghost hash: Key -> Bloom.Hash)
    returns (ok: bool, out: seq<(Key, Bytes)>)
    requires list.Valid() && TablesStand(Tables(v), readers, hash)
    ensures ok ==> IsScan(out, list.contents, v, start, end)
    ensures ok == forall f :: f in Tables(v) ==>
      f.number in readers && Reaches(readers[f.number], BlocksOf(f.run, BLOCK_SIZE), start, end)
  {
    hide Lt, Le, Rank, IsScan, Tables, SkipLists.SkipList.Valid, TablesStand, Over, AllServe, AllReach, Reaches,
      SkipCursor.At;
    var tables := OpenTables(v);
    var mem := new SkipCursor(list);
    var its := OpenIterators(tables, readers, hash);
    ReachesOver(its, tables, readers, start, end);
    ok, out := ScanSources(mem, its, start, end, v, readers);
  }
}
