/** K-way newest-wins merge of sorted iterators, given in priority order (newest first). */
module Merge {
  import opened Keys
  import opened Runs

  // ---- Iterators ---------------------------------------------------------------------------------

  /** An iterator over a sorted run. Reading works up to `limit`; behind it lies a block that cannot be read. */
  datatype Cursor = Cursor(run: Run, pos: nat, limit: nat) {
    ghost predicate WellFormed() {
      Sorted(run) && pos <= limit <= |run|
    }

    predicate Valid() {
      pos < limit
    }

    /** status().ok() */
    predicate Ok() {
      pos < limit || limit >= |run|
    }

    function Head(): Entry
      requires pos < |run|
    {
      run[pos]
    }

    function Next(): Cursor {
      this.(pos := pos + 1)
    }
  }

  ghost predicate AllWellFormed(cs: seq<Cursor>) {
    forall i :: 0 <= i < |cs| ==> cs[i].WellFormed()
  }

  function RunsOf(cs: seq<Cursor>): (runs: seq<Run>)
    ensures |runs| == |cs|
    ensures forall i :: 0 <= i < |cs| ==> runs[i] == cs[i].run
  {
    seq(|cs|, i requires 0 <= i < |cs| => cs[i].run)
  }

  /** Same iterators over the same files, at other positions. */
  ghost predicate SameSources(cs: seq<Cursor>, ds: seq<Cursor>) {
    && |cs| == |ds|
    && forall i :: 0 <= i < |cs| ==> cs[i].run == ds[i].run && cs[i].limit == ds[i].limit
  }

  /** An iterator positioned at the first key not below k. `readable` is the first position the iterator cannot
  read on its way; if it lies before the key, the seek fails there. */
  function Seek(run: Run, k: Key, readable: nat): (c: Cursor)
    ensures c.run == run && c.pos <= c.limit <= |run|
    ensures c.Ok() ==> c.pos == LowerBound(run, k)
    ensures !c.Ok() ==> readable < |run|
  {
    var p := LowerBound(run, k);
    if readable < p then Cursor(run, readable, readable)
    else Cursor(run, p, if readable > |run| then |run| else readable)
  }

  // ---- One step of a merge -----------------------------------------------------------------------

  /** `out` is what a merge positioned at `start` has emitted when its children stand at cs: in order, every
  entry the newest one for its key, every consumed key emitted, every key still to come behind all of them. */
  ghost predicate MergedSoFar(cs: seq<Cursor>, start: Key, out: Run) {
    && Sorted(out)
    && (forall m :: 0 <= m < |out| ==> Le(start, out[m].key) && Newest(RunsOf(cs), out[m].key) == Some(out[m]))
    && (forall i, j :: 0 <= i < |cs| && 0 <= j < cs[i].pos && j < |cs[i].run| && Le(start, cs[i].run[j].key) ==>
          Emitted(out, cs[i].run[j].key))
    && (forall i, j, m :: 0 <= i < |cs| && cs[i].pos <= j < |cs[i].run| && 0 <= m < |out| ==>
          Lt(out[m].key, cs[i].run[j].key))
    && (forall i, j :: 0 <= i < |cs| && cs[i].pos <= j < |cs[i].run| ==> Le(start, cs[i].run[j].key))
  }

  predicate Emitted(out: Run, k: Key) {
    exists m :: 0 <= m < |out| && out[m].key == k
  }

  ghost predicate AllOk(cs: seq<Cursor>) {
    forall i :: 0 <= i < |cs| ==> cs[i].Ok()
  }

  predicate OnKey(c: Cursor, k: Key)
    requires c.limit <= |c.run|
  {
    c.Valid() && c.Head().key == k
  }

  /** No valid child stands on a key below k. */
  ghost predicate LeastHead(cs: seq<Cursor>, k: Key)
    requires AllWellFormed(cs)
  {
    forall i :: 0 <= i < |cs| && cs[i].Valid() ==> Le(k, cs[i].Head().key)
  }

  /** Child w is the first one that stands on k. */
  ghost predicate FirstOn(cs: seq<Cursor>, k: Key, w: nat)
    requires AllWellFormed(cs)
  {
    w < |cs| && OnKey(cs[w], k) && forall i :: 0 <= i < w ==> !OnKey(cs[i], k)
  }

  /** The children after every one that stands on k has moved on. */
  function Consume(cs: seq<Cursor>, k: Key): (ds: seq<Cursor>)
    requires forall i :: 0 <= i < |cs| ==> cs[i].limit <= |cs[i].run|
    ensures |ds| == |cs|
    ensures forall i :: 0 <= i < |cs| ==> ds[i] == if OnKey(cs[i], k) then cs[i].Next() else cs[i]
  {
    seq(|cs|, i requires 0 <= i < |cs| => if OnKey(cs[i], k) then cs[i].Next() else cs[i])
  }

  lemma ConsumeKeeps(cs: seq<Cursor>, k: Key)
    requires AllWellFormed(cs)
    ensures AllWellFormed(Consume(cs, k))
    ensures SameSources(cs, Consume(cs, k))
    ensures RunsOf(Consume(cs, k)) == RunsOf(cs)
  {
  }

  /** A child that does not win and stands before the winner does not hold the winning key at all. */
  lemma NotHeldBefore(cs: seq<Cursor>, start: Key, out: Run, k: Key, i: nat)
    requires AllWellFormed(cs) && AllOk(cs) && MergedSoFar(cs, start, out) && LeastHead(cs, k)
    requires i < |cs| && !OnKey(cs[i], k)
    requires Le(start, k) && forall m :: 0 <= m < |out| ==> Lt(out[m].key, k)
    ensures Lookup(cs[i].run, k).None?
  {
    var c := cs[i];
    forall j | 0 <= j < |c.run| ensures c.run[j].key != k {
      if j < c.pos {
        assert Le(start, c.run[j].key) ==> Emitted(out, c.run[j].key);
      } else {
        assert Le(k, c.Head().key);
        assert c.Head().key != k;
        assert j > c.pos ==> Lt(c.run[c.pos].key, c.run[j].key);
      }
    }
  }

  lemma WinnerIsNewest(cs: seq<Cursor>, start: Key, out: Run, k: Key, w: nat)
    requires AllWellFormed(cs) && AllOk(cs) && MergedSoFar(cs, start, out) && LeastHead(cs, k) && FirstOn(cs, k, w)
    ensures Newest(RunsOf(cs), k) == Some(cs[w].Head())
    ensures Le(start, k)
    ensures forall m :: 0 <= m < |out| ==> Lt(out[m].key, k)
  {
    assert cs[w].run[cs[w].pos].key == k;
    forall i | 0 <= i < w ensures Lookup(RunsOf(cs)[i], k).None? {
      NotHeldBefore(cs, start, out, k, i);
    }
    LookupAt(cs[w].run, cs[w].pos);
    NewestAt(RunsOf(cs), w, k);
  }

  /** Emitting the first child's entry for the least key and moving every child past that key keeps the merge. */
  lemma MergeStep(cs: seq<Cursor>, start: Key, out: Run, k: Key, w: nat)
    requires AllWellFormed(cs) && AllOk(cs) && MergedSoFar(cs, start, out) && LeastHead(cs, k) && FirstOn(cs, k, w)
    ensures MergedSoFar(Consume(cs, k), start, out + [cs[w].Head()])
  {
    hide Newest, Consume, Emitted;
    WinnerIsNewest(cs, start, out, k, w);
    ConsumeKeeps(cs, k);
    ConsumedIsEmitted(cs, start, out, cs[w].Head());
    RestIsAhead(cs, k);
  }

  lemma ConsumedIsEmitted(cs: seq<Cursor>, start: Key, out: Run, e: Entry)
    requires AllWellFormed(cs) && MergedSoFar(cs, start, out)
    ensures var ds := Consume(cs, e.key);
      forall i, j :: 0 <= i < |ds| && 0 <= j < ds[i].pos && j < |ds[i].run| && Le(start, ds[i].run[j].key) ==>
        Emitted(out + [e], ds[i].run[j].key)
  {
    var ds, out' := Consume(cs, e.key), out + [e];
    assert out'[|out|].key == e.key;
    forall i, j | 0 <= i < |ds| && 0 <= j < ds[i].pos && j < |ds[i].run| && Le(start, ds[i].run[j].key)
      ensures Emitted(out', ds[i].run[j].key)
    {
      if j < cs[i].pos {
        assert Emitted(out, cs[i].run[j].key);
        var m :| 0 <= m < |out| && out[m].key == cs[i].run[j].key;
        assert out'[m] == out[m];
      }
    }
  }

  lemma RestIsAhead(cs: seq<Cursor>, k: Key)
    requires AllWellFormed(cs) && AllOk(cs) && LeastHead(cs, k)
    ensures var ds := Consume(cs, k);
      forall i, j :: 0 <= i < |ds| && ds[i].pos <= j < |ds[i].run| ==> Lt(k, ds[i].run[j].key)
  {
    var ds := Consume(cs, k);
    forall i, j | 0 <= i < |ds| && ds[i].pos <= j < |ds[i].run| ensures Lt(k, ds[i].run[j].key) {
      assert cs[i].Valid();
      assert Le(k, cs[i].Head().key);
      assert j > cs[i].pos ==> Lt(cs[i].run[cs[i].pos].key, cs[i].run[j].key);
    }
  }

  /** Once every readable child is past k, the merge has emitted exactly what there is for k. */
  lemma MergeComplete(cs: seq<Cursor>, start: Key, out: Run, k: Key)
    requires AllWellFormed(cs) && AllOk(cs) && MergedSoFar(cs, start, out)
    requires Le(start, k) && forall i :: 0 <= i < |cs| && cs[i].Valid() ==> Lt(k, cs[i].Head().key)
    ensures Lookup(out, k) == Newest(RunsOf(cs), k)
  {
    if Emitted(out, k) {
      var m :| 0 <= m < |out| && out[m].key == k;
      LookupAt(out, m);
    } else {
      forall i | 0 <= i < |cs| ensures Lookup(RunsOf(cs)[i], k).None? {
        var c := cs[i];
        forall j | 0 <= j < |c.run| ensures c.run[j].key != k {
          assert j > c.pos && c.Valid() ==> Lt(c.run[c.pos].key, c.run[j].key);
        }
      }
      NewestNone(RunsOf(cs), k);
    }
  }

  /** Nothing emitted yet. */
  lemma MergeStarts(cs: seq<Cursor>, start: Key)
    requires AllWellFormed(cs)
    requires forall i :: 0 <= i < |cs| ==> cs[i].pos == LowerBound(cs[i].run, start)
    ensures MergedSoFar(cs, start, [])
  {
    hide Lt, Le, Rank;
    forall i, j | 0 <= i < |cs| && cs[i].pos <= j < |cs[i].run| ensures Le(start, cs[i].run[j].key) {
      assert j > cs[i].pos ==> Lt(cs[i].run[cs[i].pos].key, cs[i].run[j].key);
    }
  }

  /** Once a source has failed it stays failed. */
  lemma FailureStays(cs: seq<Cursor>, k: Key)
    requires AllWellFormed(cs) && AllOk(Consume(cs, k))
    ensures AllOk(cs)
  {
    forall i | 0 <= i < |cs| ensures cs[i].Ok() {
      assert Consume(cs, k)[i].Ok();
    }
  }

  // ---- Progress and end --------------------------------------------------------------------------

  /** How many entries the children can still give. */
  function Remaining(cs: seq<Cursor>): nat {
    if cs == [] then 0
    else
      var c := cs[|cs| - 1];
      Remaining(cs[..|cs| - 1]) + if c.pos < c.limit then c.limit - c.pos else 0
  }

  lemma {:induction false} ConsumeShrinks(cs: seq<Cursor>, k: Key)
    requires AllWellFormed(cs)
    ensures Remaining(Consume(cs, k)) <= Remaining(cs)
    ensures (exists i :: 0 <= i < |cs| && OnKey(cs[i], k)) ==> Remaining(Consume(cs, k)) < Remaining(cs)
  {
    hide Lt, Le, Rank;
    if cs != [] {
      var rest := cs[..|cs| - 1];
      assert AllWellFormed(rest);
      ConsumeShrinks(rest, k);
      assert Consume(cs, k)[..|cs| - 1] == Consume(rest, k);
      if i :| 0 <= i < |cs| && OnKey(cs[i], k) {
        if i < |cs| - 1 {
          assert OnKey(rest[i], k);
        }
      }
    }
  }

  /** A merge that ends without a failure has consumed every child and holds, in order, exactly the newest entry
  of every key any of them has. */
  lemma FinishedMerge(cs: seq<Cursor>, out: Run)
    requires AllWellFormed(cs) && MergedSoFar(cs, [], out)
    requires forall i :: 0 <= i < |cs| ==> cs[i].pos == |cs[i].run|
    ensures IsMerge(RunsOf(cs), out)
  {
    forall k ensures Lookup(out, k) == Newest(RunsOf(cs), k) {
      MergeComplete(cs, [], out, k);
    }
  }

  ghost predicate IsMerge(runs: seq<Run>, out: Run) {
    Sorted(out) && forall k :: Lookup(out, k) == Newest(runs, k)
  }
}
