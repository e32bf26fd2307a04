/** Sorted runs of entries, and the newest-wins view of a list of runs given newest first. */
module Runs {
  import opened Keys

  datatype Option<+T> = None | Some(value: T)

  type Run = seq<Entry>

  /** Strictly ascending keys: the form of a memtable's contents and of every table. */
  ghost predicate Sorted(run: Run) {
    forall i, j :: 0 <= i < j < |run| ==> Lt(run[i].key, run[j].key)
  }

  /** The entry of a run for key k. */
  function Lookup(run: Run, k: Key): (o: Option<Entry>)
    ensures o.Some? ==> o.value in run && o.value.key == k
    ensures o.None? ==> forall e :: e in run ==> e.key != k
  {
    if run == [] then None else if run[0].key == k then Some(run[0]) else Lookup(run[1..], k)
  }

  /** The entry for key k in the first run that has one. */
  function Newest(runs: seq<Run>, k: Key): (o: Option<Entry>)
    ensures o.Some? ==> o.value.key == k
  {
    if runs == [] then None else if Lookup(runs[0], k).Some? then Lookup(runs[0], k) else Newest(runs[1..], k)
  }

  function OrElse(a: Option<Entry>, b: Option<Entry>): Option<Entry> {
    if a.Some? then a else b
  }

  function Result(o: Option<Entry>): LookupResult {
    if o.None? then NotFound else if o.value.tombstone then Deleted else Found(o.value.value)
  }

  /** The value a reader may see: a deleted key is as good as an absent one. */
  function Visible(o: Option<Entry>): Option<Bytes> {
    if o.Some? && !o.value.tombstone then Some(o.value.value) else None
  }

  // ---- Lookup ------------------------------------------------------------------------------------

  lemma {:induction false} LookupAt(run: Run, i: nat)
    requires Sorted(run) && i < |run|
    ensures Lookup(run, run[i].key) == Some(run[i])
  {
    if i > 0 {
      assert run[1..][i - 1] == run[i];
      LookupAt(run[1..], i - 1);
    }
  }

  lemma {:induction false} LookupAppend(a: Run, b: Run, k: Key)
    ensures Lookup(a + b, k) == OrElse(Lookup(a, k), Lookup(b, k))
  {
    if a == [] {
      assert a + b == b;
    } else {
      assert (a + b)[1..] == a[1..] + b;
      LookupAppend(a[1..], b, k);
    }
  }

  /** A sorted run is determined by what it answers. */
  lemma {:induction false} SortedUnique(a: Run, b: Run)
    requires Sorted(a) && Sorted(b)
    requires forall k :: Lookup(a, k) == Lookup(b, k)
    ensures a == b
  {
    assert b != [] ==> Lookup(a, b[0].key) == Lookup(b, b[0].key);
    if a != [] {
      assert Lookup(a, a[0].key) == Lookup(b, a[0].key);
      assert b != [];
      var i :| 0 <= i < |b| && b[i] == a[0];
      var j :| 0 <= j < |a| && a[j] == b[0];
      assert a[0] == b[0];
      forall k ensures Lookup(a[1..], k) == Lookup(b[1..], k) {
        assert Lookup(a, k) == Lookup(b, k);
        if k == a[0].key {
          assert forall e :: e in a[1..] ==> e.key != k;
          assert forall e :: e in b[1..] ==> e.key != k;
        }
      }
      SortedUnique(a[1..], b[1..]);
    }
  }

  // ---- Newest ------------------------------------------------------------------------------------

  lemma {:induction false} NewestAppend(a: seq<Run>, b: seq<Run>, k: Key)
    ensures Newest(a + b, k) == OrElse(Newest(a, k), Newest(b, k))
  {
    if a == [] {
      assert a + b == b;
    } else {
      assert (a + b)[1..] == a[1..] + b;
      NewestAppend(a[1..], b, k);
    }
  }

  lemma {:induction false} NewestNone(runs: seq<Run>, k: Key)
    ensures Newest(runs, k).None? <==> forall i :: 0 <= i < |runs| ==> Lookup(runs[i], k).None?
  {
    if runs != [] {
      NewestNone(runs[1..], k);
      assert forall i :: 0 < i < |runs| ==> runs[i] == runs[1..][i - 1];
    }
  }

  /** The lowest-index run that has the key answers. */
  lemma {:induction false} NewestAt(runs: seq<Run>, i: nat, k: Key)
    requires i < |runs| && Lookup(runs[i], k).Some?
    requires forall j :: 0 <= j < i ==> Lookup(runs[j], k).None?
    ensures Newest(runs, k) == Lookup(runs[i], k)
  {
    if i > 0 {
      assert runs[1..][i - 1] == runs[i];
      NewestAt(runs[1..], i - 1, k);
    }
  }

  // ---- Upsert ------------------------------------------------------------------------------------

  /** A sorted run with the entry for e.key inserted or replaced. */
  function Upsert(run: Run, e: Entry): (r: Run)
    ensures forall x :: x in r ==> x == e || x in run
  {
    if run == [] then [e]
    else if Lt(run[0].key, e.key) then [run[0]] + Upsert(run[1..], e)
    else if run[0].key == e.key then [e] + run[1..]
    else [e] + run
  }

  lemma {:induction false} UpsertSorted(run: Run, e: Entry)
    requires Sorted(run)
    ensures Sorted(Upsert(run, e))
  {
    hide Lt, Le, Rank;
    if run != [] && Lt(run[0].key, e.key) {
      UpsertSorted(run[1..], e);
      forall x | x in Upsert(run[1..], e) ensures Lt(run[0].key, x.key) {
        if x != e {
          assert x in run[1..];
          var i :| 0 <= i < |run[1..]| && run[1..][i] == x;
          assert run[i + 1] == x;
        }
      }
    } else if run != [] && run[0].key != e.key {
      assert Lt(e.key, run[0].key);
      forall i | 0 <= i < |run| ensures Lt(e.key, run[i].key) {
        assert i > 0 ==> Lt(run[0].key, run[i].key);
      }
    }
  }

  lemma {:induction false} UpsertLookup(run: Run, e: Entry, k: Key)
    requires Sorted(run)
    ensures Lookup(Upsert(run, e), k) == if k == e.key then Some(e) else Lookup(run, k)
  {
    if run != [] {
      if Lt(run[0].key, e.key) {
        UpsertLookup(run[1..], e, k);
        assert Upsert(run, e)[1..] == Upsert(run[1..], e);
      } else if run[0].key == e.key {
        assert Upsert(run, e)[1..] == run[1..];
      } else {
        assert Upsert(run, e)[1..] == run;
      }
    } else {
      assert [e][1..] == [];
    }
  }

  // ---- Seeking -----------------------------------------------------------------------------------

  /** The first position whose key is not below k. */
  function LowerBound(run: Run, k: Key): (p: nat)
    ensures p <= |run|
    ensures forall i :: 0 <= i < p ==> Lt(run[i].key, k)
    ensures p < |run| ==> Le(k, run[p].key)
  {
    if run == [] || !Lt(run[0].key, k) then
      0
    else
      var p := LowerBound(run[1..], k);
      assert forall i :: 0 < i < p + 1 ==> run[i] == run[1..][i - 1];
      p + 1
  }

  lemma LowerBoundUnique(run: Run, k: Key, p: nat)
    requires Sorted(run) && p <= |run|
    requires forall i :: 0 <= i < p ==> Lt(run[i].key, k)
    requires p < |run| ==> Le(k, run[p].key)
    ensures LowerBound(run, k) == p
  {
    hide Lt, Le, Rank;
    var q := LowerBound(run, k);
    assert q < p ==> Lt(run[q].key, k);
    assert p < q ==> Lt(run[p].key, k);
  }
}
