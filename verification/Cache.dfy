/** The LRU block cache: a recency list and a map into it, with a byte budget. */
module Cache {
  import opened Keys
  import opened Runs

  /** File number and block offset. */
  datatype BlockId = BlockId(file: nat, offset: nat)

  /** What one list entry holds, as a value. */
  datatype Cached = Cached(id: BlockId, block: Bytes)

  // ---- The cache on values -----------------------------------------------------------------------

  function Total(c: seq<Cached>): nat {
    if c == [] then 0 else Total(c[..|c| - 1]) + |c[|c| - 1].block|
  }

  ghost predicate DistinctIds(c: seq<Cached>) {
    forall i, j :: 0 <= i < j < |c| ==> c[i].id != c[j].id
  }

  predicate Holds(c: seq<Cached>, id: BlockId) {
    exists i :: 0 <= i < |c| && c[i].id == id
  }

  function Find(c: seq<Cached>, id: BlockId): (o: Option<Bytes>)
    ensures o.Some? <==> Holds(c, id)
  {
    if c == [] then None else if c[0].id == id then Some(c[0].block) else
      assert Holds(c[1..], id) <==> Holds(c, id) by {
        if Holds(c[1..], id) {
          var i :| 0 <= i < |c[1..]| && c[1..][i].id == id;
          assert c[i + 1].id == id;
        }
        if Holds(c, id) {
          var i :| 0 <= i < |c| && c[i].id == id;
          assert c[1..][i - 1].id == id;
        }
      }
      Find(c[1..], id)
  }

  /** The list without the entry for id. */
  function Without(c: seq<Cached>, id: BlockId): seq<Cached> {
    if c == [] then [] else if c[0].id == id then c[1..] else [c[0]] + Without(c[1..], id)
  }

  /** Drop entries from the old end while the budget is exceeded and more than one is left. */
  function Evict(c: seq<Cached>, capacity: nat): (r: seq<Cached>)
    ensures r <= c
    ensures c != [] ==> r != []
    ensures Total(r) <= capacity || |r| <= 1
  {
    if Total(c) > capacity && |c| > 1 then Evict(c[..|c| - 1], capacity) else c
  }

  /** The entries after a lookup. */
  function AfterLookup(c: seq<Cached>, id: BlockId): seq<Cached> {
    if Find(c, id).Some? then [Cached(id, Find(c, id).value)] + Without(c, id) else c
  }

  /** The entries after an insert: a refresh keeps every entry, a new block may push old ones out. */
  function AfterInsert(c: seq<Cached>, capacity: nat, id: BlockId, block: Bytes): seq<Cached> {
    if capacity == 0 then c
    else if Holds(c, id) then [Cached(id, block)] + Without(c, id)
    else Evict([Cached(id, block)] + c, capacity)
  }

  // ---- Lists without an entry --------------------------------------------------------------------

  lemma DistinctTail(c: seq<Cached>)
    requires DistinctIds(c) && c != []
    ensures DistinctIds(c[1..]) && forall x :: x in c[1..] ==> x.id != c[0].id
  {
    forall x | x in c[1..] ensures x.id != c[0].id {
      var i :| 0 <= i < |c[1..]| && c[1..][i] == x;
      assert c[i + 1] == x;
    }
  }

  lemma DistinctCons(x: Cached, c: seq<Cached>)
    requires DistinctIds(c) && forall y :: y in c ==> y.id != x.id
    ensures DistinctIds([x] + c)
  {
    var d := [x] + c;
    forall i, j | 0 <= i < j < |d| ensures d[i].id != d[j].id {
      assert d[j] in c;
    }
  }

  lemma {:induction false} WithoutMembers(c: seq<Cached>, id: BlockId)
    requires DistinctIds(c)
    ensures forall x :: x in Without(c, id) <==> x in c && x.id != id
    ensures DistinctIds(Without(c, id))
  {
    if c != [] {
      DistinctTail(c);
      if c[0].id != id {
        WithoutMembers(c[1..], id);
        DistinctCons(c[0], Without(c[1..], id));
      }
      assert forall x :: x in c <==> x == c[0] || x in c[1..];
    }
  }

  lemma {:induction false} WithoutTotal(c: seq<Cached>, id: BlockId)
    ensures !Holds(c, id) ==> Without(c, id) == c
    ensures Holds(c, id) ==>
      |Without(c, id)| == |c| - 1 && Total(c) == Total(Without(c, id)) + |Find(c, id).value|
  {
    if c != [] {
      var rest := c[1..];
      assert c == [c[0]] + rest;
      TotalCons(c[0], rest);
      assert Find(c, id).Some? == Holds(c, id);
      if c[0].id != id {
        WithoutTotal(rest, id);
        assert Find(rest, id).Some? == Holds(rest, id);
        TotalCons(c[0], Without(rest, id));
      }
    }
  }

  lemma {:induction false} TotalCons(x: Cached, c: seq<Cached>)
    ensures Total([x] + c) == |x.block| + Total(c)
  {
    if c == [] {
      assert [x] + c == [x];
      assert [x][..0] == [];
    } else {
      assert ([x] + c)[..|c|] == [x] + c[..|c| - 1];
      TotalCons(x, c[..|c| - 1]);
    }
  }

  lemma {:induction false} FindMember(c: seq<Cached>, id: BlockId)
    requires Find(c, id).Some?
    ensures Cached(id, Find(c, id).value) in c
  {
    if c[0].id != id {
      FindMember(c[1..], id);
    }
  }

  // ---- Runs of the cache -------------------------------------------------------------------------

  datatype Access = Look(id: BlockId) | Store(id: BlockId, block: Bytes)

  function After(c: seq<Cached>, capacity: nat, a: Access): seq<Cached> {
    match a
    case Look(id) => AfterLookup(c, id)
    case Store(id, block) => AfterInsert(c, capacity, id, block)
  }

  /** An access touches a block when it stores it or finds it. */
  predicate Touches(c: seq<Cached>, capacity: nat, a: Access) {
    match a
    case Look(id) => Holds(c, id)
    case Store(_, _) => capacity > 0
  }

  /** All blocks ever touched, the most recently touched first; nothing is ever dropped from it. */
  function Touch(recency: seq<BlockId>, id: BlockId): seq<BlockId> {
    [id] + RemoveId(recency, id)
  }

  function RemoveId(ids: seq<BlockId>, id: BlockId): seq<BlockId> {
    if ids == [] then [] else if ids[0] == id then ids[1..] else [ids[0]] + RemoveId(ids[1..], id)
  }

  function Ids(c: seq<Cached>): (ids: seq<BlockId>)
    ensures |ids| == |c|
    ensures forall i :: 0 <= i < |c| ==> ids[i] == c[i].id
  {
    seq(|c|, i requires 0 <= i < |c| => c[i].id)
  }

  lemma {:induction false} RemoveFromPrefix(c: seq<Cached>, recency: seq<BlockId>, id: BlockId)
    requires Ids(c) <= recency
    ensures Ids(Without(c, id)) <= RemoveId(recency, id)
  {
    if c != [] && c[0].id != id {
      RemoveFromPrefix(c[1..], recency[1..], id);
      assert Ids(Without(c, id)) == [c[0].id] + Ids(Without(c[1..], id));
      assert Ids(c)[1..] == Ids(c[1..]);
    } else if c != [] {
      assert Ids(c)[1..] == Ids(c[1..]);
    }
  }

  /** The cache always holds the most recently touched blocks: its list is a prefix of the recency order. */
  lemma AccessKeepsRecencyPrefix(c: seq<Cached>, capacity: nat, recency: seq<BlockId>, a: Access)
    requires DistinctIds(c) && Ids(c) <= recency
    ensures var c' := After(c, capacity, a);
      var recency' := if Touches(c, capacity, a) then Touch(recency, a.id) else recency;
      DistinctIds(c') && Ids(c') <= recency'
  {
    hide Without, Evict, DistinctIds, Touch, Total, Ids;
    if Touches(c, capacity, a) {
      var x := Cached(a.id, if a.Look? then Find(c, a.id).value else a.block);
      MoveToFront(c, recency, x);
      AfterIsPrefix(c, capacity, a, x);
      PrefixKeeps(After(c, capacity, a), [x] + Without(c, a.id), Touch(recency, a.id));
    } else {
      assert After(c, capacity, a) == c;
    }
  }

  /** A touched block comes to the front and, at most, the oldest ones go. */
  lemma AfterIsPrefix(c: seq<Cached>, capacity: nat, a: Access, x: Cached)
    requires Touches(c, capacity, a)
    requires x == Cached(a.id, if a.Look? then Find(c, a.id).value else a.block)
    ensures After(c, capacity, a) <= [x] + Without(c, a.id)
  {
    WithoutTotal(c, a.id);
  }

  lemma PrefixKeeps(c: seq<Cached>, d: seq<Cached>, recency: seq<BlockId>)
    requires c <= d && DistinctIds(d) && Ids(d) <= recency
    ensures DistinctIds(c) && Ids(c) <= recency
  {
    assert forall i :: 0 <= i < |c| ==> Ids(c)[i] == Ids(d)[i];
  }

  lemma MoveToFront(c: seq<Cached>, recency: seq<BlockId>, x: Cached)
    requires DistinctIds(c) && Ids(c) <= recency
    ensures DistinctIds([x] + Without(c, x.id)) && Ids([x] + Without(c, x.id)) <= Touch(recency, x.id)
  {
    WithoutMembers(c, x.id);
    DistinctCons(x, Without(c, x.id));
    RemoveFromPrefix(c, recency, x.id);
    assert Ids([x] + Without(c, x.id)) == [x.id] + Ids(Without(c, x.id));
  }

  /** Eviction takes no more than it must: every longer prefix would be over budget. */
  lemma {:induction false} EvictIsLongest(c: seq<Cached>, capacity: nat, d: seq<Cached>)
    requires d <= c && |d| > |Evict(c, capacity)|
    ensures Total(d) > capacity
  {
    if |d| < |c| {
      EvictIsLongest(c[..|c| - 1], capacity, d);
    } else {
      assert d == c;
    }
  }

  ghost predicate WithinBudget(c: seq<Cached>, capacity: nat) {
    Total(c) <= capacity || |c| <= 1
  }

  /** Storing a block keeps the budget exactly unless it refreshes, among others, a block with a larger one. */
  lemma StoreKeepsBudgetIff(c: seq<Cached>, capacity: nat, id: BlockId, block: Bytes)
    requires DistinctIds(c) && WithinBudget(c, capacity)
    ensures WithinBudget(AfterInsert(c, capacity, id, block), capacity) <==>
      !(capacity > 0 && Holds(c, id) && |c| > 1 && Total(c) - |Find(c, id).value| + |block| > capacity)
  {
    WithoutTotal(c, id);
    TotalCons(Cached(id, block), Without(c, id));
  }

  /** Every cached block is the one the file has. */
  ghost predicate Faithful(c: seq<Cached>, store: map<BlockId, Bytes>) {
    forall x :: x in c ==> x.id in store && x.block == store[x.id]
  }

  /** With one fixed block per place, as immutable files give, an access keeps the cache faithful and in budget. */
  lemma AccessKeepsFaithful(c: seq<Cached>, capacity: nat, a: Access, store: map<BlockId, Bytes>)
    requires DistinctIds(c) && Faithful(c, store) && WithinBudget(c, capacity)
    requires a.Store? ==> a.id in store && a.block == store[a.id]
    ensures Faithful(After(c, capacity, a), store) && WithinBudget(After(c, capacity, a), capacity)
  {
    hide Without, DistinctIds, Total, Evict, Find;
    WithoutMembers(c, a.id);
    WithoutTotal(c, a.id);
    if Find(c, a.id).Some? {
      FindMember(c, a.id);
      TotalCons(Cached(a.id, Find(c, a.id).value), Without(c, a.id));
    }
    if a.Store? && capacity > 0 && !Holds(c, a.id) {
      var pushed := [Cached(a.id, a.block)] + c;
      assert forall x :: x in Evict(pushed, capacity) ==> x in pushed;
    }
  }

  ghost function Play(c: seq<Cached>, capacity: nat, accesses: seq<Access>): seq<Cached> {
    if accesses == [] then c
    else After(Play(c, capacity, accesses[..|accesses| - 1]), capacity, accesses[|accesses| - 1])
  }

  ghost function PlayRecency(capacity: nat, accesses: seq<Access>): seq<BlockId> {
    if accesses == [] then []
    else
      var before, a := accesses[..|accesses| - 1], accesses[|accesses| - 1];
      var recency := PlayRecency(capacity, before);
      if Touches(Play([], capacity, before), capacity, a) then Touch(recency, a.id) else recency
  }

  /** Over any run of lookups and inserts of the blocks of immutable files: whatever the cache returns is what the
  file holds, it holds the most recently used blocks, and it stays within its budget or down to one block. */
  lemma {:induction false} CacheRun(capacity: nat, accesses: seq<Access>, store: map<BlockId, Bytes>)
    requires forall i :: 0 <= i < |accesses| && accesses[i].Store? ==>
               accesses[i].id in store && accesses[i].block == store[accesses[i].id]
    ensures var c := Play([], capacity, accesses);
      DistinctIds(c) && Faithful(c, store) && WithinBudget(c, capacity) && Ids(c) <= PlayRecency(capacity, accesses)
  {
    hide After, Faithful, WithinBudget, Touches, Touch;
    if accesses != [] {
      var before, a := accesses[..|accesses| - 1], accesses[|accesses| - 1];
      assert forall i :: 0 <= i < |before| ==> before[i] == accesses[i];
      CacheRun(capacity, before, store);
      AccessKeepsRecencyPrefix(Play([], capacity, before), capacity, PlayRecency(capacity, before), a);
      AccessKeepsFaithful(Play([], capacity, before), capacity, a, store);
    } else {
      EmptyCache(capacity, store);
    }
  }

  lemma EmptyCache(capacity: nat, store: map<BlockId, Bytes>)
    ensures Faithful([], store) && WithinBudget([], capacity)
  {
  }

  // ---- The cache object --------------------------------------------------------------------------

  /** A node of the recency list; the map points at it. */
  class Slot {
    const id: BlockId
    var block: Bytes
    var bytes: nat

    constructor (id: BlockId, block: Bytes)
      ensures this.id == id && this.block == block && bytes == |block|
    {
      this.id, this.block, bytes := id, block, |block|;
    }
  }

  function RemoveSlot(lru: seq<Slot>, slot: Slot): seq<Slot> {
    if lru == [] then [] else if lru[0] == slot then lru[1..] else [lru[0]] + RemoveSlot(lru[1..], slot)
  }

  lemma {:induction false} RemoveSlotAt(lru: seq<Slot>, slot: Slot, i: nat)
    requires i < |lru| && lru[i] == slot && forall j :: 0 <= j < i ==> lru[j] != slot
    ensures RemoveSlot(lru, slot) == lru[..i] + lru[i + 1..]
  {
    if i > 0 {
      RemoveSlotAt(lru[1..], slot, i - 1);
    }
  }

  lemma {:induction false} WithoutAt(c: seq<Cached>, id: BlockId, i: nat)
    requires i < |c| && c[i].id == id && DistinctIds(c)
    ensures Without(c, id) == c[..i] + c[i + 1..] && Find(c, id) == Some(c[i].block)
    decreases i
  {
    hide Holds;
    if i > 0 {
      DistinctTail(c);
      assert c[0].id != id;
      WithoutAt(c[1..], id, i - 1);
      assert c[1..][..i - 1] == c[1..i] && c[1..][i..] == c[i + 1..];
      assert c[..i] == [c[0]] + c[1..i];
    }
  }

  /** The nodes hold these entries. */
  ghost predicate Mirrors(lru: seq<Slot>, c: seq<Cached>)
    reads lru
  {
    |lru| == |c| && forall i :: 0 <= i < |lru| ==>
      lru[i].id == c[i].id && lru[i].block == c[i].block && lru[i].bytes == |c[i].block|
  }

  /** The map leads exactly to the nodes of the list. */
  ghost predicate Indexed(lru: seq<Slot>, index: map<BlockId, Slot>) {
    && (forall s :: s in lru ==> s.id in index && index[s.id] == s)
    && (forall id :: id in index ==> index[id] in lru && index[id].id == id)
  }

  lemma MovedSlots(lru: seq<Slot>, c: seq<Cached>, slot: Slot)
    requires Mirrors(lru, c) && DistinctIds(c) && slot in lru
    ensures Mirrors([slot] + RemoveSlot(lru, slot), [Cached(slot.id, slot.block)] + Without(c, slot.id))
    ensures forall s :: s in [slot] + RemoveSlot(lru, slot) <==> s in lru
    ensures Holds(c, slot.id) && Find(c, slot.id) == Some(slot.block)
    ensures DistinctIds([Cached(slot.id, slot.block)] + Without(c, slot.id))
    ensures Total([Cached(slot.id, slot.block)] + Without(c, slot.id)) == Total(c)
  {
    hide Without, Total, Find;
    var i :| 0 <= i < |lru| && lru[i] == slot;
    assert forall j :: 0 <= j < i ==> c[j].id != c[i].id;
    assert Holds(c, slot.id) by { assert c[i].id == slot.id; }
    RemoveSlotAt(lru, slot, i);
    WithoutAt(c, slot.id, i);
    MovedAt(lru, c, slot, i);
    MovedValues(c, c[i]);
  }

  lemma MovedAt(lru: seq<Slot>, c: seq<Cached>, slot: Slot, i: nat)
    requires Mirrors(lru, c) && i < |lru| && lru[i] == slot
    ensures Mirrors([slot] + (lru[..i] + lru[i + 1..]), [c[i]] + (c[..i] + c[i + 1..]))
    ensures forall s :: s in [slot] + (lru[..i] + lru[i + 1..]) <==> s in lru
  {
    assert lru == lru[..i] + [slot] + lru[i + 1..];
  }

  lemma MovedValues(c: seq<Cached>, x: Cached)
    requires DistinctIds(c) && x in c && Holds(c, x.id) && Find(c, x.id) == Some(x.block)
    ensures DistinctIds([x] + Without(c, x.id)) && Total([x] + Without(c, x.id)) == Total(c)
  {
    hide Find;
    WithoutMembers(c, x.id);
    DistinctCons(x, Without(c, x.id));
    WithoutTotal(c, x.id);
    TotalCons(x, Without(c, x.id));
  }

  class BlockCache {
    const capacity: nat
    var used: nat
    var lru: seq<Slot>
    var index: map<BlockId, Slot>
    var hits: nat
    var misses: nat
    ghost var contents: seq<Cached>

    /** List and map are in bijection, and the byte account is exact. */
    ghost predicate Valid()
      reads this, lru
    {
      Mirrors(lru, contents) && Indexed(lru, index) && DistinctIds(contents) && used == Total(contents)
    }

    ghost function Repr(): set<object>
      reads this
    {
      {this as object} + set x: Slot | x in lru :: x as object
    }

    constructor (capacity: nat)
      ensures Valid() && this.capacity == capacity && contents == [] && fresh(Repr())
    {
      this.capacity := capacity;
      used, lru, index, hits, misses := 0, [], map[], 0, 0;
      contents := [];
    }

    lemma IndexIsHolds(id: BlockId)
      requires Valid()
      ensures id in index <==> Holds(contents, id)
      ensures id in index ==> Find(contents, id) == Some(index[id].block)
    {
      if id in index {
        MovedSlots(lru, contents, index[id]);
      }
      if Holds(contents, id) {
        var i :| 0 <= i < |contents| && contents[i].id == id;
        assert lru[i] in lru && lru[i].id == id;
      }
    }

    /** Move a node of the list to the front. */
    method Promote(slot: Slot)
      requires Valid() && slot in lru
      modifies this`lru, this`contents
      ensures Valid() && Repr() == old(Repr())
      ensures contents == [Cached(slot.id, slot.block)] + Without(old(contents), slot.id)
    {
      hide Mirrors, DistinctIds, Without, Total;
      MovedSlots(lru, contents, slot);
      lru := [slot] + RemoveSlot(lru, slot);
      contents := [Cached(slot.id, slot.block)] + Without(contents, slot.id);
    }

    method Lookup(id: BlockId) returns (o: Option<Bytes>)
      requires Valid()
      modifies this
      ensures Valid() && Repr() == old(Repr())
      ensures o == Find(old(contents), id)
      ensures contents == AfterLookup(old(contents), id)
      ensures hits + misses == old(hits + misses) + 1 && hits == old(hits) + (if o.Some? then 1 else 0)
    {
      hide Mirrors, DistinctIds, Without, Total, Find;
      IndexIsHolds(id);
      if id !in index {
        misses := misses + 1;
        return None;
      }
      hits := hits + 1;
      var slot := index[id];
      Promote(slot);
      return Some(slot.block);
    }

    /** Refresh a node in place and move it to the front; nothing is evicted. */
    method Refresh(slot: Slot, block: Bytes)
      requires Valid() && slot in lru
      modifies this`used, this`lru, this`contents, slot
      ensures Valid() && Repr() == old(Repr())
      ensures contents == [Cached(slot.id, block)] + Without(old(contents), slot.id)
    {
      hide Without, Total, Find, DistinctIds, Indexed;
      ghost var i :| 0 <= i < |lru| && lru[i] == slot;
      ghost var before := contents;
      UpdatedValues(contents, i, block);
      used := used - slot.bytes;
      slot.block := block;
      slot.bytes := |block|;
      used := used + |block|;
      contents := contents[i := Cached(slot.id, block)];
      Promote(slot);
    }

    /** Evict from the old end until back under budget, always keeping one block. */
    method EvictOld()
      requires Valid()
      modifies this`used, this`lru, this`index, this`contents
      ensures Valid() && contents == Evict(old(contents), capacity)
      ensures forall x :: x in lru ==> x in old(lru)
    {
      hide Find, Mirrors, Indexed, DistinctIds, Total, Evict;
      ghost var before := contents;
      EvictStep(contents, capacity);
      MirrorsSize(lru, contents);
      while used > capacity && |lru| > 1
        invariant Valid() && |lru| == |contents| && Evict(contents, capacity) == Evict(before, capacity)
        invariant !(used > capacity && |lru| > 1) ==> contents == Evict(before, capacity)
        invariant forall x :: x in lru ==> x in old(lru)
        decreases |lru|
      {
        var victim := lru[|lru| - 1];
        EvictStep(contents, capacity);
        DropLast(lru, index, contents);
        used := used - victim.bytes;
        index := index - {victim.id};
        lru := lru[..|lru| - 1];
        contents := contents[..|contents| - 1];
        EvictStep(contents, capacity);
      }
    }

    method Insert(id: BlockId, block: Bytes)
      requires Valid()
      modifies Repr()
      ensures Valid() && fresh(Repr() - old(Repr()))
      ensures contents == AfterInsert(old(contents), capacity, id, block)
      ensures hits == old(hits) && misses == old(misses)
    {
      hide Find, Mirrors, Indexed, DistinctIds, Total, Evict, Without, Holds;
      if capacity == 0 {
        return;
      }
      IndexIsHolds(id);
      IndexMember(lru, index, id);
      if id in index {
        Refresh(index[id], block);
        return;
      }
      var slot := new Slot(id, block);
      PushFront(lru, index, contents, slot);
      lru := [slot] + lru;
      index := index[id := slot];
      used := used + |block|;
      contents := [Cached(id, block)] + contents;
      EvictOld();
    }
  }

  lemma UpdatedValues(c: seq<Cached>, i: nat, block: Bytes)
    requires DistinctIds(c) && i < |c|
    ensures var d := c[i := Cached(c[i].id, block)];
      DistinctIds(d) && Without(d, c[i].id) == Without(c, c[i].id)
      && |c[i].block| <= Total(c) && Total(d) == Total(c) - |c[i].block| + |block|
  {
    var d := c[i := Cached(c[i].id, block)];
    WithoutAt(c, c[i].id, i);
    WithoutAt(d, c[i].id, i);
    WithoutTotal(c, c[i].id);
    WithoutTotal(d, c[i].id);
    assert Holds(c, c[i].id);
    assert Holds(d, d[i].id);
  }

  lemma MirrorsSize(lru: seq<Slot>, c: seq<Cached>)
    requires Mirrors(lru, c)
    ensures |lru| == |c|
  {
  }

  lemma IndexMember(lru: seq<Slot>, index: map<BlockId, Slot>, id: BlockId)
    requires Indexed(lru, index)
    ensures id in index ==> index[id] in lru && index[id].id == id
  {
  }

  lemma EvictStep(c: seq<Cached>, capacity: nat)
    ensures Total(c) > capacity && |c| > 1 ==> Evict(c, capacity) == Evict(c[..|c| - 1], capacity)
    ensures !(Total(c) > capacity && |c| > 1) ==> Evict(c, capacity) == c
  {
  }

  lemma DropLast(lru: seq<Slot>, index: map<BlockId, Slot>, c: seq<Cached>)
    requires Mirrors(lru, c) && Indexed(lru, index) && DistinctIds(c) && lru != []
    ensures var n := |lru| - 1;
      Mirrors(lru[..n], c[..n]) && Indexed(lru[..n], index - {lru[n].id}) && DistinctIds(c[..n])
      && |c| == |lru| && Total(c) == Total(c[..n]) + lru[n].bytes
  {
    hide Indexed;
    var n := |lru| - 1;
    forall s | s in lru[..n] ensures s.id != lru[n].id {
      var i :| 0 <= i < n && lru[i] == s;
      assert c[i].id != c[n].id;
    }
    IndexWithout(lru, index);
  }

  lemma IndexWithout(lru: seq<Slot>, index: map<BlockId, Slot>)
    requires lru != [] && Indexed(lru, index)
    requires forall s :: s in lru[..|lru| - 1] ==> s.id != lru[|lru| - 1].id
    ensures Indexed(lru[..|lru| - 1], index - {lru[|lru| - 1].id})
  {
    var rest, last := lru[..|lru| - 1], lru[|lru| - 1];
    assert lru == rest + [last];
    forall id | id in index - {last.id} ensures index[id] in rest && index[id].id == id {
      assert index[id] in lru;
    }
  }

  lemma PushFront(lru: seq<Slot>, index: map<BlockId, Slot>, c: seq<Cached>, slot: Slot)
    requires Mirrors(lru, c) && Indexed(lru, index) && DistinctIds(c) && slot.id !in index && !Holds(c, slot.id)
    requires slot.bytes == |slot.block|
    ensures var x := Cached(slot.id, slot.block);
      Mirrors([slot] + lru, [x] + c) && Indexed([slot] + lru, index[slot.id := slot]) && DistinctIds([x] + c)
      && Total([x] + c) == Total(c) + |slot.block|
  {
    hide DistinctIds, Total;
    var x := Cached(slot.id, slot.block);
    forall y | y in c ensures y.id != x.id {
      var i :| 0 <= i < |c| && c[i] == y;
      assert c[i].id != slot.id;
    }
    DistinctCons(x, c);
    TotalCons(x, c);
    MirrorsFront(lru, c, slot);
    IndexedFront(lru, index, slot);
  }

  lemma MirrorsFront(lru: seq<Slot>, c: seq<Cached>, slot: Slot)
    requires Mirrors(lru, c) && slot.bytes == |slot.block|
    ensures Mirrors([slot] + lru, [Cached(slot.id, slot.block)] + c)
  {
  }

  lemma IndexedFront(lru: seq<Slot>, index: map<BlockId, Slot>, slot: Slot)
    requires Indexed(lru, index) && slot.id !in index
    ensures Indexed([slot] + lru, index[slot.id := slot])
  {
    var more, added := [slot] + lru, index[slot.id := slot];
    forall s | s in more ensures s.id in added && added[s.id] == s {
      assert s != slot ==> s in lru;
    }
    forall id | id in added ensures added[id] in more && added[id].id == id {
      assert id != slot.id ==> index[id] in lru;
    }
  }
}
