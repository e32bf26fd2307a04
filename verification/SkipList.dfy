/** The memtable: a skip list of linked nodes, each on as many levels as its height. */
module SkipList {
  import opened Keys
  import opened Runs

  const MAX_LEVEL: nat := 16
  const POINTER_SIZE: nat := 8

  class Node {
    const key: Key
    var value: Bytes
    var tombstone: bool
    var forward: seq<Node?>

    constructor (key: Key, value: Bytes, tombstone: bool, height: nat)
      ensures this.key == key && this.value == value && this.tombstone == tombstone
      ensures forward == seq(height, _ => null)
    {
      this.key, this.value, this.tombstone := key, value, tombstone;
      forward := seq(height, _ => null);
    }
  }

  // ---- The shape of the links, on values ---------------------------------------------------------

  /** The first position from i on whose height reaches above level l. */
  ghost function Succ(hs: seq<nat>, i: nat, l: nat): (m: nat)
    requires i <= |hs|
    ensures i <= m <= |hs|
    ensures m < |hs| ==> hs[m] > l
    ensures forall j :: i <= j < m ==> hs[j] <= l
    decreases |hs| - i
  {
    if i == |hs| || hs[i] > l then i else Succ(hs, i + 1, l)
  }

  ghost function NodeAt(nodes: seq<Node>, m: nat): Node?
    requires m <= |nodes|
  {
    if m == |nodes| then null else nodes[m]
  }

  /** Every link leads to the next node that is tall enough, so each level is a sublist of the level below. `hf`
  are the head's links, `fw` the links of the nodes in order, `hs` their heights. */
  ghost predicate Linked(nodes: seq<Node>, hs: seq<nat>, hf: seq<Node?>, fw: seq<seq<Node?>>) {
    && |nodes| == |hs| == |fw| && |hf| == MAX_LEVEL
    && (forall j :: 0 <= j < |hs| ==> |fw[j]| == hs[j])
    && (forall l :: 0 <= l < MAX_LEVEL ==> hf[l] == NodeAt(nodes, Succ(hs, 0, l)))
    && (forall j, l :: 0 <= j < |hs| && 0 <= l < hs[j] ==> fw[j][l] == NodeAt(nodes, Succ(hs, j + 1, l)))
  }

  /** The positions whose link on level l a new node at position p takes over; -1 is the head. */
  ghost predicate Before(hs: seq<nat>, p: nat, l: nat, i: int) {
    && -1 <= i < p <= |hs|
    && (i >= 0 ==> hs[i] > l)
    && Succ(hs, i + 1, l) >= p
  }

  /** The link on level l of the node at position i, or of the head. */
  ghost function LinkOf(hf: seq<Node?>, fw: seq<seq<Node?>>, i: int, l: nat): Node? {
    if i < 0 then (if l < |hf| then hf[l] else null)
    else if i < |fw| && l < |fw[i]| then fw[i][l] else null
  }

  ghost function Inserted<T>(s: seq<T>, p: nat, x: T): (r: seq<T>)
    requires p <= |s|
    ensures |r| == |s| + 1
  {
    s[..p] + [x] + s[p..]
  }

  lemma SuccUnique(hs: seq<nat>, i: nat, l: nat, m: nat)
    requires i <= m <= |hs| && (m < |hs| ==> hs[m] > l) && forall j :: i <= j < m ==> hs[j] <= l
    ensures Succ(hs, i, l) == m
  {
    var s := Succ(hs, i, l);
    assert !(s < m) && !(m < s);
  }

  /** Where the links of the longer list lead. */
  lemma SuccInserted(hs: seq<nat>, p: nat, h: nat, i: nat, l: nat)
    requires p <= |hs| && i <= |hs|
    ensures var hs' := Inserted(hs, p, h);
      && (i >= p ==> Succ(hs', i + 1, l) == Succ(hs, i, l) + 1)
      && (i <= p && Succ(hs, i, l) < p ==> Succ(hs', i, l) == Succ(hs, i, l))
      && (i <= p <= Succ(hs, i, l) && h > l ==> Succ(hs', i, l) == p)
      && (i <= p <= Succ(hs, i, l) && h <= l ==> Succ(hs', i, l) == Succ(hs, i, l) + 1)
  {
    hide Succ;
    var hs' := Inserted(hs, p, h);
    var m := Succ(hs, i, l);
    assert forall j :: 0 <= j < p ==> hs'[j] == hs[j];
    assert forall j :: p < j < |hs'| ==> hs'[j] == hs[j - 1];
    assert hs'[p] == h;
    if i >= p {
      SuccUnique(hs', i + 1, l, m + 1);
    }
    if i <= p {
      if m < p {
        SuccUnique(hs', i, l, m);
      } else if h > l {
        SuccUnique(hs', i, l, p);
      } else {
        SuccUnique(hs', i, l, m + 1);
      }
    }
  }

  /** Two positions cannot both be the last tall one before p. */
  lemma BeforeUnique(hs: seq<nat>, p: nat, l: nat, i: int, j: int)
    requires Before(hs, p, l, i) && Before(hs, p, l, j)
    ensures i == j
  {
  }

  /** The links after a node of height h was spliced in at position p: on each of its levels it takes over the
  link of the last tall node before it; no other link changes. */
  ghost predicate Spliced(hs: seq<nat>, hf: seq<Node?>, fw: seq<seq<Node?>>, p: nat, node: Node, h: nat,
                          before: seq<int>,
                          hf': seq<Node?>, fw': seq<seq<Node?>>, nf: seq<Node?>) {
    && p <= |hs| == |fw| && |nf| == h
    && LinkedUpTo(hf, fw, node, before, h, hf', fw', nf)
    && (forall l :: 0 <= l < h ==> Before(hs, p, l, before[l]))
  }

  lemma SpliceKeepsLinks(nodes: seq<Node>, hs: seq<nat>, hf: seq<Node?>, fw: seq<seq<Node?>>,
                         p: nat, node: Node, h: nat, before: seq<int>,
                         hf': seq<Node?>, fw': seq<seq<Node?>>, nf: seq<Node?>)
    requires Linked(nodes, hs, hf, fw) && Spliced(hs, hf, fw, p, node, h, before, hf', fw', nf)
    ensures Linked(Inserted(nodes, p, node), Inserted(hs, p, h), hf', Inserted(fw', p, nf))
  {
    hide Succ, Spliced, LinkOf;
    SplicedSizes(nodes, hs, hf, fw, p, node, h, before, hf', fw', nf);
    var nodes', hs', fw2 := Inserted(nodes, p, node), Inserted(hs, p, h), Inserted(fw', p, nf);
    forall l | 0 <= l < MAX_LEVEL ensures hf'[l] == NodeAt(nodes', Succ(hs', 0, l)) {
      SpliceHeadLink(nodes, hs, hf, fw, p, node, h, before, hf', fw', nf, l);
    }
    forall j, l | 0 <= j < |hs'| && 0 <= l < hs'[j] ensures fw2[j][l] == NodeAt(nodes', Succ(hs', j + 1, l)) {
      SpliceNodeLink(nodes, hs, hf, fw, p, node, h, before, hf', fw', nf, j, l);
    }
  }

  lemma SplicedSizes(nodes: seq<Node>, hs: seq<nat>, hf: seq<Node?>, fw: seq<seq<Node?>>,
                     p: nat, node: Node, h: nat, before: seq<int>,
                     hf': seq<Node?>, fw': seq<seq<Node?>>, nf: seq<Node?>)
    requires Linked(nodes, hs, hf, fw) && Spliced(hs, hf, fw, p, node, h, before, hf', fw', nf)
    ensures p <= |nodes| == |hs| == |fw'| && |hf'| == MAX_LEVEL
    ensures var hs', fw2 := Inserted(hs, p, h), Inserted(fw', p, nf);
      |fw2| == |hs'| && forall j :: 0 <= j < |hs'| ==> |fw2[j]| == hs'[j]
  {
    hide Succ;
  }

  lemma SpliceHeadLink(nodes: seq<Node>, hs: seq<nat>, hf: seq<Node?>, fw: seq<seq<Node?>>,
                       p: nat, node: Node, h: nat, before: seq<int>,
                       hf': seq<Node?>, fw': seq<seq<Node?>>, nf: seq<Node?>, l: nat)
    requires Linked(nodes, hs, hf, fw) && Spliced(hs, hf, fw, p, node, h, before, hf', fw', nf) && l < MAX_LEVEL
    ensures hf'[l] == NodeAt(Inserted(nodes, p, node), Succ(Inserted(hs, p, h), 0, l))
  {
    hide Succ;
    SpliceLink(nodes, hs, p, node, h, before, 0, l);
  }

  lemma SpliceNodeLink(nodes: seq<Node>, hs: seq<nat>, hf: seq<Node?>, fw: seq<seq<Node?>>,
                       p: nat, node: Node, h: nat, before: seq<int>,
                       hf': seq<Node?>, fw': seq<seq<Node?>>, nf: seq<Node?>, j: nat, l: nat)
    requires Linked(nodes, hs, hf, fw) && Spliced(hs, hf, fw, p, node, h, before, hf', fw', nf)
    requires j < |Inserted(hs, p, h)| && l < Inserted(hs, p, h)[j] && |Inserted(fw', p, nf)[j]| == Inserted(hs, p, h)[j]
    ensures Inserted(fw', p, nf)[j][l] == NodeAt(Inserted(nodes, p, node), Succ(Inserted(hs, p, h), j + 1, l))
  {
    hide Succ, NodeAt, LinkOf, Before, LinkedUpTo, Linked, Spliced;
    SplicedSizes(nodes, hs, hf, fw, p, node, h, before, hf', fw', nf);
    SplicedBefore(hs, hf, fw, p, node, h, before, hf', fw', nf);
    var fw2 := Inserted(fw', p, nf);
    if j < p {
      assert fw2[j] == fw'[j];
      NodeLinks(nodes, hs, hf, fw, p, node, h, before, hf', fw', nf, j, l);
      SpliceLink(nodes, hs, p, node, h, before, j + 1, l);
    } else if j == p {
      assert fw2[j] == nf;
      NewNodeLink(nodes, hs, hf, fw, p, node, h, before, l);
      NewLinks(hs, hf, fw, p, node, h, before, hf', fw', nf, l);
    } else {
      assert fw2[j] == fw'[j - 1];
      NodeLinks(nodes, hs, hf, fw, p, node, h, before, hf', fw', nf, j - 1, l);
      BeforeBound(hs, p, l, before, h);
      LaterLink(nodes, hs, p, node, h, j, l);
    }
  }

  lemma SplicedBefore(hs: seq<nat>, hf: seq<Node?>, fw: seq<seq<Node?>>, p: nat, node: Node, h: nat, before: seq<int>,
                      hf': seq<Node?>, fw': seq<seq<Node?>>, nf: seq<Node?>)
    requires Spliced(hs, hf, fw, p, node, h, before, hf', fw', nf)
    ensures h <= |before| && h <= MAX_LEVEL && |nf| == h && forall l :: 0 <= l < h ==> Before(hs, p, l, before[l])
  {
  }

  lemma NewLinks(hs: seq<nat>, hf: seq<Node?>, fw: seq<seq<Node?>>, p: nat, node: Node, h: nat, before: seq<int>,
                 hf': seq<Node?>, fw': seq<seq<Node?>>, nf: seq<Node?>, l: nat)
    requires Spliced(hs, hf, fw, p, node, h, before, hf', fw', nf) && l < h
    ensures l < |nf| && l < |before| && nf[l] == LinkOf(hf, fw, before[l], l)
  {
  }

  lemma NodeLinks(nodes: seq<Node>, hs: seq<nat>, hf: seq<Node?>, fw: seq<seq<Node?>>, p: nat, node: Node, h: nat,
                  before: seq<int>, hf': seq<Node?>, fw': seq<seq<Node?>>, nf: seq<Node?>, j: nat, l: nat)
    requires Linked(nodes, hs, hf, fw) && Spliced(hs, hf, fw, p, node, h, before, hf', fw', nf)
    requires j < |hs| && l < hs[j]
    ensures j < |fw'| && l < |fw'[j]| && h <= |before|
    ensures fw'[j][l] == if l < h && before[l] == j then node else NodeAt(nodes, Succ(hs, j + 1, l))
  {
    hide Succ, NodeAt, Before;
    assert LinkAfter(fw, node, before, h, fw', j, l);
  }

  lemma BeforeBound(hs: seq<nat>, p: nat, l: nat, before: seq<int>, h: nat)
    requires h <= |before| && (l < h ==> Before(hs, p, l, before[l]))
    ensures l < h ==> before[l] < p
  {
  }

  lemma NewNodeLink(nodes: seq<Node>, hs: seq<nat>, hf: seq<Node?>, fw: seq<seq<Node?>>,
                    p: nat, node: Node, h: nat, before: seq<int>, l: nat)
    requires Linked(nodes, hs, hf, fw) && p <= |nodes| && l < h <= MAX_LEVEL && h <= |before|
    requires Before(hs, p, l, before[l])
    ensures LinkOf(hf, fw, before[l], l) == NodeAt(Inserted(nodes, p, node), Succ(Inserted(hs, p, h), p + 1, l))
  {
    hide Succ;
    SuccInserted(hs, p, h, p, l);
    SuccSkips(hs, before[l] + 1, p, l);
    ShiftedNode(nodes, p, node, Succ(hs, p, l));
  }

  lemma ShiftedNode(nodes: seq<Node>, p: nat, node: Node, m: nat)
    requires p <= m <= |nodes|
    ensures NodeAt(Inserted(nodes, p, node), m + 1) == NodeAt(nodes, m)
  {
  }

  lemma LaterLink(nodes: seq<Node>, hs: seq<nat>, p: nat, node: Node, h: nat, j: nat, l: nat)
    requires |nodes| == |hs| && p < j <= |hs|
    ensures NodeAt(Inserted(nodes, p, node), Succ(Inserted(hs, p, h), j + 1, l)) == NodeAt(nodes, Succ(hs, j, l))
  {
    hide Succ;
    SuccInserted(hs, p, h, j, l);
    ShiftedNode(nodes, p, node, Succ(hs, j, l));
  }

  lemma SuccSkips(hs: seq<nat>, i: nat, p: nat, l: nat)
    requires i <= p <= |hs| && Succ(hs, i, l) >= p
    ensures Succ(hs, p, l) == Succ(hs, i, l)
  {
    SuccUnique(hs, p, l, Succ(hs, i, l));
  }

  lemma SpliceLink(nodes: seq<Node>, hs: seq<nat>, p: nat, node: Node, h: nat, before: seq<int>, i: nat, l: nat)
    requires |nodes| == |hs| && i <= p <= |nodes| && h <= |before|
    requires forall l :: 0 <= l < h ==> Before(hs, p, l, before[l])
    requires i > 0 ==> hs[i - 1] > l
    ensures NodeAt(Inserted(nodes, p, node), Succ(Inserted(hs, p, h), i, l))
         == if l < h && before[l] == i - 1 then node else NodeAt(nodes, Succ(hs, i, l))
  {
    hide Succ;
    SuccInserted(hs, p, h, i, l);
    var m := Succ(hs, i, l);
    if m >= p {
      if l < h {
        BeforeUnique(hs, p, l, i - 1, before[l]);
      } else {
        ShiftedNode(nodes, p, node, m);
      }
    } else if l < h && before[l] == i - 1 {
      assert false;
    }
  }

  // ---- Memory accounting -------------------------------------------------------------------------

  function NodeBytes(e: Entry, height: nat, nodeSize: nat): nat {
    |e.key| + |e.value| + nodeSize + height * POINTER_SIZE
  }

  function Usage(run: Run, hs: seq<nat>, nodeSize: nat): nat
    requires |run| == |hs|
  {
    if run == [] then 0
    else Usage(run[..|run| - 1], hs[..|hs| - 1], nodeSize) + NodeBytes(run[|run| - 1], hs[|hs| - 1], nodeSize)
  }

  /** The memory account once an entry is in: the difference of the values, or one more node. */
  function UsageWith(usage: nat, run: Run, e: Entry, height: nat, nodeSize: nat): int {
    var before := Lookup(run, e.key);
    if before.Some? then usage - |before.value.value| + |e.value|
    else usage + |e.key| + |e.value| + nodeSize + height * 8
  }

  lemma InsertedFront<T>(s: seq<T>, p: nat, x: T)
    requires p <= |s|
    ensures var r := Inserted(s, p, x);
      if p == |s| then r[..|s|] == s && r[|s|] == x
      else r[..|s|] == Inserted(s[..|s| - 1], p, x) && r[|s|] == s[|s| - 1]
  {
  }

  lemma {:induction false} UsageInserted(run: Run, hs: seq<nat>, nodeSize: nat, p: nat, e: Entry, h: nat)
    requires |run| == |hs| && p <= |run|
    ensures Usage(Inserted(run, p, e), Inserted(hs, p, h), nodeSize)
         == Usage(run, hs, nodeSize) + NodeBytes(e, h, nodeSize)
  {
    hide Inserted, NodeBytes;
    InsertedFront(run, p, e);
    InsertedFront(hs, p, h);
    if p < |run| {
      UsageInserted(run[..|run| - 1], hs[..|hs| - 1], nodeSize, p, e, h);
    }
  }

  lemma {:induction false} UsageUpdated(run: Run, hs: seq<nat>, nodeSize: nat, p: nat, e: Entry)
    requires |run| == |hs| && p < |run| && e.key == run[p].key
    ensures |run[p].value| <= Usage(run, hs, nodeSize)
    ensures Usage(run[p := e], hs, nodeSize) == Usage(run, hs, nodeSize) - |run[p].value| + |e.value|
  {
    var r0, h0 := run[..|run| - 1], hs[..|hs| - 1];
    if p < |run| - 1 {
      assert run[p := e][..|run| - 1] == r0[p := e];
      UsageUpdated(r0, h0, nodeSize, p, e);
    } else {
      assert run[p := e][..|run| - 1] == r0;
    }
  }

  // ---- Upsert by position ------------------------------------------------------------------------

  lemma {:induction false} UpsertAt(run: Run, e: Entry, p: nat)
    requires p <= |run|
    requires forall i :: 0 <= i < p ==> Lt(run[i].key, e.key)
    requires p < |run| ==> Le(e.key, run[p].key)
    ensures Upsert(run, e) == if p < |run| && run[p].key == e.key then run[p := e] else Inserted(run, p, e)
    decreases p
  {
    hide Lt, Le, Rank, Inserted, Upsert;
    UpsertUnfold(run, e);
    if p > 0 {
      assert Lt(run[0].key, e.key);
      assert forall i :: 0 <= i < p - 1 ==> run[1..][i] == run[i + 1];
      UpsertAt(run[1..], e, p - 1);
      FrontStays(run, p, e);
    } else {
      assert Inserted(run, 0, e) == [e] + run by { InsertedFirst(run, e); }
      assert run != [] ==> run[0 := e] == [e] + run[1..];
    }
  }

  lemma UpsertUnfold(run: Run, e: Entry)
    ensures run == [] ==> Upsert(run, e) == [e]
    ensures run != [] && Lt(run[0].key, e.key) ==> Upsert(run, e) == [run[0]] + Upsert(run[1..], e)
    ensures run != [] && !Lt(run[0].key, e.key) ==>
      Upsert(run, e) == [e] + if run[0].key == e.key then run[1..] else run
  {
    hide Lt;
  }

  lemma InsertedFirst<T>(s: seq<T>, x: T)
    ensures Inserted(s, 0, x) == [x] + s
  {
    assert s[..0] == [] && s[0..] == s;
  }

  lemma FrontStays(run: Run, p: nat, e: Entry)
    requires 0 < p <= |run|
    ensures Inserted(run, p, e) == [run[0]] + Inserted(run[1..], p - 1, e)
    ensures p < |run| ==> run[p := e] == [run[0]] + run[1..][p - 1 := e]
  {
    assert run[..p] == [run[0]] + run[1..][..p - 1] && run[p..] == run[1..][p - 1..];
  }

  // ---- The list ----------------------------------------------------------------------------------

  ghost predicate Distinct(ns: seq<Node>) {
    forall i, j :: 0 <= i < j < |ns| ==> ns[i] != ns[j]
  }

  /** The nodes have these links and hold these entries. */
  ghost predicate Mirrors(ns: seq<Node>, links: seq<seq<Node?>>, run: Run)
    reads ns
  {
    && |ns| == |links| == |run|
    && forall i :: 0 <= i < |ns| ==>
         && ns[i].forward == links[i] && ns[i].key == run[i].key
         && ns[i].value == run[i].value && ns[i].tombstone == run[i].tombstone
  }

  ghost predicate HeightsWithin(hs: seq<nat>, level: nat) {
    forall i :: 0 <= i < |hs| ==> 1 <= hs[i] <= level
  }

  lemma HeightsInserted(hs: seq<nat>, level: nat, p: nat, h: nat, level': nat)
    requires HeightsWithin(hs, level) && p <= |hs| && level <= level' && 1 <= h <= level'
    ensures HeightsWithin(Inserted(hs, p, h), level')
  {
    var hs' := Inserted(hs, p, h);
    forall i | 0 <= i < |hs'| ensures 1 <= hs'[i] <= level' {
      assert hs'[i] == if i < p then hs[i] else if i == p then h else hs[i - 1];
    }
  }

  lemma DistinctInserted(ns: seq<Node>, p: nat, node: Node)
    requires Distinct(ns) && p <= |ns| && node !in ns
    ensures Distinct(Inserted(ns, p, node))
    ensures forall n :: n in Inserted(ns, p, node) <==> n == node || n in ns
  {
    var ns' := Inserted(ns, p, node);
    forall i, j | 0 <= i < j < |ns'| ensures ns'[i] != ns'[j] {
      assert ns'[i] == if i < p then ns[i] else if i == p then node else ns[i - 1];
      assert ns'[j] == if j < p then ns[j] else if j == p then node else ns[j - 1];
    }
    assert ns'[p] == node;
    forall n | n in ns ensures n in ns' {
      var i :| 0 <= i < |ns| && ns[i] == n;
      assert ns'[if i < p then i else i + 1] == n;
    }
  }

  lemma MirrorsSizes(ns: seq<Node>, links: seq<seq<Node?>>, run: Run)
    requires Mirrors(ns, links, run)
    ensures |ns| == |links| == |run|
  {
  }

  lemma MirrorsInserted(ns: seq<Node>, links: seq<seq<Node?>>, run: Run, p: nat, node: Node, nf: seq<Node?>, e: Entry)
    requires Mirrors(ns, links, run) && p <= |ns|
    requires node.forward == nf && node.key == e.key && node.value == e.value && node.tombstone == e.tombstone
    ensures Mirrors(Inserted(ns, p, node), Inserted(links, p, nf), Inserted(run, p, e))
  {
    var ns', links', run' := Inserted(ns, p, node), Inserted(links, p, nf), Inserted(run, p, e);
    forall i | 0 <= i < |ns'|
      ensures ns'[i].forward == links'[i] && ns'[i].key == run'[i].key
      ensures ns'[i].value == run'[i].value && ns'[i].tombstone == run'[i].tombstone
    {
      if i < p {
        assert ns'[i] == ns[i] && links'[i] == links[i] && run'[i] == run[i];
      } else if i > p {
        assert ns'[i] == ns[i - 1] && links'[i] == links[i - 1] && run'[i] == run[i - 1];
      }
    }
  }

  class SkipList {
    const head: Node
    const nodeSize: nat
    var level: nat
    var count: nat
    var memUsage: nat

    /** The nodes in key order with their heights and links, and the entries they hold. */
    ghost var nodes: seq<Node>
    ghost var hs: seq<nat>
    ghost var fw: seq<seq<Node?>>
    ghost var contents: Run

    ghost predicate Valid()
      reads this, head, nodes
    {
      && head !in nodes && Distinct(nodes)
      && Linked(nodes, hs, head.forward, fw)
      && Mirrors(nodes, fw, contents)
      && Sorted(contents)
      && 1 <= level <= MAX_LEVEL && HeightsWithin(hs, level)
      && count == |nodes|
      && memUsage == Usage(contents, hs, nodeSize)
    }

    ghost function Repr(): set<object>
      reads this
    {
      {this, head} + set n | n in nodes
    }

    constructor (nodeSize: nat)
      ensures Valid() && contents == [] && fresh(Repr()) && count == 0 && memUsage == 0
      ensures this.nodeSize == nodeSize
    {
      this.nodeSize := nodeSize;
      head := new Node([], [], false, MAX_LEVEL);
      level, count, memUsage := 1, 0, 0;
      nodes, hs, fw, contents := [], [], [], [];
    }

    /** The node at position i, or the head at -1. */
    ghost function Place(i: int): Node
      requires -1 <= i < |nodes|
      reads this
    {
      if i == -1 then head else nodes[i]
    }

    /** x stands at position i, left of key, and has a link on level l. */
    ghost predicate StandsAt(x: Node, i: int, key: Key, l: nat)
      requires Valid()
      reads this, head, nodes
    {
      && -1 <= i < |nodes| && x == Place(i)
      && l < |x.forward|
      && (i >= 0 ==> Lt(nodes[i].key, key))
    }

    lemma LinkFrom(x: Node, i: int, key: Key, l: nat)
      requires Valid() && StandsAt(x, i, key, l)
      ensures x.forward[l] == NodeAt(nodes, Succ(hs, i + 1, l))
      ensures i >= 0 ==> hs[i] > l
    {
    }

    /** Walk one level to the right while the next key is smaller. */
    method WalkLevel(x0: Node, key: Key, l: nat, ghost i0: int) returns (x: Node, ghost i: int)
      requires Valid() && StandsAt(x0, i0, key, l)
      ensures i0 <= i && StandsAt(x, i, key, l)
      ensures var m := Succ(hs, i + 1, l); m < |nodes| ==> Le(key, nodes[m].key)
    {
      hide Succ, Linked;
      x, i := x0, i0;
      LinkedSizes(nodes, hs, head.forward, fw);
      LinkFrom(x, i, key, l);
      while x.forward[l] != null && Lt(x.forward[l].key, key)
        invariant i0 <= i && StandsAt(x, i, key, l)
        invariant x.forward[l] == NodeAt(nodes, Succ(hs, i + 1, l))
        decreases |nodes| - i
      {
        i := Succ(hs, i + 1, l);
        x := x.forward[l];
        LinkFrom(x, i, key, l);
      }
    }

    /** update[l] is the last node on level l left of key. */
    ghost predicate Walked(key: Key, update: seq<Node>, at: seq<int>, from: nat)
      requires Valid()
      reads this, head, nodes
    {
      && |update| == |at| == MAX_LEVEL
      && (forall l :: 0 <= l < MAX_LEVEL ==> -1 <= at[l] < |nodes| && update[l] == Place(at[l]))
      && (forall l :: from <= l < level ==> OnLevel(key, at[l], l))
      && (forall l :: level <= l < MAX_LEVEL ==> at[l] == -1)
    }

    ghost predicate OnLevel(key: Key, i: int, l: nat)
      requires Valid()
      reads this, head, nodes
    {
      && -1 <= i < |nodes|
      && (i >= 0 ==> Lt(nodes[i].key, key) && hs[i] > l)
      && var m := Succ(hs, i + 1, l); m < |nodes| ==> Le(key, nodes[m].key)
    }

    /** The search shared by inserts, lookups and seeks: down the levels, on each one as far right as possible. */
    method Walk(key: Key) returns (update: seq<Node>, ghost at: seq<int>)
      requires Valid()
      ensures Walked(key, update, at, 0)
    {
      hide Succ, Linked, Lt, Le, Rank, Walked, Usage, Sorted;
      LinkedSizes(nodes, hs, head.forward, fw);
      update, at := seq(MAX_LEVEL, _ => head), seq(MAX_LEVEL, _ => -1);
      WalkedStart(key, update, at);
      var x := head;
      ghost var xi := -1;
      var i := level;
      while i > 0
        invariant 0 <= i <= level
        invariant i > 0 ==> StandsAt(x, xi, key, i - 1)
        invariant |update| == |at| == MAX_LEVEL && Walked(key, update, at, i)
      {
        i := i - 1;
        x, xi := WalkLevel(x, key, i, xi);
        LinkFrom(x, xi, key, i);
        WalkedStep(key, update, at, i, x, xi);
        update := update[i := x];
        at := at[i := xi];
      }
    }

    lemma WalkedStart(key: Key, update: seq<Node>, at: seq<int>)
      requires Valid() && update == seq(MAX_LEVEL, _ => head) && at == seq(MAX_LEVEL, _ => -1)
      ensures Walked(key, update, at, level)
    {
      hide Lt, Le, Rank, Linked, Usage, Sorted;
    }

    lemma WalkedStep(key: Key, update: seq<Node>, at: seq<int>, i: nat, x: Node, xi: int)
      requires Valid() && Walked(key, update, at, i + 1) && i < level
      requires -1 <= xi < |nodes| && OnLevel(key, xi, i) && x == Place(xi)
      ensures Walked(key, update[i := x], at[i := xi], i)
    {
      hide Lt, Le, Rank, OnLevel, Linked, Usage, Sorted;
    }

    /** Where the search ends: everything left of it is smaller, and it is where a new node links in. */
    lemma WalkEnds(key: Key, update: seq<Node>, at: seq<int>)
      requires Valid() && Walked(key, update, at, 0)
      ensures var p := at[0] + 1;
        && p <= |nodes|
        && (forall i :: 0 <= i < p ==> Lt(nodes[i].key, key))
        && (p < |nodes| ==> Le(key, nodes[p].key))
        && (forall l :: 0 <= l < MAX_LEVEL ==> Before(hs, p, l, at[l]))
        && update[0].forward != [] && update[0].forward[0] == NodeAt(nodes, p)
    {
      hide Lt, Le, Rank;
      var p := at[0] + 1;
      assert OnLevel(key, at[0], 0);
      assert Succ(hs, p, 0) == p by { SuccUnique(hs, p, 0, p); }
      forall i, j | 0 <= i < j < |nodes| ensures Lt(nodes[i].key, nodes[j].key) {
        assert Lt(contents[i].key, contents[j].key);
      }
      forall l | 0 <= l < MAX_LEVEL ensures Before(hs, p, l, at[l]) {
        if l < level {
          assert OnLevel(key, at[l], l);
        } else {
          SuccUnique(hs, 0, l, |hs|);
        }
      }
    }

    method Get(key: Key) returns (r: LookupResult)
      requires Valid()
      ensures r == Result(Lookup(contents, key))
    {
      var update, at := Walk(key);
      WalkEnds(key, update, at);
      var next := update[0].forward[0];
      ghost var p := at[0] + 1;
      if next != null && next.key == key {
        LookupAt(contents, p);
        return if next.tombstone then Deleted else Found(next.value);
      }
      FoundOnlyAt(contents, key, p);
      return NotFound;
    }

    method Put(key: Key, value: Bytes, height: nat)
      requires Valid() && 1 <= height <= MAX_LEVEL
      modifies Repr()
      ensures Valid() && fresh(Repr() - old(Repr()))
      ensures contents == Upsert(old(contents), Entry(key, value, false))
      ensures memUsage == UsageWith(old(memUsage), old(contents), Entry(key, value, false), height, nodeSize)
    {
      Insert(key, value, false, height);
    }

    method Delete(key: Key, height: nat)
      requires Valid() && 1 <= height <= MAX_LEVEL
      modifies Repr()
      ensures Valid() && fresh(Repr() - old(Repr()))
      ensures contents == Upsert(old(contents), Entry(key, [], true))
      ensures memUsage == UsageWith(old(memUsage), old(contents), Entry(key, [], true), height, nodeSize)
    {
      Insert(key, [], true, height);
    }

    /** Insert or overwrite, whatever height the new node draws. */
    method Insert(key: Key, value: Bytes, tombstone: bool, height: nat)
      requires Valid() && 1 <= height <= MAX_LEVEL
      modifies Repr()
      ensures Valid() && fresh(Repr() - old(Repr()))
      ensures contents == Upsert(old(contents), Entry(key, value, tombstone))
      ensures memUsage == UsageWith(old(memUsage), old(contents), Entry(key, value, tombstone), height, nodeSize)
    {
      hide Lt, Le, Rank, Succ, Linked, Upsert, Usage, Sorted, Lookup;
      var update, at := Walk(key);
      WalkEnds(key, update, at);
      ghost var p, e := at[0] + 1, Entry(key, value, tombstone);
      var next := update[0].forward[0];
      UpsertAt(contents, e, p);
      UpsertSorted(contents, e);
      if next != null && next.key == key {
        LookupAt(contents, p);
        Overwrite(next, value, tombstone, p);
      } else {
        FoundOnlyAt(contents, key, p);
        Splice(key, value, tombstone, height, update, at, p);
      }
    }

    /** Replace the value of a node in place, and the memory account by the difference in size. */
    method Overwrite(next: Node, value: Bytes, tombstone: bool, ghost p: nat)
      requires Valid() && p < |nodes| && next == nodes[p]
      requires Sorted(contents[p := Entry(next.key, value, tombstone)])
      modifies this, next
      ensures Valid() && nodes == old(nodes)
      ensures contents == old(contents)[p := Entry(next.key, value, tombstone)]
      ensures memUsage == old(memUsage) - |old(contents)[p].value| + |value|
    {
      hide Lt, Le, Rank, Succ, Linked, Usage, Sorted;
      LinkedSizes(nodes, hs, head.forward, fw);
      UsageUpdated(contents, hs, nodeSize, p, Entry(next.key, value, tombstone));
      memUsage := memUsage - |next.value|;
      next.value := value;
      next.tombstone := tombstone;
      memUsage := memUsage + |next.value|;
      contents := contents[p := Entry(next.key, value, tombstone)];
    }

    /** Link a new node in behind the nodes found by the search, level by level. */
    method LinkIn(node: Node, update: seq<Node>, ghost at: seq<int>, height: nat)
      returns (ghost hf: seq<Node?>, ghost links: seq<seq<Node?>>)
      requires |update| == |at| == MAX_LEVEL && 1 <= height <= MAX_LEVEL
      requires head !in nodes && node !in nodes && node != head && |node.forward| == height && Distinct(nodes)
      requires |head.forward| == MAX_LEVEL && Mirrors(nodes, fw, contents)
      requires forall l :: 0 <= l < height ==> CanTake(fw, at[l], l) && update[l] == Place(at[l])
      modifies head, node, nodes
      ensures head.forward == hf && Mirrors(nodes, links, contents)
      ensures node.value == old(node.value) && node.tombstone == old(node.tombstone)
      ensures |node.forward| == height && LinkedUpTo(old(head.forward), fw, node, at, height, hf, links, node.forward)
    {
      hide LinkedUpTo;
      ghost var hf0 := head.forward;
      hf, links := hf0, fw;
      LinkedUpToZero(hf0, fw, node, at, node.forward);
      var i := 0;
      while i < height
        invariant 0 <= i <= height && |node.forward| == height
        invariant |hf| == MAX_LEVEL && head.forward == hf
        invariant Mirrors(nodes, links, contents)
        invariant node.value == old(node.value) && node.tombstone == old(node.tombstone)
        invariant LinkedUpTo(hf0, fw, node, at, i, hf, links, node.forward)
      {
        var u := update[i];
        LinkStep(hf0, fw, node, at, i, hf, links, node.forward);
        node.forward := node.forward[i := u.forward[i]];
        u.forward := u.forward[i := node];
        if at[i] == -1 {
          hf := hf[i := node];
        } else {
          links := links[at[i] := links[at[i]][i := node]];
        }
        i := i + 1;
      }
    }

    /** Levels above the current one start at the head. */
    method Raise(height: nat, found: seq<Node>, ghost at: seq<int>) returns (update: seq<Node>)
      requires |found| == |at| == MAX_LEVEL && height <= MAX_LEVEL
      requires forall l :: 0 <= l < MAX_LEVEL ==> -1 <= at[l] < |nodes|
      requires forall l :: 0 <= l < level ==> l < MAX_LEVEL ==> found[l] == Place(at[l])
      requires forall l :: level <= l < MAX_LEVEL ==> at[l] == -1
      modifies this`level
      ensures level == if height > old(level) then height else old(level)
      ensures |update| == MAX_LEVEL && forall l :: 0 <= l < height ==> update[l] == Place(at[l])
    {
      update := found;
      if height > level {
        var i := level;
        while i < height
          invariant level <= i <= height
          invariant |update| == MAX_LEVEL
          invariant forall l :: 0 <= l < i ==> update[l] == Place(at[l])
        {
          update := update[i := head];
          i := i + 1;
        }
        level := height;
      }
    }

    /** Insert a new node at the place the search found. */
    method Splice(key: Key, value: Bytes, tombstone: bool, height: nat, found: seq<Node>, ghost at: seq<int>,
                  ghost p: nat)
      requires Valid() && 1 <= height <= MAX_LEVEL
      requires |found| == |at| == MAX_LEVEL && p <= |nodes|
      requires forall l :: 0 <= l < MAX_LEVEL ==> Before(hs, p, l, at[l])
      requires forall l :: 0 <= l < MAX_LEVEL ==> -1 <= at[l] < |nodes| && (l < level ==> found[l] == Place(at[l]))
      requires forall l :: level <= l < MAX_LEVEL ==> at[l] == -1
      requires Sorted(Inserted(contents, p, Entry(key, value, tombstone)))
      modifies Repr()
      ensures Valid() && fresh(Repr() - old(Repr()))
      ensures contents == Inserted(old(contents), p, Entry(key, value, tombstone))
      ensures memUsage == old(memUsage) + NodeBytes(Entry(key, value, tombstone), height, nodeSize)
    {
      hide Lt, Le, Rank, Succ, Linked, Usage, Sorted, LinkedUpTo, Mirrors, Distinct, HeightsWithin, Inserted;
      LinkedSizes(nodes, hs, head.forward, fw);
      MirrorsSizes(nodes, fw, contents);
      var update := Raise(height, found, at);
      var node := new Node(key, value, tombstone, height);
      ghost var e := Entry(key, value, tombstone);
      ghost var hf0 := head.forward;
      ghost var hf, links := LinkIn(node, update, at, height);
      LinkedAfterSplice(nodes, hs, hf0, fw, p, node, height, at, hf, links, node.forward);
      UsageInserted(contents, hs, nodeSize, p, e, height);
      DistinctInserted(nodes, p, node);
      MirrorsInserted(nodes, links, contents, p, node, node.forward, e);
      HeightsInserted(hs, old(level), p, height, level);
      nodes, hs, fw := Inserted(nodes, p, node), Inserted(hs, p, height), Inserted(links, p, node.forward);
      contents := Inserted(contents, p, e);
      count := count + 1;
      memUsage := memUsage + |key| + |value| + nodeSize + height * POINTER_SIZE;
    }

    // ---- Levels ----------------------------------------------------------------------------------

    /** The nodes met by following the links of level l from x on, at most so many. */
    ghost function Chain(x: Node?, l: nat, most: nat): seq<Node>
      reads this, nodes
    {
      if x == null || most == 0 || x !in nodes || l >= |x.forward| then []
      else [x] + Chain(x.forward[l], l, most - 1)
    }

    /** Level l: the nodes met by following the links of level l from the head on. */
    ghost function Level(l: nat): seq<Node>
      reads this, head, nodes
    {
      if l < |head.forward| then Chain(head.forward[l], l, |nodes|) else []
    }

    lemma LinkIs(m: nat, l: nat)
      requires Valid() && m < |nodes| == |hs| && l < hs[m]
      ensures nodes[m] in nodes && l < |nodes[m].forward| && nodes[m].forward[l] == NodeAt(nodes, Succ(hs, m + 1, l))
    {
      hide Lt, Le, Rank, Sorted, Usage, Succ, Distinct, HeightsWithin;
      assert nodes[m].forward == fw[m] && |fw[m]| == hs[m];
      assert fw[m][l] == NodeAt(nodes, Succ(hs, m + 1, l));
    }

    lemma {:induction false} ChainIs(i: nat, l: nat, most: nat)
      requires Valid() && i <= |nodes| && l < MAX_LEVEL && most >= |nodes| - i
      ensures |hs| == |nodes| && Chain(NodeAt(nodes, Succ(hs, i, l)), l, most) == LevelFrom(nodes, hs, i, l)
      decreases |nodes| - i
    {
      hide Lt, Le, Rank, Sorted, Usage, Succ, Linked, Mirrors, Distinct, HeightsWithin;
      LinkedSizes(nodes, hs, head.forward, fw);
      var m := Succ(hs, i, l);
      if m < |nodes| {
        LinkIs(m, l);
        ChainIs(m + 1, l, most - 1);
      }
    }

    lemma LevelIs(l: nat)
      requires Valid() && l < MAX_LEVEL
      ensures |hs| == |nodes| && Level(l) == LevelFrom(nodes, hs, 0, l)
    {
      hide Lt, Le, Rank, Sorted, Usage, Succ, Chain, LevelFrom;
      ChainIs(0, l, |nodes|);
    }

    /** The nodes linked on each level are a sublist of the nodes linked on the level below. */
    lemma UpperLevelsNest(l: nat)
      requires Valid() && l + 1 < MAX_LEVEL
      ensures Sublist(Level(l + 1), Level(l))
    {
      hide Lt, Le, Rank, Sorted, Usage, Succ, Chain, LevelFrom, Sublist;
      LevelIs(l);
      LevelIs(l + 1);
      LevelsNest(nodes, hs, 0, l);
    }

    /** The bottom level links every node, in key order. */
    lemma BottomLevelHoldsAll()
      requires Valid()
      ensures Level(0) == nodes && forall i, j :: 0 <= i < j < |nodes| ==> Lt(nodes[i].key, nodes[j].key)
    {
      hide Lt, Le, Rank, Usage, Succ, Chain, LevelFrom;
      LevelIs(0);
      BottomLevel(nodes, hs, 0);
      assert nodes[0..] == nodes;
      forall i, j | 0 <= i < j < |nodes| ensures Lt(nodes[i].key, nodes[j].key) {
        assert Lt(contents[i].key, contents[j].key);
      }
    }
  }

  /** A position in a list (SkipList::Iterator). */
  class SkipCursor {
    const list: SkipList
    var node: Node?
    ghost var pos: nat

    ghost predicate At()
      reads this, list, list.head, list.nodes
    {
      list.Valid() && pos <= |list.nodes| && node == NodeAt(list.nodes, pos)
    }

    constructor (list: SkipList)
      requires list.Valid()
      ensures this.list == list && At() && pos == |list.contents|
    {
      this.list := list;
      node := null;
      pos := |list.nodes|;
    }

    method SeekToFirst()
      requires list.Valid()
      modifies this
      ensures At() && pos == 0
    {
      node := list.head.forward[0];
      pos := 0;
      assert Succ(list.hs, 0, 0) == 0 by { SuccUnique(list.hs, 0, 0, 0); }
    }

    /** The first entry whose key is not below target. */
    method Seek(target: Key)
      requires list.Valid()
      modifies this
      ensures At() && pos == LowerBound(list.contents, target)
    {
      hide Lt, Le, Rank, LowerBound, Usage, Linked;
      var update, at := list.Walk(target);
      list.WalkEnds(target, update, at);
      node := update[0].forward[0];
      pos := at[0] + 1;
      LowerBoundUnique(list.contents, target, pos);
    }

    method Next()
      requires At() && node != null
      modifies this
      ensures At() && pos == old(pos) + 1
    {
      hide Lt, Le, Rank, Sorted, Usage, Distinct;
      node := node.forward[0];
      assert Succ(list.hs, pos + 1, 0) == pos + 1 by { SuccUnique(list.hs, pos + 1, 0, pos + 1); }
      pos := pos + 1;
    }

    method Current() returns (e: Entry)
      requires At() && node != null
      ensures pos < |list.contents| && e == list.contents[pos]
    {
      e := Entry(node.key, node.value, node.tombstone);
    }
  }

  /** The node at position i, or the head at -1, has a link on level l. */
  ghost predicate CanTake(fw: seq<seq<Node?>>, i: int, l: nat) {
    -1 <= i < |fw| && (i >= 0 ==> l < |fw[i]|) && l < MAX_LEVEL
  }

  /** The links once the lowest n levels of a new node are linked in. */
  ghost predicate LinkedUpTo(hf: seq<Node?>, fw: seq<seq<Node?>>, node: Node, at: seq<int>, n: nat,
                             hf': seq<Node?>, fw': seq<seq<Node?>>, nf: seq<Node?>) {
    && n <= |nf| <= |at| == |hf| == |hf'| == MAX_LEVEL && |fw'| == |fw|
    && (forall j :: 0 <= j < |fw| ==> |fw'[j]| == |fw[j]|)
    && (forall l :: 0 <= l < MAX_LEVEL ==> hf'[l] == if l < n && at[l] == -1 then node else hf[l])
    && (forall j, l :: 0 <= j < |fw| && 0 <= l < |fw[j]| ==> LinkAfter(fw, node, at, n, fw', j, l))
    && (forall l :: 0 <= l < n ==> nf[l] == LinkOf(hf, fw, at[l], l))
  }

  /** The link on level l of node j leads to the new node where that one took it over, and is the old one elsewhere. */
  ghost predicate LinkAfter(fw: seq<seq<Node?>>, node: Node, at: seq<int>, n: nat, fw': seq<seq<Node?>>, j: int,
                            l: int) {
    && 0 <= j < |fw| && j < |fw'| && 0 <= l < |fw[j]| && l < |fw'[j]|
    && fw'[j][l] == if l < n && l < |at| && at[l] == j then node else fw[j][l]
  }

  lemma LinkedUpToZero(hf: seq<Node?>, fw: seq<seq<Node?>>, node: Node, at: seq<int>, nf: seq<Node?>)
    requires |nf| <= |at| == |hf| == MAX_LEVEL
    ensures LinkedUpTo(hf, fw, node, at, 0, hf, fw, nf)
  {
  }

  /** Linking in one more level, on values. */
  lemma LinkStep(hf: seq<Node?>, fw: seq<seq<Node?>>, node: Node, at: seq<int>, n: nat,
                 hf': seq<Node?>, fw': seq<seq<Node?>>, nf: seq<Node?>)
    requires LinkedUpTo(hf, fw, node, at, n, hf', fw', nf) && n < |nf| && CanTake(fw, at[n], n)
    ensures |fw'| == |fw| && forall j :: 0 <= j < |fw| ==> |fw'[j]| == |fw[j]|
    ensures at[n] == -1 ==> LinkedUpTo(hf, fw, node, at, n + 1, hf'[n := node], fw', nf[n := hf'[n]])
    ensures at[n] >= 0 ==>
      LinkedUpTo(hf, fw, node, at, n + 1, hf', fw'[at[n] := fw'[at[n]][n := node]], nf[n := fw'[at[n]][n]])
  {
    var m: nat := n + 1;
    if at[n] >= 0 {
      var a := at[n];
      var fw2 := fw'[a := fw'[a][n := node]];
      forall j, l | 0 <= j < |fw| && 0 <= l < |fw[j]| ensures LinkAfter(fw, node, at, m, fw2, j, l) {
        assert LinkAfter(fw, node, at, n, fw', j, l);
      }
      assert LinkAfter(fw, node, at, n, fw', a, n);
    } else {
      forall j, l | 0 <= j < |fw| && 0 <= l < |fw[j]| ensures LinkAfter(fw, node, at, m, fw', j, l) {
        assert LinkAfter(fw, node, at, n, fw', j, l);
      }
    }
  }

  lemma LinkedAfterSplice(nodes: seq<Node>, hs: seq<nat>, hf: seq<Node?>, fw: seq<seq<Node?>>,
                          p: nat, node: Node, h: nat, at: seq<int>,
                          hf': seq<Node?>, fw': seq<seq<Node?>>, nf: seq<Node?>)
    requires Linked(nodes, hs, hf, fw) && p <= |hs| && |at| == MAX_LEVEL && |nf| == h <= MAX_LEVEL
    requires forall l :: 0 <= l < MAX_LEVEL ==> Before(hs, p, l, at[l])
    requires LinkedUpTo(hf, fw, node, at, |nf|, hf', fw', nf)
    ensures |fw'| == |fw|
    ensures Linked(Inserted(nodes, p, node), Inserted(hs, p, h), hf', Inserted(fw', p, nf))
  {
    hide Succ, Before, LinkOf;
    SpliceKeepsLinks(nodes, hs, hf, fw, p, node, h, at, hf', fw', nf);
  }

  lemma FoundOnlyAt(run: Run, k: Key, p: nat)
    requires Sorted(run) && p <= |run|
    requires forall i :: 0 <= i < p ==> Lt(run[i].key, k)
    requires p < |run| ==> Lt(k, run[p].key)
    ensures Lookup(run, k).None?
  {
    hide Lt, Le, Rank;
    forall i | 0 <= i < |run| ensures run[i].key != k {
      assert i > p ==> Lt(run[p].key, run[i].key);
    }
  }

  lemma LinkedSizes(nodes: seq<Node>, hs: seq<nat>, hf: seq<Node?>, fw: seq<seq<Node?>>)
    requires Linked(nodes, hs, hf, fw)
    ensures |hf| == MAX_LEVEL && |nodes| == |hs| == |fw| && forall j :: 0 <= j < |hs| ==> |fw[j]| == hs[j]
  {
  }

  // ---- Levels ------------------------------------------------------------------------------------

  /** The nodes met by following the links of level l from position i on. */
  ghost function LevelFrom(nodes: seq<Node>, hs: seq<nat>, i: nat, l: nat): seq<Node>
    requires i <= |hs| == |nodes|
    decreases |hs| - i
  {
    var m := Succ(hs, i, l);
    if m == |hs| then [] else [nodes[m]] + LevelFrom(nodes, hs, m + 1, l)
  }

  ghost predicate Sublist<T>(a: seq<T>, b: seq<T>)
    decreases |b|
  {
    a == [] || (b != [] && ((a[0] == b[0] && Sublist(a[1..], b[1..])) || Sublist(a, b[1..])))
  }

  lemma LevelStep(nodes: seq<Node>, hs: seq<nat>, i: nat, l: nat)
    requires i < |hs| == |nodes|
    ensures LevelFrom(nodes, hs, i, l) ==
            if hs[i] > l then [nodes[i]] + LevelFrom(nodes, hs, i + 1, l) else LevelFrom(nodes, hs, i + 1, l)
  {
  }

  /** Each level is a sublist of the level below it. */
  lemma {:induction false} LevelsNest(nodes: seq<Node>, hs: seq<nat>, i: nat, l: nat)
    requires i <= |hs| == |nodes|
    ensures Sublist(LevelFrom(nodes, hs, i, l + 1), LevelFrom(nodes, hs, i, l))
    decreases |hs| - i
  {
    hide Succ;
    if i < |hs| {
      LevelsNest(nodes, hs, i + 1, l);
      LevelStep(nodes, hs, i, l);
      LevelStep(nodes, hs, i, l + 1);
      var upper, lower := LevelFrom(nodes, hs, i + 1, l + 1), LevelFrom(nodes, hs, i + 1, l);
      assert ([nodes[i]] + lower)[1..] == lower && ([nodes[i]] + upper)[1..] == upper;
    }
  }

  /** The bottom level holds every node. */
  lemma {:induction false} BottomLevel(nodes: seq<Node>, hs: seq<nat>, i: nat)
    requires i <= |hs| == |nodes| && forall j :: 0 <= j < |hs| ==> hs[j] >= 1
    ensures LevelFrom(nodes, hs, i, 0) == nodes[i..]
    decreases |hs| - i
  {
    hide Succ;
    if i < |hs| {
      BottomLevel(nodes, hs, i + 1);
      LevelStep(nodes, hs, i, 0);
    }
  }
}
