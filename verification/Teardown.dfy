/**
  `deinit_state`: emptying both lists frees every live object, exactly once each.
  And how many objects are live at any time.
 */
module Teardown {
  import opened Daemon
  import opened HeapList
  import opened DaemonHeap
  import opened NavDaemon

  // What a list occupies

  lemma {:induction false} TotalCovers(nodes: seq<Node>, items: seq<Data>, i: nat)
    requires |nodes| == |items| && i < |nodes|
    ensures nodes[i] in Total(nodes, items).nodes && Covers(Footprint(items[i]), Total(nodes, items))
    decreases |nodes|
  {
    if i > 0 {
      assert RemoveAt(nodes, 0) == nodes[1..] && RemoveAt(items, 0) == items[1..];
      TotalCovers(nodes[1..], items[1..], i - 1);
    }
  }

  lemma {:induction false} TotalNodes(nodes: seq<Node>, items: seq<Data>, n: Node)
    requires |nodes| == |items| && n in Total(nodes, items).nodes
    ensures n in nodes || exists i | 0 <= i < |items| :: n in Footprint(items[i]).nodes
    decreases |nodes|
  {
    assert RemoveAt(nodes, 0) == nodes[1..] && RemoveAt(items, 0) == items[1..];
    if n != nodes[0] && n !in Footprint(items[0]).nodes {
      TotalNodes(nodes[1..], items[1..], n);
      if n !in nodes {
        var i :| 0 <= i < |items[1..]| && n in Footprint(items[1..][i]).nodes;
        assert n in Footprint(items[i + 1]).nodes;
      }
    }
  }

  /** The node of a list in order, or a node of a stack inside it. */
  lemma ShellTotal(st: NavState, n: Node)
    requires st.Owned() && n in Total(st.shells.nodes, st.shells.items).nodes
    ensures n !in st.tags.nodes
  {
    st.shells.Owners();
    st.tags.Owners();
    TotalNodes(st.shells.nodes, st.shells.items, n);
    if n !in st.shells.nodes {
      var i :| 0 <= i < |st.shells.items| && n in Footprint(st.shells.items[i]).nodes;
      assert StackTied(st.shells.items[i], st.stacks[i]);
      assert ProperStack(st.shells.items[i], st.shells.nodes[i], st.stacks[i]);
    }
  }

  lemma ShellCovers(st: NavState, i: nat)
    requires st.Valid() && i < |st.stacks|
    ensures var shells := Total(st.shells.nodes, st.shells.items);
      && st.shells.nodes[i] in shells.nodes
      && NodeSet(st.stacks[i].nodes) <= shells.nodes && ActionsIn(st.stacks[i].items) <= shells.actions
      && st.shells.items[i].ShellData? && st.shells.items[i].shell in shells.shells
  {
    hide Total;
    TotalCovers(st.shells.nodes, st.shells.items, i);
    assert StackTied(st.shells.items[i], st.stacks[i]);
  }

  lemma StacksCover(st: NavState)
    requires st.Valid()
    ensures var shells := Total(st.shells.nodes, st.shells.items);
      && NodeSet(st.shells.nodes) + StackNodes(st.stacks) <= shells.nodes
      && StackActions(st.stacks) <= shells.actions && ShellsIn(st.shells.items) <= shells.shells
  {
    hide Total;
    forall i | 0 <= i < |st.stacks| {
      ShellCovers(st, i);
    }
  }

  lemma TagsCover(st: NavState)
    requires st.Valid()
    ensures NodeSet(st.tags.nodes) <= Total(st.tags.nodes, st.tags.items).nodes
  {
    hide Total;
    forall i | 0 <= i < |st.tags.nodes| {
      TotalCovers(st.tags.nodes, st.tags.items, i);
    }
  }

  lemma MinusBoth(live: Live, a: Live, b: Live)
    requires live.nodes <= a.nodes + b.nodes && live.actions <= a.actions && live.shells <= a.shells
    ensures live.Minus(a).Minus(b) == NOTHING
  {
  }

  /** Together the two lists occupy everything that is live. */
  lemma NothingElse(st: NavState)
    requires st.Valid()
    ensures st.heap.live
      .Minus(Total(st.shells.nodes, st.shells.items))
      .Minus(Total(st.tags.nodes, st.tags.items)) == NOTHING
  {
    hide Total, StackNodes, StackActions, ShellsIn;
    StacksCover(st);
    TagsCover(st);
    MinusBoth(st.heap.live, Total(st.shells.nodes, st.shells.items), Total(st.tags.nodes, st.tags.items));
  }

  lemma InnerLists(st: NavState)
    requires st.Valid()
    ensures AllInner(st.heap.live, st.shells.items)
    ensures Frames(st.shells.items) <= st.Repr
    ensures st.tags !in Frames(st.shells.items) && st.shells !in Frames(st.shells.items)
    ensures st !in Frames(st.shells.items)
    ensures forall n | n in st.tags.nodes :: n !in Frames(st.shells.items)
  {
    ProperLive(st.Lay());
    st.tags.Owners();
    st.StacksNotTags();
    forall k | 0 <= k < |st.stacks|
      ensures InnerOk(st.heap.live, st.shells.items[k])
      ensures Frame(st.shells.items[k]) <= st.Repr
      ensures st.tags !in Frame(st.shells.items[k]) && st.shells !in Frame(st.shells.items[k])
      ensures st !in Frame(st.shells.items[k])
      ensures forall n | n in st.tags.nodes :: n !in Frame(st.shells.items[k])
    {
      assert LiesIn(st.shells.items[k], st.stacks[k], st.Repr);
      assert ProperStack(st.shells.items[k], st.shells.nodes[k], st.stacks[k]);
    }
  }

  /** The tag list is in order once the shells are gone. */
  lemma TagsStillHeld(st: NavState)
    requires st.Valid()
    ensures AllLive(st.heap.live.Minus(Total(st.shells.nodes, st.shells.items)), TagList, st.tags.nodes, st.tags.items)
    ensures forall k | 0 <= k < |st.tags.items| :: st.tags.items[k].TagData?
  {
    ProperLive(st.Lay());
    var rest := st.heap.live.Minus(Total(st.shells.nodes, st.shells.items));
    forall n | n in Total(st.shells.nodes, st.shells.items).nodes ensures n !in st.tags.nodes {
      ShellTotal(st, n);
    }
    forall i | 0 <= i < |st.tags.nodes| ensures LiveAt(rest, TagList, st.tags.nodes, st.tags.items, i) {
      assert LiveAt(st.heap.live, TagList, st.tags.nodes, st.tags.items, i);
    }
  }

  /** Empties both lists; the first owns lists, none of which is the second. */
  method EmptyBoth(shells: LinkedList, tags: LinkedList, ghost heap: Heap)
    requires shells != tags && shells.Chain() && shells.Held(heap.live) && AllInner(heap.live, shells.items)
    requires tags.Chain() && tags.kind == TagList
    requires AllLive(heap.live.Minus(Total(shells.nodes, shells.items)), TagList, tags.nodes, tags.items)
    requires forall k | 0 <= k < |tags.items| :: tags.items[k].TagData?
    requires tags !in Frames(shells.items) && forall n | n in tags.nodes :: n !in Frames(shells.items)
    modifies shells, tags, heap, Frames(shells.items)
    ensures shells.Chain() && shells.nodes == [] && tags.Chain() && tags.nodes == []
    ensures heap.live == old(heap.live)
      .Minus(old(Total(shells.nodes, shells.items)))
      .Minus(old(Total(tags.nodes, tags.items)))
  {
    var rc := shells.DeleteAll(heap);
    rc := tags.DeleteAll(heap);
  }

  /** `deinit_state`. */
  method Deinit(st: NavState)
    requires st.Valid()
    modifies st.Repr, st.heap
    ensures st.heap.live == NOTHING && st.file == old(st.file)
    ensures st.shells.nItems == 0 && st.shells.head == null && st.tags.nItems == 0 && st.tags.head == null
  {
    InnerLists(st);
    NothingElse(st);
    TagsStillHeld(st);
    ProperLive(st.Lay());
    EmptyBoth(st.shells, st.tags, st.heap);
  }

  // How many objects are live

  function ActionCount(shells: seq<Shell>): nat {
    if shells == [] then 0 else |shells[0].actions| + ActionCount(shells[1..])
  }

  predicate NoRepeats(nodes: seq<Node>) {
    forall i, j | 0 <= i < j < |nodes| :: nodes[i] != nodes[j]
  }

  ghost predicate AllDistinct(lay: Layout) {
    && NoRepeats(lay.shellNodes) && NoRepeats(lay.tagNodes)
    && forall k | 0 <= k < |lay.stacks| :: NoRepeats(lay.stacks[k].nodes)
  }

  lemma {:induction false} NodeSetSize(nodes: seq<Node>)
    requires NoRepeats(nodes)
    ensures |NodeSet(nodes)| == |nodes|
  {
    if nodes != [] {
      var rest := nodes[1..];
      NodeSetSize(rest);
      assert NodeSet(nodes) == {nodes[0]} + NodeSet(rest) by {
        assert nodes == [nodes[0]] + rest;
      }
      assert nodes[0] !in NodeSet(rest);
    }
  }

  lemma {:induction false} ActionsInSize(nodes: seq<Node>, items: seq<Data>)
    requires |nodes| == |items| && NoRepeats(nodes)
    requires forall k | 0 <= k < |nodes| :: items[k].ActionData? && items[k].action.holder == nodes[k]
    ensures |ActionsIn(items)| == |items|
  {
    if nodes != [] {
      ActionsInSize(nodes[1..], items[1..]);
      ActionsCons(nodes, items);
      assert items[0].action !in ActionsIn(items[1..]);
    }
  }

  lemma MinusSize(live: Live, fp: Live, n: Node)
    requires Covers(fp, live) && n in live.nodes && n !in fp.nodes
    ensures var rest := live.Minus(fp).Minus(JustNode(n));
      && |live.nodes| == |rest.nodes| + |fp.nodes| + 1
      && |live.actions| == |rest.actions| + |fp.actions|
      && |live.shells| == |rest.shells| + |fp.shells|
  {
    var rest := live.Minus(fp).Minus(JustNode(n));
    assert live.nodes == rest.nodes + fp.nodes + {n};
    assert live.actions == rest.actions + fp.actions;
    assert live.shells == rest.shells + fp.shells;
  }

  /** The first shell's share of what is live. */
  lemma CountFirst(lay: Layout)
    requires Proper(lay) && AllDistinct(lay) && lay.stacks != []
    ensures |lay.shellItems| == |lay.stacks| && Proper(WithoutShell(lay, 0))
    ensures var live, rest, n := LiveOf(lay), LiveOf(WithoutShell(lay, 0)), |lay.stacks[0].items|;
      && |live.nodes| == |rest.nodes| + n + 1
      && |live.actions| == |rest.actions| + n
      && |live.shells| == |rest.shells| + 1
  {
    var live, st := LiveOf(lay), lay.stacks[0];
    var fp := Live(NodeSet(st.nodes), ActionsIn(st.items), {lay.shellItems[0].shell});
    ShellDelete(lay, 0);
    assert ProperStack(lay.shellItems[0], lay.shellNodes[0], st);
    StackApart(lay, 0);
    StackSplit(lay.stacks, 0);
    assert lay.shellItems[0].shell in ShellsIn(lay.shellItems);
    assert Covers(fp, live);
    MinusSize(live, fp, lay.shellNodes[0]);
    NodeSetSize(st.nodes);
    ActionsInSize(st.nodes, st.items);
  }

  lemma CountRest(lay: Layout)
    requires Proper(lay) && AllDistinct(lay) && lay.stacks != []
    ensures |lay.shellItems| == |lay.stacks| && AllDistinct(WithoutShell(lay, 0))
    ensures var lay' := WithoutShell(lay, 0);
      |lay'.shellItems| == |lay'.stacks| == |lay.stacks| - 1
      && ActionCount(ShellValues(lay.shellItems, lay.stacks))
         == |lay.stacks[0].items| + ActionCount(ShellValues(lay'.shellItems, lay'.stacks))
  {
    var lay' := WithoutShell(lay, 0);
    RemoveAtIndex(lay.shellNodes, 0);
    RemoveAtIndex(lay.stacks, 0);
    assert ProperStack(lay.shellItems[0], lay.shellNodes[0], lay.stacks[0]);
    ViewWithoutShell(lay, 0);
    var shells := ShellValues(lay.shellItems, lay.stacks);
    assert shells[1..] == RemoveAt(shells, 0);
  }

  lemma {:induction false} CountLive(lay: Layout)
    requires Proper(lay) && AllDistinct(lay)
    ensures |lay.shellItems| == |lay.stacks|
    ensures var live := LiveOf(lay); var shells := ShellValues(lay.shellItems, lay.stacks);
      && |live.actions| == ActionCount(shells)
      && |live.shells| == |shells|
      && |live.nodes| == |shells| + |lay.tagNodes| + ActionCount(shells)
    decreases |lay.stacks|
  {
    if lay.stacks == [] {
      NodeSetSize(lay.tagNodes);
      assert LiveOf(lay) == Live(NodeSet(lay.tagNodes), {}, {});
    } else {
      CountFirst(lay);
      CountRest(lay);
      CountLive(WithoutShell(lay, 0));
    }
  }

  lemma ChainsRepeatNothing(st: NavState)
    requires st.Valid()
    ensures AllDistinct(st.Lay())
  {
    forall i, j | 0 <= i < j < |st.shells.nodes| ensures st.shells.nodes[i] != st.shells.nodes[j] {
      st.shells.NoCycle(i, j);
    }
    forall i, j | 0 <= i < j < |st.tags.nodes| ensures st.tags.nodes[i] != st.tags.nodes[j] {
      st.tags.NoCycle(i, j);
    }
    forall k | 0 <= k < |st.stacks| ensures NoRepeats(st.stacks[k].nodes) {
      assert StackTied(st.shells.items[k], st.stacks[k]);
      var l := st.shells.items[k].shell.actions;
      forall i, j | 0 <= i < j < |l.nodes| ensures l.nodes[i] != l.nodes[j] {
        l.NoCycle(i, j);
      }
    }
  }

  /**
    Live actions are as many as there are on the stacks, live shells as many as are
    registered, and live nodes as many as shells, tags and actions together.
   */
  lemma LiveCounts(st: NavState)
    requires st.Valid()
    ensures var s, live := st.View(), st.heap.live;
      && |live.actions| == ActionCount(s.shells)
      && |live.shells| == |s.shells|
      && |live.nodes| == |s.shells| + |s.tags| + ActionCount(s.shells)
  {
    ChainsRepeatNothing(st);
    CountLive(st.Lay());
  }

  ghost predicate Disjoint(a: seq<Node>, b: seq<Node>) {
    forall i, j | 0 <= i < |a| && 0 <= j < |b| :: a[i] != b[j]
  }

  /** The list inside shell `k`. */
  ghost function StackList(st: NavState, k: nat): LinkedList
    requires st.Valid() && k < |st.shells.items|
    reads st, st.Repr, st.heap
  {
    assert StackTied(st.shells.items[k], st.stacks[k]);
    st.shells.items[k].shell.actions
  }

  /**
    Two-level ownership: no list has a cycle, no two lists share a node, and every
    stored count is the length of its list.
   */
  lemma TwoLevelOwnership(st: NavState)
    requires st.Valid()
    ensures |st.View().shells| == |st.shells.items|
    ensures st.shells.nItems == |st.View().shells| && st.tags.nItems == |st.View().tags|
    ensures NoRepeats(st.shells.nodes) && NoRepeats(st.tags.nodes) && Disjoint(st.shells.nodes, st.tags.nodes)
    ensures forall k | 0 <= k < |st.shells.items| :: var l := StackList(st, k);
      && l.nItems == |st.View().shells[k].actions| && NoRepeats(l.nodes)
      && Disjoint(l.nodes, st.shells.nodes) && Disjoint(l.nodes, st.tags.nodes)
    ensures forall j, k | 0 <= j < k < |st.shells.items| ::
      StackList(st, j) != StackList(st, k) && Disjoint(StackList(st, j).nodes, StackList(st, k).nodes)
  {
    ChainsRepeatNothing(st);
    st.ShellNodesApart();
    forall k | 0 <= k < |st.stacks|
      ensures ProperStack(st.shells.items[k], st.shells.nodes[k], st.stacks[k])
      ensures StackTied(st.shells.items[k], st.stacks[k])
    {
      assert ProperStack(st.shells.items[k], st.shells.nodes[k], st.stacks[k]);
    }
  }
}
