/**
  The linked lists of the daemon, on the heap.

  One list type serves shells, actions and tags.  `Kind` stands for its pair of
  function pointers: how data are compared with a key, and how they are cleaned up.
  Cleaning up a shell empties the action list inside it with the same list code.

  `Heap.live` records what is allocated and not yet freed.  Freeing requires the
  object to be live, so nothing is freed twice.  Who owns what is recorded in ghost
  back pointers that never change: a node knows its list, data know their node, and
  an action list knows the node of the shell it is part of.
 */
module HeapList {
  import opened Daemon

  class Action {
    const path: string
    ghost const holder: Node

    constructor (path: string, ghost holder: Node)
      ensures this.path == path && this.holder == holder
    {
      this.path := path;
      this.holder := holder;
    }
  }

  class TagCell {
    const name: string
    var path: string
    ghost const holder: Node

    constructor (name: string, path: string, ghost holder: Node)
      ensures this.name == name && this.path == path && this.holder == holder
    {
      this.name := name;
      this.path := path;
      this.holder := holder;
    }
  }

  class ShellCell {
    const pid: int
    const addr: string
    const actions: LinkedList
    ghost const holder: Node

    constructor (pid: int, addr: string, ghost holder: Node)
      ensures this.pid == pid && this.addr == addr && this.holder == holder
      ensures fresh(actions) && actions.kind == ActionList && actions.home == holder
      ensures actions.Chain() && actions.nodes == []
    {
      this.pid := pid;
      this.addr := addr;
      this.actions := new LinkedList(ActionList, holder);
      this.holder := holder;
    }
  }

  datatype Data = NoData | ActionData(action: Action) | ShellData(shell: ShellCell) | TagData(cell: TagCell)

  datatype Key = PathKey(path: string) | PidKey(pid: int) | NameKey(name: string)

  datatype Kind = ShellList | ActionList | TagList

  /** `compare_action_path`, `compare_shell_pid` and `compare_tag_tag`. */
  predicate Matches(d: Data, key: Key) {
    match d
    case NoData => false
    case ActionData(a) => key.PathKey? && a.path == key.path
    case ShellData(s) => key.PidKey? && s.pid == key.pid
    case TagData(t) => key.NameKey? && t.name == key.name
  }

  function FirstMatch(items: seq<Data>, key: Key): (i: nat)
    ensures i <= |items|
    ensures forall k | 0 <= k < i :: !Matches(items[k], key)
    ensures i < |items| ==> Matches(items[i], key)
  {
    if items == [] || Matches(items[0], key) then 0 else 1 + FirstMatch(items[1..], key)
  }

  predicate OfKind(d: Data, kind: Kind) {
    match kind
    case ShellList => d.ShellData?
    case ActionList => d.ActionData?
    case TagList => d.TagData?
  }

  class Node {
    var data: Data
    var next: Node?
    ghost const owner: LinkedList

    constructor (ghost owner: LinkedList)
      ensures next == null && this.owner == owner
    {
      data := NoData;
      next := null;
      this.owner := owner;
    }
  }

  datatype Live = Live(nodes: set<Node>, actions: set<Action>, shells: set<ShellCell>) {
    function Minus(f: Live): Live {
      Live(nodes - f.nodes, actions - f.actions, shells - f.shells)
    }

    function Plus(f: Live): Live {
      Live(nodes + f.nodes, actions + f.actions, shells + f.shells)
    }
  }

  function JustNode(n: Node): Live {
    Live({n}, {}, {})
  }

  lemma MinusPlus(live: Live, a: Live, b: Live, c: Live)
    ensures live.Minus(a).Minus(b).Minus(c) == live.Minus(a.Plus(b).Plus(c))
  {
  }

  const NOTHING: Live := Live({}, {}, {})

  class Heap {
    ghost var live: Live

    ghost constructor ()
      ensures live == NOTHING
    {
      live := NOTHING;
    }

    ghost method FreeNode(n: Node)
      requires n in live.nodes
      modifies this
      ensures live == old(live).Minus(JustNode(n))
    {
      live := live.Minus(JustNode(n));
    }

    ghost method FreeAction(a: Action)
      requires a in live.actions
      modifies this
      ensures live == old(live).Minus(Live({}, {a}, {}))
    {
      live := live.Minus(Live({}, {a}, {}));
    }

    ghost method FreeShell(s: ShellCell)
      requires s in live.shells
      modifies this
      ensures live == old(live).Minus(Live({}, {}, {s}))
    {
      live := live.Minus(Live({}, {}, {s}));
    }
  }

  /** The data of a node are live and held by that node alone. */
  ghost predicate LiveData(live: Live, d: Data, n: Node) {
    match d
    case NoData => false
    case ActionData(a) => a in live.actions && a.holder == n
    case ShellData(s) => s in live.shells && s.holder == n && s.actions.kind == ActionList && s.actions.home == n
    case TagData(t) => t.holder == n
  }

  ghost predicate LiveAt(live: Live, kind: Kind, nodes: seq<Node>, items: seq<Data>, i: nat)
    requires i < |nodes| == |items|
  {
    nodes[i] in live.nodes && OfKind(items[i], kind) && LiveData(live, items[i], nodes[i])
  }

  /** Nodes and data of a list of that kind, all live. */
  ghost predicate AllLive(live: Live, kind: Kind, nodes: seq<Node>, items: seq<Data>) {
    |items| == |nodes| && forall i | 0 <= i < |nodes| :: LiveAt(live, kind, nodes, items, i)
  }

  lemma Unpack(live: Live, kind: Kind, nodes: seq<Node>, items: seq<Data>)
    requires AllLive(live, kind, nodes, items)
    ensures forall i | 0 <= i < |nodes| ::
      nodes[i] in live.nodes && OfKind(items[i], kind) && LiveData(live, items[i], nodes[i])
  {
    forall i | 0 <= i < |nodes|
      ensures nodes[i] in live.nodes && OfKind(items[i], kind) && LiveData(live, items[i], nodes[i])
    {
      assert LiveAt(live, kind, nodes, items, i);
    }
  }

  ghost function NodeSet(nodes: seq<Node>): set<Node> {
    set n | n in nodes
  }

  /** The actions among some data. */
  ghost function ActionsIn(items: seq<Data>): set<Action> {
    set i | 0 <= i < |items| && items[i].ActionData? :: items[i].action
  }

  lemma ActionsCons(nodes: seq<Node>, items: seq<Data>)
    requires nodes != [] && items != [] && items[0].ActionData?
    ensures NodeSet(nodes) == {nodes[0]} + NodeSet(nodes[1..])
    ensures ActionsIn(items) == {items[0].action} + ActionsIn(items[1..])
  {
    assert nodes == [nodes[0]] + nodes[1..];
    assert items == [items[0]] + items[1..];
    forall a | a in ActionsIn(items) ensures a in {items[0].action} + ActionsIn(items[1..]) {
      var i :| 0 <= i < |items| && items[i].ActionData? && items[i].action == a;
      if i > 0 { assert items[1..][i - 1] == items[i]; }
    }
    forall a | a in ActionsIn(items[1..]) ensures a in ActionsIn(items) {
      var i :| 0 <= i < |items[1..]| && items[1..][i].ActionData? && items[1..][i].action == a;
      assert items[i + 1].action == a;
    }
  }

  /** The node behind position `i` in a chain. */
  ghost function Successor(nodes: seq<Node>, i: nat): Node?
    requires i < |nodes|
  {
    if i + 1 < |nodes| then nodes[i + 1] else null
  }

  /** What cleaning up `d` frees. */
  ghost function Footprint(d: Data): Live
    reads if d.ShellData? then {d.shell.actions} else {}
  {
    match d
    case ActionData(a) => Live({}, {a}, {})
    case ShellData(s) => Live(NodeSet(s.actions.nodes), ActionsIn(s.actions.items), {s})
    case _ => NOTHING
  }

  /** What some nodes and their data occupy. */
  ghost function Total(nodes: seq<Node>, items: seq<Data>): Live
    requires |nodes| == |items|
    reads set i | 0 <= i < |items| && items[i].ShellData? :: items[i].shell.actions
  {
    if nodes == [] then NOTHING
    else Footprint(items[0]).Plus(JustNode(nodes[0])).Plus(Total(RemoveAt(nodes, 0), RemoveAt(items, 0)))
  }

  /** What cleaning up `d` writes to. */
  ghost function Frame(d: Data): set<object>
    reads if d.ShellData? then {d.shell.actions} else {}
  {
    if d.ShellData? then
      var list: set<object> := {d.shell.actions};
      var nodes: set<object> := NodeSet(d.shell.actions.nodes);
      list + nodes
    else {}
  }

  /** What cleaning up all of them writes to. */
  ghost function Frames(items: seq<Data>): set<object>
    reads set i | 0 <= i < |items| && items[i].ShellData? :: items[i].shell.actions
  {
    set i, o | 0 <= i < |items| && o in Frame(items[i]) :: o
  }

  /** The list inside a shell is in order. */
  ghost predicate InnerOk(live: Live, d: Data)
    reads if d.ShellData? then {d.shell.actions} else {}
    reads if d.ShellData? then NodeSet(d.shell.actions.nodes) else {}
  {
    d.ShellData? ==> d.shell.actions.Chain() && d.shell.actions.Held(live)
  }

  ghost predicate AllInner(live: Live, items: seq<Data>)
    reads set i | 0 <= i < |items| && items[i].ShellData? :: items[i].shell.actions
    reads set i, n | 0 <= i < |items| && items[i].ShellData? && n in items[i].shell.actions.nodes :: n
  {
    forall i | 0 <= i < |items| :: InnerOk(live, items[i])
  }

  /** What cleaning up the data of node `n` may free. */
  ghost predicate Within(fp: Live, d: Data, n: Node) {
    && (forall m | m in fp.nodes :: d.ShellData? && m.owner == d.shell.actions)
    && (forall a | a in fp.actions ::
          if d.ShellData? then a.holder.owner == d.shell.actions else d.ActionData? && d.action == a)
    && (forall s | s in fp.shells :: d.ShellData? && d.shell == s)
  }

  lemma FootprintWithin(live: Live, d: Data, n: Node)
    requires LiveData(live, d, n) && InnerOk(live, d)
    ensures Within(Footprint(d), d, n)
  {
    if d.ShellData? {
      var l := d.shell.actions;
      l.Owners();
      Unpack(live, l.kind, l.nodes, l.items);
    }
  }

  predicate Covers(live: Live, more: Live) {
    live.nodes <= more.nodes && live.actions <= more.actions && live.shells <= more.shells
  }

  lemma AllLiveGrows(live: Live, more: Live, kind: Kind, nodes: seq<Node>, items: seq<Data>)
    requires AllLive(live, kind, nodes, items) && Covers(live, more)
    ensures AllLive(more, kind, nodes, items)
  {
    forall k | 0 <= k < |nodes| ensures LiveAt(more, kind, nodes, items, k) {
      assert LiveAt(live, kind, nodes, items, k);
    }
  }

  /** The list inside one shell survives the cleanup of another. */
  lemma InnerSurvives(live: Live, d: Data, n: Node, fp: Live, d': Data, n': Node)
    requires n != n' && (d.ShellData? ==> n'.owner.kind == ShellList)
    requires LiveData(live, d, n) && InnerOk(live, d)
    requires LiveData(live, d', n') && Within(fp, d', n')
    ensures InnerOk(live.Minus(fp).Minus(JustNode(n')), d)
  {
    if d.ShellData? {
      var l := d.shell.actions;
      var after := live.Minus(fp).Minus(JustNode(n'));
      l.Owners();
      Unpack(live, l.kind, l.nodes, l.items);
      forall i | 0 <= i < |l.nodes| ensures LiveAt(after, l.kind, l.nodes, l.items, i) {
        assert l.nodes[i].owner == l;
      }
    }
  }

  /** Cleaning up two shells writes to different objects. */
  lemma FramesApart(live: Live, d: Data, n: Node, d': Data, n': Node)
    requires n != n'
    requires LiveData(live, d, n) && InnerOk(live, d)
    requires LiveData(live, d', n') && InnerOk(live, d')
    ensures Frame(d) !! Frame(d')
  {
    if d.ShellData? && d'.ShellData? {
      assert d.shell.actions != d'.shell.actions;
      d.shell.actions.Owners();
      d'.shell.actions.Owners();
    }
  }

  /** Freeing one node and its data leaves the others live. */
  lemma AllLiveWithout(live: Live, l: LinkedList, nodes: seq<Node>, items: seq<Data>, i: nat, fp: Live)
    requires AllLive(live, l.kind, nodes, items) && i < |nodes|
    requires forall k | 0 <= k < |nodes| :: nodes[k].owner == l
    requires forall k | 0 <= k < |nodes| && k != i :: nodes[k] != nodes[i]
    requires Within(fp, items[i], nodes[i])
    ensures AllLive(live.Minus(fp).Minus(JustNode(nodes[i])), l.kind, RemoveAt(nodes, i), RemoveAt(items, i))
  {
    RemoveAtIndex(nodes, i);
    RemoveAtIndex(items, i);
    var ns, ds := RemoveAt(nodes, i), RemoveAt(items, i);
    var after := live.Minus(fp).Minus(JustNode(nodes[i]));
    assert LiveAt(live, l.kind, nodes, items, i);
    forall k | 0 <= k < |ns| ensures LiveAt(after, l.kind, ns, ds, k) {
      var m := if k < i then k else k + 1;
      assert ns[k] == nodes[m] && nodes[m] != nodes[i];
      assert LiveAt(live, l.kind, nodes, items, m);
    }
  }

  class LinkedList {
    const kind: Kind
    ghost const home: Node?
    var head: Node?
    var nItems: int
    ghost var nodes: seq<Node>
    ghost var items: seq<Data>

    ghost predicate Link(nodes: seq<Node>, items: seq<Data>, i: nat)
      requires i < |nodes| == |items|
      reads nodes[i]
    {
      nodes[i].owner == this && nodes[i].data == items[i] && nodes[i].next == Successor(nodes, i)
    }

    /** From `first`, the links of these nodes lead through all of them to null. */
    ghost predicate Links(first: Node?, nodes: seq<Node>, items: seq<Data>)
      reads nodes
    {
      && |items| == |nodes|
      && first == (if nodes == [] then null else nodes[0])
      && forall i | 0 <= i < |nodes| :: Link(nodes, items, i)
    }

    /** The list is a chain of `nItems` nodes that belong to it. */
    ghost predicate Chain()
      reads this, nodes
    {
      nItems == |nodes| && Links(head, nodes, items)
    }

    constructor (kind: Kind, ghost home: Node?)
      ensures this.kind == kind && this.home == home
      ensures Chain() && nodes == []
    {
      this.kind := kind;
      this.home := home;
      head := null;
      nItems := 0;
      nodes := [];
      items := [];
    }

    lemma Owners()
      requires Chain()
      ensures forall i | 0 <= i < |nodes| :: nodes[i].owner == this
    {
      forall i | 0 <= i < |nodes| ensures nodes[i].owner == this {
        assert Link(nodes, items, i);
      }
    }

    lemma TailLinks(first: Node?, nodes: seq<Node>, items: seq<Data>)
      requires Links(first, nodes, items) && nodes != []
      ensures Links(nodes[0].next, RemoveAt(nodes, 0), RemoveAt(items, 0))
    {
      var ns, ds := RemoveAt(nodes, 0), RemoveAt(items, 0);
      RemoveAtIndex(nodes, 0);
      RemoveAtIndex(items, 0);
      assert Link(nodes, items, 0);
      forall k | 0 <= k < |ns| ensures Link(ns, ds, k) {
        assert Link(nodes, items, k + 1);
      }
    }

    /** A chain that ends has no cycle: its nodes are pairwise distinct. */
    lemma {:induction false} NoCycle(i: nat, j: nat)
      requires Chain() && i < j < |nodes|
      ensures nodes[i] != nodes[j]
      decreases |nodes| - j
    {
      assert Link(nodes, items, i) && Link(nodes, items, j);
      if j + 1 < |nodes| {
        NoCycle(i + 1, j + 1);
      }
    }

    lemma Distinct(i: nat)
      requires Chain() && i < |nodes|
      ensures forall k | 0 <= k < |nodes| && k != i :: nodes[k] != nodes[i]
    {
      forall k | 0 <= k < |nodes| && k != i ensures nodes[k] != nodes[i] {
        if k < i { NoCycle(k, i); } else { NoCycle(i, k); }
      }
    }

    /** Every node is live and holds live data of the list's kind. */
    ghost predicate Held(live: Live)
      reads this
    {
      AllLive(live, kind, nodes, items)
    }

    /** Cleaning up one node's data touches neither this list nor what its other nodes hold. */
    lemma DeleteKeeps(live: Live, i: nat)
      requires Chain() && Held(live) && i < |nodes| && InnerOk(live, items[i])
      ensures this !in Frame(items[i])
      ensures forall n | n in nodes :: n !in Frame(items[i])
      ensures nodes[i] in live.nodes && OfKind(items[i], kind) && LiveData(live, items[i], nodes[i])
      ensures nodes[i] !in Footprint(items[i]).nodes
      ensures AllLive(live.Minus(Footprint(items[i])).Minus(JustNode(nodes[i])), kind,
                      RemoveAt(nodes, i), RemoveAt(items, i))
    {
      Distinct(i);
      Owners();
      assert LiveAt(live, kind, nodes, items, i);
      if items[i].ShellData? { items[i].shell.actions.Owners(); }
      FootprintWithin(live, items[i], nodes[i]);
      AllLiveWithout(live, this, nodes, items, i, Footprint(items[i]));
    }

    /** Deleting one node keeps the lists inside the other shells in order. */
    lemma OthersSurvive(live: Live, i: nat)
      requires Chain() && Held(live) && AllInner(live, items) && i < |nodes|
      ensures forall k | 0 <= k < |items| && k != i ::
        && Frame(items[k]) !! Frame(items[i])
        && InnerOk(live.Minus(Footprint(items[i])).Minus(JustNode(nodes[i])), items[k])
    {
      Distinct(i);
      Owners();
      Unpack(live, kind, nodes, items);
      FootprintWithin(live, items[i], nodes[i]);
      forall k | 0 <= k < |items| && k != i
        ensures Frame(items[k]) !! Frame(items[i])
        ensures InnerOk(live.Minus(Footprint(items[i])).Minus(JustNode(nodes[i])), items[k])
      {
        FramesApart(live, items[k], nodes[k], items[i], nodes[i]);
        InnerSurvives(live, items[k], nodes[k], Footprint(items[i]), items[i], nodes[i]);
      }
    }

    /** `list_get_node`. */
    method GetNode(key: Key) returns (n: Node?)
      requires Chain()
      ensures var i := FirstMatch(items, key);
        n == if i < |items| then nodes[i] else null
    {
      if head == null {
        return null;
      }
      assert Link(nodes, items, 0);
      if Matches(head.data, key) {
        return head;
      }
      n := head;
      ghost var i := 0;
      while n != null
        invariant 0 <= i <= |nodes|
        invariant n == if i < |nodes| then nodes[i] else null
        invariant forall k | 0 <= k < i :: !Matches(items[k], key)
        decreases |nodes| - i
      {
        assert Link(nodes, items, i);
        if Matches(n.data, key) {
          return n;
        }
        n := n.next;
        i := i + 1;
      }
    }

    /** `list_append_node`, for a node that has just been created. */
    method AppendNode(n: Node)
      requires Chain() && n !in nodes && n.owner == this && n.next == null
      modifies this, nodes
      ensures Chain()
      ensures nodes == old(nodes) + [n] && items == old(items) + [n.data]
      ensures n.data == old(n.data)
    {
      if head == null {
        head := n;
        nItems := nItems + 1;
        nodes, items := [n], [n.data];
        return;
      }
      var curr := head;
      ghost var i := 0;
      while curr.next != null
        invariant 0 <= i < |nodes| && curr == nodes[i]
        decreases |nodes| - i
      {
        assert Link(nodes, items, i);
        curr := curr.next;
        i := i + 1;
      }
      assert Link(nodes, items, i);
      curr.next := n;
      nItems := nItems + 1;
      nodes, items := nodes + [n], items + [n.data];
      forall k | 0 <= k < |nodes| ensures Link(nodes, items, k) {
        if k < |nodes| - 1 { assert old(Link(nodes, items, k)); }
      }
    }

    /** `list_prepend_node`, for a node that has just been created. */
    method PrependNode(n: Node)
      requires Chain() && n !in nodes && n.owner == this && n.next == null
      modifies this, n
      ensures Chain()
      ensures nodes == [n] + old(nodes) && items == [n.data] + old(items)
      ensures n.data == old(n.data)
    {
      if head == null {
        head := n;
        nItems := nItems + 1;
        nodes, items := [n], [n.data];
        return;
      }
      n.next := head;
      head := n;
      nItems := nItems + 1;
      nodes, items := [n] + nodes, [n.data] + items;
      forall k | 0 <= k < |nodes| ensures Link(nodes, items, k) {
        if k > 0 { assert old(Link(nodes, items, k - 1)); }
      }
    }

    /** The data that `DeleteNode(key)` cleans up. */
    ghost function Victim(key: Key): Data
      reads this
    {
      var i := FirstMatch(items, key);
      if i < |items| then items[i] else NoData
    }

    /** The first branch of `list_delete_node`: the head matches. */
    method DeleteFirst(ghost heap: Heap)
      requires Chain() && Held(heap.live) && nodes != [] && InnerOk(heap.live, items[0])
      modifies this, heap, Frame(items[0])
      ensures Chain() && Held(heap.live)
      ensures nodes == RemoveAt(old(nodes), 0) && items == RemoveAt(old(items), 0)
      ensures heap.live == old(heap.live).Minus(old(Footprint(items[0]))).Minus(JustNode(old(nodes)[0]))
      decreases if kind == ShellList then 1 else 0, 2
    {
      var curr := head;
      assert Link(nodes, items, 0);
      DeleteKeeps(heap.live, 0);
      TailLinks(head, nodes, items);
      Cleanup(curr.data, curr, heap);
      head := head.next;
      heap.FreeNode(curr);
      nItems := nItems - 1;
      nodes, items := RemoveAt(nodes, 0), RemoveAt(items, 0);
    }

    lemma NodesLeft(i: nat)
      requires i < |nodes|
      ensures forall n | n in RemoveAt(nodes, i) :: n in nodes
    {
    }

    /** Makes the predecessor of `curr` point behind it. */
    method Unlink(prev: Node?, curr: Node, ghost i: nat)
      requires Chain() && 0 < i < |nodes| && prev == nodes[i - 1] && curr == nodes[i]
      modifies prev
      ensures Links(head, RemoveAt(nodes, i), RemoveAt(items, i))
      ensures curr.data == old(curr.data)
    {
      Distinct(i);
      Distinct(i - 1);
      assert Link(nodes, items, i);
      ghost var ns, ds := RemoveAt(nodes, i), RemoveAt(items, i);
      RemoveAtIndex(nodes, i);
      RemoveAtIndex(items, i);
      if prev != null {
        prev.next := curr.next;
      }
      forall k | 0 <= k < |ns| ensures Link(ns, ds, k) {
        var m := if k < i then k else k + 1;
        assert old(Link(nodes, items, m)) && ns[k] == nodes[m];
      }
    }

    /** The loop's branch: `curr` at position `i` matches, behind `prev`. */
    method DeleteBehind(prev: Node?, curr: Node, ghost i: nat, ghost heap: Heap)
      requires Chain() && Held(heap.live) && 0 < i < |nodes| && InnerOk(heap.live, items[i])
      requires prev == nodes[i - 1] && curr == nodes[i]
      modifies this, prev, heap, Frame(items[i])
      ensures Chain() && Held(heap.live)
      ensures nodes == RemoveAt(old(nodes), i) && items == RemoveAt(old(items), i)
      ensures heap.live == old(heap.live).Minus(old(Footprint(items[i]))).Minus(JustNode(old(nodes)[i]))
      decreases if kind == ShellList then 1 else 0, 2
    {
      assert Link(nodes, items, i);
      DeleteKeeps(heap.live, i);
      ghost var ns, ds := RemoveAt(nodes, i), RemoveAt(items, i);
      NodesLeft(i);
      Unlink(prev, curr, i);
      Cleanup(curr.data, curr, heap);
      assert Links(head, ns, ds);
      heap.FreeNode(curr);
      nItems := nItems - 1;
      nodes, items := RemoveAt(nodes, i), RemoveAt(items, i);
    }

    /** `list_delete_node`: deletes the first match; 1 only for an empty list. */
    method DeleteNode(key: Key, ghost heap: Heap) returns (rc: int)
      requires Chain() && Held(heap.live) && InnerOk(heap.live, Victim(key))
      modifies this, nodes, heap, Frame(Victim(key))
      ensures Chain() && Held(heap.live)
      ensures var i := FirstMatch(old(items), key);
        if i < |old(items)| then
          && rc == 0
          && nodes == RemoveAt(old(nodes), i)
          && items == RemoveAt(old(items), i)
          && heap.live == old(heap.live).Minus(old(Footprint(Victim(key)))).Minus(JustNode(old(nodes)[i]))
        else
          && rc == (if old(items) == [] then 1 else 0)
          && nodes == old(nodes) && items == old(items) && heap.live == old(heap.live)
      decreases if kind == ShellList then 1 else 0, 3
    {
      if head == null {
        return 1;
      }
      assert Link(nodes, items, 0);
      if Matches(head.data, key) {
        DeleteFirst(heap);
        return 0;
      }
      var curr, prev := head, null;
      ghost var i := 0;
      while curr != null
        invariant 0 <= i <= |nodes|
        invariant curr == if i < |nodes| then nodes[i] else null
        invariant prev == if i > 0 then nodes[i - 1] else null
        invariant forall k | 0 <= k < i :: !Matches(items[k], key)
        invariant i == 0 ==> curr == head
        decreases |nodes| - i
      {
        assert Link(nodes, items, i);
        if Matches(curr.data, key) {
          assert i == FirstMatch(items, key);
          DeleteBehind(prev, curr, i, heap);
          return 0;
        }
        prev := curr;
        curr := curr.next;
        i := i + 1;
      }
      return 0;
    }

    /** One turn of its loop. */
    method ClearFirst(curr: Node, ghost heap: Heap)
      requires Chain() && Held(heap.live) && head == curr && InnerOk(heap.live, items[0])
      modifies this, heap, Frame(items[0])
      ensures Chain() && Held(heap.live)
      ensures nodes == RemoveAt(old(nodes), 0) && items == RemoveAt(old(items), 0)
      ensures heap.live == old(heap.live).Minus(old(Footprint(items[0]))).Minus(JustNode(curr))
    {
      assert Link(nodes, items, 0);
      DeleteKeeps(heap.live, 0);
      TailLinks(head, nodes, items);
      head := curr.next;
      Cleanup(curr.data, curr, heap);
      heap.FreeNode(curr);
      nItems := nItems - 1;
      nodes, items := RemoveAt(nodes, 0), RemoveAt(items, 0);
    }

    /** A turn of its loop leaves the lists inside the other shells alone. */
    method ClearNext(curr: Node, ghost heap: Heap)
      requires Chain() && Held(heap.live) && head == curr && AllInner(heap.live, items)
      modifies this, heap, Frame(items[0])
      ensures Chain() && Held(heap.live) && AllInner(heap.live, items)
      ensures |nodes| == |old(nodes)| - 1
      ensures forall o | o in Frames(items) :: o in old(Frames(items))
      ensures heap.live.Minus(Total(nodes, items)) == old(heap.live).Minus(old(Total(nodes, items)))
    {
      OthersSurvive(heap.live, 0);
      RemoveAtIndex(items, 0);
      ghost var ds := RemoveAt(items, 0);
      ghost var rest := Total(RemoveAt(nodes, 0), ds);
      forall k | 0 <= k < |ds| && ds[k].ShellData?
        ensures ds[k].shell.actions != this && ds[k].shell.actions !in Frame(items[0])
      {
        assert ds[k] == items[k + 1];
        assert ds[k].shell.actions in Frame(items[k + 1]);
        assert LiveAt(heap.live, kind, nodes, items, k + 1);
      }
      MinusPlus(heap.live, Footprint(items[0]), JustNode(curr), rest);
      ClearFirst(curr, heap);
      assert Total(nodes, items) == rest;
    }

    /** `list_delete_all`. */
    method DeleteAll(ghost heap: Heap) returns (rc: int)
      requires Chain() && Held(heap.live) && AllInner(heap.live, items)
      modifies this, heap, Frames(items)
      ensures Chain() && nodes == [] && items == []
      ensures heap.live == old(heap.live).Minus(old(Total(nodes, items)))
      ensures rc == 0
    {
      if head == null {
        return 0;
      }
      var curr := head;
      while curr != null
        invariant curr == head && Chain() && Held(heap.live) && AllInner(heap.live, items)
        invariant forall o | o in Frames(items) :: o in old(Frames(items))
        invariant heap.live.Minus(Total(nodes, items)) == old(heap.live).Minus(old(Total(nodes, items)))
        decreases |nodes|
      {
        ClearNext(curr, heap);
        curr := head;
      }
      return 0;
    }
  }

  /** The same on an action list, where nothing but the list and its nodes is written. */
  method DeletePath(l: LinkedList, path: string, ghost heap: Heap) returns (rc: int)
    requires l.kind == ActionList && l.Chain() && l.Held(heap.live)
    modifies l, l.nodes, heap
    ensures l.Chain() && l.Held(heap.live)
    ensures var i := FirstMatch(old(l.items), PathKey(path));
      if i < |old(l.items)| then
        && rc == 0
        && l.nodes == RemoveAt(old(l.nodes), i)
        && l.items == RemoveAt(old(l.items), i)
        && old(l.items)[i].ActionData?
        && heap.live == old(heap.live).Minus(Live({old(l.nodes)[i]}, {old(l.items)[i].action}, {}))
      else
        && rc == (if old(l.items) == [] then 1 else 0)
        && l.nodes == old(l.nodes) && l.items == old(l.items) && heap.live == old(heap.live)
    decreases 0, 4
  {
    assert !l.Victim(PathKey(path)).ShellData?;
    rc := l.DeleteNode(PathKey(path), heap);
  }

  /** The same on the shell list: a shell goes with everything it owns. */
  method DeletePid(l: LinkedList, pid: int, ghost i: nat, ghost s: ShellCell, ghost heap: Heap) returns (rc: int)
    requires l.kind == ShellList && l.Chain() && l.Held(heap.live)
    requires i == FirstMatch(l.items, PidKey(pid)) < |l.items| && l.items[i] == ShellData(s)
    requires s.actions.Chain() && s.actions.Held(heap.live)
    modifies l, l.nodes, heap, s.actions, s.actions.nodes
    ensures l.Chain() && rc == 0
    ensures l.nodes == RemoveAt(old(l.nodes), i) && l.items == RemoveAt(old(l.items), i)
    ensures heap.live == old(heap.live)
      .Minus(Live(NodeSet(old(s.actions.nodes)), ActionsIn(old(s.actions.items)), {s}))
      .Minus(JustNode(old(l.nodes)[i]))
  {
    assert l.Victim(PidKey(pid)) == ShellData(s);
    rc := l.DeleteNode(PidKey(pid), heap);
  }

  /** The same on the tag list, where cleaning up frees no object. */
  method DeleteName(l: LinkedList, name: string, ghost i: nat, ghost heap: Heap) returns (rc: int)
    requires l.kind == TagList && l.Chain() && l.Held(heap.live)
    requires i == FirstMatch(l.items, NameKey(name)) < |l.items|
    modifies l, l.nodes, heap
    ensures l.Chain() && rc == 0
    ensures l.nodes == RemoveAt(old(l.nodes), i) && l.items == RemoveAt(old(l.items), i)
    ensures heap.live == old(heap.live).Minus(JustNode(old(l.nodes)[i]))
  {
    assert LiveAt(heap.live, l.kind, l.nodes, l.items, i);
    rc := l.DeleteNode(NameKey(name), heap);
  }

  /** `list_node_create`: a live node outside every list. */
  method NodeCreate(ghost owner: LinkedList, ghost heap: Heap) returns (n: Node)
    modifies heap
    ensures fresh(n) && n.next == null && n.owner == owner
    ensures heap.live == old(heap.live).Plus(JustNode(n))
  {
    n := new Node(owner);
    heap.live := heap.live.Plus(JustNode(n));
  }

  /** A live node that holds a new tag. */
  method TagNodeCreate(name: string, path: string, ghost owner: LinkedList, ghost heap: Heap)
      returns (n: Node, ghost t: TagCell)
    modifies heap
    ensures fresh(n) && n.next == null && n.owner == owner && n.data == TagData(t)
    ensures fresh(t) && t.name == name && t.path == path && t.holder == n
    ensures heap.live == old(heap.live).Plus(JustNode(n))
  {
    n := NodeCreate(owner, heap);
    var cell := new TagCell(name, path, n);
    n.data := TagData(cell);
    t := cell;
  }

  lemma {:induction false} TotalOfActions(nodes: seq<Node>, items: seq<Data>)
    requires |nodes| == |items| && forall k | 0 <= k < |items| :: items[k].ActionData?
    ensures Total(nodes, items) == Live(NodeSet(nodes), ActionsIn(items), {})
    decreases |nodes|
  {
    if nodes != [] {
      assert RemoveAt(nodes, 0) == nodes[1..] && RemoveAt(items, 0) == items[1..];
      TotalOfActions(nodes[1..], items[1..]);
      ActionsCons(nodes, items);
    }
  }

  /** `list_delete_all` on an action list. */
  method ClearStack(l: LinkedList, ghost heap: Heap) returns (rc: int)
    requires l.kind == ActionList && l.Chain() && l.Held(heap.live)
    modifies l, heap
    ensures l.Chain() && l.nodes == [] && l.items == []
    ensures heap.live == old(heap.live).Minus(Live(NodeSet(old(l.nodes)), ActionsIn(old(l.items)), {}))
  {
    Unpack(heap.live, l.kind, l.nodes, l.items);
    TotalOfActions(l.nodes, l.items);
    rc := l.DeleteAll(heap);
  }

  method ActionCreate(path: string, ghost holder: Node, ghost heap: Heap) returns (a: Action)
    modifies heap
    ensures fresh(a) && a.path == path && a.holder == holder
    ensures heap.live == old(heap.live).Plus(Live({}, {a}, {}))
  {
    a := new Action(path, holder);
    heap.live := heap.live.Plus(Live({}, {a}, {}));
  }

  method ShellCreate(pid: int, addr: string, ghost holder: Node, ghost heap: Heap) returns (s: ShellCell)
    modifies heap
    ensures fresh(s) && s.pid == pid && s.addr == addr && s.holder == holder
    ensures fresh(s.actions) && s.actions.kind == ActionList && s.actions.home == holder
    ensures s.actions.Chain() && s.actions.nodes == []
    ensures heap.live == old(heap.live).Plus(Live({}, {}, {s}))
  {
    s := new ShellCell(pid, addr, holder);
    heap.live := heap.live.Plus(Live({}, {}, {s}));
  }

  /** A new action on top of a stack. */
  method PushOn(l: LinkedList, path: string, ghost heap: Heap) returns (ghost n: Node, ghost a: Action)
    requires l.kind == ActionList && l.Chain() && l.Held(heap.live)
    modifies heap, l
    ensures l.Chain() && l.Held(heap.live)
    ensures fresh(n) && fresh(a) && a.path == path && a.holder == n && n.owner == l
    ensures l.nodes == [n] + old(l.nodes) && l.items == [ActionData(a)] + old(l.items)
    ensures heap.live == old(heap.live).Plus(Live({n}, {a}, {}))
  {
    var node := NodeCreate(l, heap);
    var action := ActionCreate(path, node, heap);
    n, a := node, action;
    AllLiveGrows(old(heap.live), heap.live, l.kind, l.nodes, l.items);
    node.data := ActionData(action);
    l.PrependNode(node);
    forall k | 0 <= k < |l.nodes| ensures LiveAt(heap.live, l.kind, l.nodes, l.items, k) {
      if k > 0 { assert LiveAt(heap.live, l.kind, old(l.nodes), old(l.items), k - 1); }
    }
  }

  /** A live node that holds a new shell with an empty stack. */
  method ShellNodeCreate(pid: int, addr: string, ghost owner: LinkedList, ghost heap: Heap)
      returns (n: Node, s: ShellCell)
    modifies heap
    ensures fresh(n) && n.next == null && n.owner == owner && n.data == ShellData(s)
    ensures fresh(s) && s.pid == pid && s.addr == addr && s.holder == n
    ensures fresh(s.actions) && s.actions.kind == ActionList && s.actions.home == n
    ensures s.actions.Chain() && s.actions.nodes == []
    ensures heap.live == old(heap.live).Plus(Live({n}, {}, {s}))
  {
    n := NodeCreate(owner, heap);
    s := ShellCreate(pid, addr, n, heap);
    n.data := ShellData(s);
  }

  /** The list's cleanup function: `cleanup_action`, `cleanup_shell` or `cleanup_tag`. */
  method Cleanup(d: Data, ghost n: Node, ghost heap: Heap)
    requires LiveData(heap.live, d, n) && InnerOk(heap.live, d)
    modifies heap, Frame(d)
    ensures heap.live == old(heap.live).Minus(old(Footprint(d)))
    decreases if d.ShellData? then 1 else 0, 1
  {
    match d
    case ActionData(a) => heap.FreeAction(a);
    case ShellData(s) => CleanupShell(s, heap);
    case TagData(t) =>  // frees two strings, not the struct
  }

  /** `cleanup_shell`: deletes the head's path until no item is counted, then the shell. */
  method CleanupShell(s: ShellCell, ghost heap: Heap)
    requires s in heap.live.shells && s.actions.kind == ActionList
    requires s.actions.Chain() && s.actions.Held(heap.live)
    modifies heap, s.actions, s.actions.nodes
    ensures heap.live == old(heap.live).Minus(old(Footprint(ShellData(s))))
    decreases 1, 0
  {
    var l := s.actions;
    while l.nItems > 0
      invariant l.Chain() && l.Held(heap.live)
      invariant s in heap.live.shells
      invariant forall i | 0 <= i < |l.nodes| :: l.nodes[i] in old(l.nodes)
      invariant heap.live.Minus(Footprint(ShellData(s))) == old(heap.live).Minus(old(Footprint(ShellData(s))))
      decreases l.nItems
    {
      assert l.Link(l.nodes, l.items, 0) && LiveAt(heap.live, l.kind, l.nodes, l.items, 0);
      var a := l.head.data.action;
      ActionsCons(l.nodes, l.items);
      assert FirstMatch(l.items, PathKey(a.path)) == 0;
      assert RemoveAt(l.nodes, 0) == l.nodes[1..] && RemoveAt(l.items, 0) == l.items[1..];
      var rc := DeletePath(l, a.path, heap);
    }
    heap.FreeShell(s);
  }
}
