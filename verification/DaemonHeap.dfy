/**
  Who owns what in the daemon, on values.

  A `Layout` lists the nodes and data of the shell list, of the stack inside every
  shell, and of the tag list.  `LiveOf` is what they occupy; the daemon keeps it equal
  to what is live.
 */
module DaemonHeap {
  import opened TagFile
  import opened Daemon
  import opened HeapList

  datatype Stack = Stack(nodes: seq<Node>, items: seq<Data>)

  datatype Layout = Layout(
    shellNodes: seq<Node>, shellItems: seq<Data>, stacks: seq<Stack>,
    tagNodes: seq<Node>, tagItems: seq<Data>)

  // What a layout stands for

  function Paths(items: seq<Data>): seq<string> {
    seq(|items|, i requires 0 <= i < |items| => if items[i].ActionData? then items[i].action.path else "")
  }

  function ShellValue(d: Data, st: Stack): Shell {
    if d.ShellData? then Shell(d.shell.pid, d.shell.addr, Paths(st.items)) else Shell(0, "", [])
  }

  function ShellValues(items: seq<Data>, stacks: seq<Stack>): seq<Shell>
    requires |items| == |stacks|
  {
    seq(|items|, i requires 0 <= i < |items| => ShellValue(items[i], stacks[i]))
  }

  function TagValues(items: seq<Data>, paths: seq<string>): seq<Tag>
    requires |items| == |paths|
  {
    seq(|items|, i requires 0 <= i < |items| => Tag(if items[i].TagData? then items[i].cell.name else "", paths[i]))
  }

  // Ownership

  ghost predicate ProperStack(d: Data, n: Node, st: Stack) {
    && d.ShellData? && d.shell.holder == n
    && d.shell.actions.kind == ActionList && d.shell.actions.home == n
    && |st.items| == |st.nodes|
    && forall j | 0 <= j < |st.nodes| ::
      && st.nodes[j].owner == d.shell.actions
      && st.items[j].ActionData? && st.items[j].action.holder == st.nodes[j]
  }

  ghost predicate Proper(lay: Layout) {
    && |lay.shellItems| == |lay.shellNodes| == |lay.stacks|
    && |lay.tagItems| == |lay.tagNodes|
    && (forall k | 0 <= k < |lay.shellNodes| :: lay.shellNodes[k].owner.kind == ShellList)
    && (forall k | 0 <= k < |lay.stacks| :: ProperStack(lay.shellItems[k], lay.shellNodes[k], lay.stacks[k]))
    && (forall k | 0 <= k < |lay.tagNodes| ::
          && lay.tagNodes[k].owner.kind == TagList
          && lay.tagItems[k].TagData? && lay.tagItems[k].cell.holder == lay.tagNodes[k])
  }

  ghost function StackNodes(stacks: seq<Stack>): set<Node> {
    set k, n | 0 <= k < |stacks| && n in stacks[k].nodes :: n
  }

  ghost function StackActions(stacks: seq<Stack>): set<Action> {
    set k, a | 0 <= k < |stacks| && a in ActionsIn(stacks[k].items) :: a
  }

  ghost function ShellsIn(items: seq<Data>): set<ShellCell> {
    set k | 0 <= k < |items| && items[k].ShellData? :: items[k].shell
  }

  ghost function LiveOf(lay: Layout): Live {
    Live(NodeSet(lay.shellNodes) + StackNodes(lay.stacks) + NodeSet(lay.tagNodes),
         StackActions(lay.stacks), ShellsIn(lay.shellItems))
  }

  lemma ProperLive(lay: Layout)
    requires Proper(lay)
    ensures AllLive(LiveOf(lay), ShellList, lay.shellNodes, lay.shellItems)
    ensures AllLive(LiveOf(lay), TagList, lay.tagNodes, lay.tagItems)
    ensures forall k | 0 <= k < |lay.stacks| ::
      AllLive(LiveOf(lay), ActionList, lay.stacks[k].nodes, lay.stacks[k].items)
  {
    var live := LiveOf(lay);
    forall k | 0 <= k < |lay.shellNodes|
      ensures LiveData(live, lay.shellItems[k], lay.shellNodes[k])
    {
      assert ProperStack(lay.shellItems[k], lay.shellNodes[k], lay.stacks[k]);
    }
    forall k | 0 <= k < |lay.stacks|
      ensures AllLive(live, ActionList, lay.stacks[k].nodes, lay.stacks[k].items)
    {
      var st := lay.stacks[k];
      assert ProperStack(lay.shellItems[k], lay.shellNodes[k], st);
      forall j | 0 <= j < |st.nodes|
        ensures st.nodes[j] in live.nodes && LiveData(live, st.items[j], st.nodes[j])
      {
        assert st.nodes[j] in st.nodes;
        assert st.items[j].action in ActionsIn(st.items);
      }
    }
  }

  // Changing one stack

  function WithStack(lay: Layout, i: nat, st: Stack): Layout
    requires i < |lay.stacks|
  {
    lay.(stacks := lay.stacks[i := st])
  }

  lemma SetsCons(n: Node, nodes: seq<Node>, a: Action, items: seq<Data>)
    ensures NodeSet([n] + nodes) == {n} + NodeSet(nodes)
    ensures ActionsIn([ActionData(a)] + items) == {a} + ActionsIn(items)
  {
    ActionsCons([n] + nodes, [ActionData(a)] + items);
    assert ([n] + nodes)[1..] == nodes;
    assert ([ActionData(a)] + items)[1..] == items;
  }

  lemma StackSplit(stacks: seq<Stack>, i: nat)
    requires i < |stacks|
    ensures StackNodes(stacks) == NodeSet(stacks[i].nodes) + StackNodes(RemoveAt(stacks, i))
    ensures StackActions(stacks) == ActionsIn(stacks[i].items) + StackActions(RemoveAt(stacks, i))
  {
    var rest := RemoveAt(stacks, i);
    RemoveAtIndex(stacks, i);
    forall n | n in StackNodes(stacks) ensures n in stacks[i].nodes || n in StackNodes(rest) {
      var k :| 0 <= k < |stacks| && n in stacks[k].nodes;
      assert k == i || rest[if k < i then k else k - 1] == stacks[k];
    }
    forall n | n in StackNodes(rest) ensures n in StackNodes(stacks) {
      var k :| 0 <= k < |rest| && n in rest[k].nodes;
      assert stacks[if k < i then k else k + 1] == rest[k];
    }
    forall a | a in StackActions(stacks) ensures a in ActionsIn(stacks[i].items) || a in StackActions(rest) {
      var k :| 0 <= k < |stacks| && a in ActionsIn(stacks[k].items);
      assert k == i || rest[if k < i then k else k - 1] == stacks[k];
    }
    forall a | a in StackActions(rest) ensures a in StackActions(stacks) {
      var k :| 0 <= k < |rest| && a in ActionsIn(rest[k].items);
      assert stacks[if k < i then k else k + 1] == rest[k];
    }
  }

  /** Replacing one stack replaces its nodes and actions in the whole. */
  lemma StackSets(stacks: seq<Stack>, i: nat, st: Stack)
    requires i < |stacks|
    ensures StackNodes(stacks[i := st]) == NodeSet(st.nodes) + StackNodes(RemoveAt(stacks, i))
    ensures StackNodes(stacks) == NodeSet(stacks[i].nodes) + StackNodes(RemoveAt(stacks, i))
    ensures StackActions(stacks[i := st]) == ActionsIn(st.items) + StackActions(RemoveAt(stacks, i))
    ensures StackActions(stacks) == ActionsIn(stacks[i].items) + StackActions(RemoveAt(stacks, i))
  {
    StackSplit(stacks, i);
    StackSplit(stacks[i := st], i);
    assert RemoveAt(stacks[i := st], i) == RemoveAt(stacks, i);
  }

  lemma StackSetsPush(stacks: seq<Stack>, i: nat, n: Node, a: Action)
    requires i < |stacks|
    ensures var stacks' := stacks[i := Stack([n] + stacks[i].nodes, [ActionData(a)] + stacks[i].items)];
      StackNodes(stacks') == {n} + StackNodes(stacks) && StackActions(stacks') == {a} + StackActions(stacks)
  {
    hide StackNodes, StackActions, RemoveAt, NodeSet, ActionsIn;
    var st := stacks[i];
    SetsCons(n, st.nodes, a, st.items);
    StackSets(stacks, i, Stack([n] + st.nodes, [ActionData(a)] + st.items));
  }

  lemma LivePush(lay: Layout, i: nat, n: Node, a: Action)
    requires i < |lay.stacks|
    ensures LiveOf(WithStack(lay, i, Stack([n] + lay.stacks[i].nodes, [ActionData(a)] + lay.stacks[i].items)))
      == LiveOf(lay).Plus(Live({n}, {a}, {}))
  {
    hide StackNodes, StackActions, ShellsIn, NodeSet;
    StackSetsPush(lay.stacks, i, n, a);
  }

  lemma StackProperSame(lay: Layout, i: nat, st: Stack)
    requires Proper(lay) && i < |lay.stacks| && ProperStack(lay.shellItems[i], lay.shellNodes[i], st)
    ensures Proper(WithStack(lay, i, st))
  {
    var lay' := WithStack(lay, i, st);
    forall k | 0 <= k < |lay.stacks| && k != i
      ensures ProperStack(lay'.shellItems[k], lay'.shellNodes[k], lay'.stacks[k])
    {
      assert ProperStack(lay.shellItems[k], lay.shellNodes[k], lay.stacks[k]);
    }
  }

  lemma StackPush(lay: Layout, i: nat, n: Node, a: Action)
    requires Proper(lay) && i < |lay.stacks|
    requires n.owner == lay.shellItems[i].shell.actions && a.holder == n
    ensures var lay' := WithStack(lay, i, Stack([n] + lay.stacks[i].nodes, [ActionData(a)] + lay.stacks[i].items));
      Proper(lay') && LiveOf(lay') == LiveOf(lay).Plus(Live({n}, {a}, {}))
  {
    var st := lay.stacks[i];
    var st' := Stack([n] + st.nodes, [ActionData(a)] + st.items);
    var lay' := WithStack(lay, i, st');
    assert ProperStack(lay.shellItems[i], lay.shellNodes[i], st);
    assert ProperStack(lay'.shellItems[i], lay'.shellNodes[i], st');
    StackProperSame(lay, i, st');
    LivePush(lay, i, n, a);
  }

  /** The nodes and actions of a stack are in no other stack, and among no other nodes. */
  lemma StackApart(lay: Layout, i: nat)
    requires Proper(lay) && i < |lay.stacks|
    requires forall k | 0 <= k < |lay.shellNodes| && k != i :: lay.shellNodes[k] != lay.shellNodes[i]
    ensures NodeSet(lay.stacks[i].nodes) !! NodeSet(lay.shellNodes)
    ensures NodeSet(lay.stacks[i].nodes) !! NodeSet(lay.tagNodes)
    ensures NodeSet(lay.stacks[i].nodes) !! StackNodes(RemoveAt(lay.stacks, i))
    ensures ActionsIn(lay.stacks[i].items) !! StackActions(RemoveAt(lay.stacks, i))
  {
    var rest, l := RemoveAt(lay.stacks, i), lay.shellItems[i].shell.actions;
    assert ProperStack(lay.shellItems[i], lay.shellNodes[i], lay.stacks[i]);
    RemoveAtIndex(lay.stacks, i);
    forall n | n in StackNodes(rest) ensures n.owner != l {
      var k :| 0 <= k < |rest| && n in rest[k].nodes;
      var m := if k < i then k else k + 1;
      assert rest[k] == lay.stacks[m] && ProperStack(lay.shellItems[m], lay.shellNodes[m], lay.stacks[m]);
    }
    forall a | a in StackActions(rest) ensures a.holder.owner != l {
      var k :| 0 <= k < |rest| && a in ActionsIn(rest[k].items);
      var m := if k < i then k else k + 1;
      assert rest[k] == lay.stacks[m] && ProperStack(lay.shellItems[m], lay.shellNodes[m], lay.stacks[m]);
    }
  }

  lemma NodesWithout(nodes: seq<Node>, j: nat)
    requires j < |nodes| && forall k | 0 <= k < |nodes| && k != j :: nodes[k] != nodes[j]
    ensures NodeSet(RemoveAt(nodes, j)) == NodeSet(nodes) - {nodes[j]}
  {
    var r := RemoveAt(nodes, j);
    RemoveAtIndex(nodes, j);
    forall n | n in NodeSet(nodes) && n != nodes[j] ensures n in r {
      var k :| 0 <= k < |nodes| && nodes[k] == n;
      assert r[if k < j then k else k - 1] == n;
    }
    forall n | n in r ensures n in nodes && n != nodes[j] {
      var k :| 0 <= k < |r| && r[k] == n;
      assert nodes[if k < j then k else k + 1] == n;
    }
  }

  lemma ActionsWithout(st: Stack, j: nat)
    requires |st.items| == |st.nodes| && j < |st.nodes|
    requires forall k | 0 <= k < |st.nodes| && k != j :: st.nodes[k] != st.nodes[j]
    requires forall k | 0 <= k < |st.nodes| :: st.items[k].ActionData? && st.items[k].action.holder == st.nodes[k]
    ensures ActionsIn(RemoveAt(st.items, j)) == ActionsIn(st.items) - {st.items[j].action}
  {
    var r := RemoveAt(st.items, j);
    RemoveAtIndex(st.items, j);
    forall a | a in ActionsIn(st.items) && a != st.items[j].action ensures a in ActionsIn(r) {
      var k :| 0 <= k < |st.items| && st.items[k].ActionData? && st.items[k].action == a;
      assert r[if k < j then k else k - 1] == st.items[k];
    }
    forall a | a in ActionsIn(r) ensures a in ActionsIn(st.items) && a != st.items[j].action {
      var k :| 0 <= k < |r| && r[k].ActionData? && r[k].action == a;
      var m := if k < j then k else k + 1;
      assert st.items[m] == r[k] && m != j;
    }
  }

  /** Deleting an action node deletes exactly that node and that action. */
  lemma StackDelete(lay: Layout, i: nat, j: nat)
    requires Proper(lay) && i < |lay.stacks| && j < |lay.stacks[i].nodes|
    requires forall k | 0 <= k < |lay.shellNodes| && k != i :: lay.shellNodes[k] != lay.shellNodes[i]
    requires forall k | 0 <= k < |lay.stacks[i].nodes| && k != j :: lay.stacks[i].nodes[k] != lay.stacks[i].nodes[j]
    ensures ProperStack(lay.shellItems[i], lay.shellNodes[i], lay.stacks[i])
    ensures var st := lay.stacks[i];
      var lay' := WithStack(lay, i, Stack(RemoveAt(st.nodes, j), RemoveAt(st.items, j)));
      Proper(lay') && LiveOf(lay') == LiveOf(lay).Minus(Live({st.nodes[j]}, {st.items[j].action}, {}))
  {
    var st := lay.stacks[i];
    var st' := Stack(RemoveAt(st.nodes, j), RemoveAt(st.items, j));
    var lay' := WithStack(lay, i, st');
    assert ProperStack(lay.shellItems[i], lay.shellNodes[i], st);
    RemoveAtIndex(st.nodes, j);
    RemoveAtIndex(st.items, j);
    StackProperSame(lay, i, st');
    StackSets(lay.stacks, i, st');
    StackApart(lay, i);
    NodesWithout(st.nodes, j);
    ActionsWithout(st, j);
  }

  /** Emptying a stack frees all of its nodes and actions and nothing else. */
  lemma StackClear(lay: Layout, i: nat)
    requires Proper(lay) && i < |lay.stacks|
    requires forall k | 0 <= k < |lay.shellNodes| && k != i :: lay.shellNodes[k] != lay.shellNodes[i]
    ensures var st := lay.stacks[i]; var lay' := WithStack(lay, i, Stack([], []));
      Proper(lay') && LiveOf(lay') == LiveOf(lay).Minus(Live(NodeSet(st.nodes), ActionsIn(st.items), {}))
  {
    assert ProperStack(lay.shellItems[i], lay.shellNodes[i], lay.stacks[i]);
    StackProperSame(lay, i, Stack([], []));
    StackSets(lay.stacks, i, Stack([], []));
    StackApart(lay, i);
  }

  // Adding and removing a shell

  lemma ShellsAppend(items: seq<Data>, s: ShellCell)
    ensures ShellsIn(items + [ShellData(s)]) == ShellsIn(items) + {s}
  {
    var r := items + [ShellData(s)];
    assert r[|items|].shell == s;
    forall x | x in ShellsIn(items) ensures x in ShellsIn(r) {
      var k :| 0 <= k < |items| && items[k].ShellData? && items[k].shell == x;
      assert r[k] == items[k];
    }
  }

  lemma StacksAppend(stacks: seq<Stack>)
    ensures StackNodes(stacks + [Stack([], [])]) == StackNodes(stacks)
    ensures StackActions(stacks + [Stack([], [])]) == StackActions(stacks)
  {
    assert RemoveAt(stacks + [Stack([], [])], |stacks|) == stacks;
    hide StackNodes, StackActions;
    StackSplit(stacks + [Stack([], [])], |stacks|);
  }

  function WithShell(lay: Layout, n: Node, s: ShellCell): Layout {
    lay.(shellNodes := lay.shellNodes + [n], shellItems := lay.shellItems + [ShellData(s)],
         stacks := lay.stacks + [Stack([], [])])
  }

  lemma ShellLive(lay: Layout, n: Node, s: ShellCell)
    ensures LiveOf(WithShell(lay, n, s)) == LiveOf(lay).Plus(Live({n}, {}, {s}))
  {
    hide StackNodes, StackActions, ShellsIn;
    StacksAppend(lay.stacks);
    ShellsAppend(lay.shellItems, s);
  }

  lemma ShellProper(lay: Layout, n: Node, s: ShellCell)
    requires Proper(lay) && n.owner.kind == ShellList && s.holder == n
    requires s.actions.kind == ActionList && s.actions.home == n
    ensures Proper(WithShell(lay, n, s))
  {
    var lay' := WithShell(lay, n, s);
    forall m | 0 <= m < |lay'.stacks| ensures ProperStack(lay'.shellItems[m], lay'.shellNodes[m], lay'.stacks[m]) {
      assert m < |lay.stacks| ==> ProperStack(lay.shellItems[m], lay.shellNodes[m], lay.stacks[m]);
    }
  }

  lemma ShellAppend(lay: Layout, n: Node, s: ShellCell)
    requires Proper(lay) && n.owner.kind == ShellList && s.holder == n
    requires s.actions.kind == ActionList && s.actions.home == n
    ensures Proper(WithShell(lay, n, s)) && LiveOf(WithShell(lay, n, s)) == LiveOf(lay).Plus(Live({n}, {}, {s}))
  {
    hide Proper, LiveOf;
    ShellLive(lay, n, s);
    ShellProper(lay, n, s);
  }

  function WithoutShell(lay: Layout, i: nat): Layout
    requires i < |lay.shellNodes| && |lay.shellItems| == |lay.shellNodes| == |lay.stacks|
  {
    lay.(shellNodes := RemoveAt(lay.shellNodes, i), shellItems := RemoveAt(lay.shellItems, i),
         stacks := RemoveAt(lay.stacks, i))
  }

  lemma ShellsWithout(lay: Layout, i: nat)
    requires Proper(lay) && i < |lay.stacks|
    requires forall k | 0 <= k < |lay.shellNodes| && k != i :: lay.shellNodes[k] != lay.shellNodes[i]
    ensures lay.shellItems[i].ShellData?
    ensures ShellsIn(RemoveAt(lay.shellItems, i)) == ShellsIn(lay.shellItems) - {lay.shellItems[i].shell}
  {
    var items := lay.shellItems;
    var r := RemoveAt(items, i);
    RemoveAtIndex(items, i);
    assert forall k | 0 <= k < |items| :: ProperStack(items[k], lay.shellNodes[k], lay.stacks[k]);
    forall x | x in ShellsIn(items) && x != items[i].shell ensures x in ShellsIn(r) {
      var k :| 0 <= k < |items| && items[k].ShellData? && items[k].shell == x;
      assert r[if k < i then k else k - 1] == items[k];
    }
    forall x | x in ShellsIn(r) ensures x in ShellsIn(items) && x != items[i].shell {
      var k :| 0 <= k < |r| && r[k].ShellData? && r[k].shell == x;
      var m := if k < i then k else k + 1;
      assert items[m] == r[k] && m != i;
    }
  }

  /** A shell's node is neither in a stack nor in the tag list. */
  lemma NodeApart(lay: Layout, i: nat)
    requires Proper(lay) && i < |lay.shellNodes|
    ensures lay.shellNodes[i] !in StackNodes(lay.stacks) && lay.shellNodes[i] !in lay.tagNodes
  {
    var n := lay.shellNodes[i];
    forall k | 0 <= k < |lay.stacks| ensures n !in lay.stacks[k].nodes {
      assert ProperStack(lay.shellItems[k], lay.shellNodes[k], lay.stacks[k]);
    }
  }

  /** Deleting a shell deletes its node, the shell, and everything in its stack. */
  lemma ShellDelete(lay: Layout, i: nat)
    requires Proper(lay) && i < |lay.stacks|
    requires forall k | 0 <= k < |lay.shellNodes| && k != i :: lay.shellNodes[k] != lay.shellNodes[i]
    ensures lay.shellItems[i].ShellData?
    ensures var st := lay.stacks[i]; var lay' := WithoutShell(lay, i);
      Proper(lay') && LiveOf(lay') == LiveOf(lay)
        .Minus(Live(NodeSet(st.nodes), ActionsIn(st.items), {lay.shellItems[i].shell}))
        .Minus(JustNode(lay.shellNodes[i]))
  {
    var st, lay' := lay.stacks[i], WithoutShell(lay, i);
    assert ProperStack(lay.shellItems[i], lay.shellNodes[i], st);
    RemoveAtIndex(lay.shellNodes, i);
    RemoveAtIndex(lay.shellItems, i);
    RemoveAtIndex(lay.stacks, i);
    forall k | 0 <= k < |lay'.stacks| ensures ProperStack(lay'.shellItems[k], lay'.shellNodes[k], lay'.stacks[k]) {
      var m := if k < i then k else k + 1;
      assert ProperStack(lay.shellItems[m], lay.shellNodes[m], lay.stacks[m]);
    }
    StackSplit(lay.stacks, i);
    StackApart(lay, i);
    NodesWithout(lay.shellNodes, i);
    ShellsWithout(lay, i);
    NodeApart(lay, i);
  }

  // Adding and removing a tag

  lemma TagAppend(lay: Layout, n: Node, t: TagCell)
    requires Proper(lay) && n.owner.kind == TagList && t.holder == n
    ensures var lay' := lay.(tagNodes := lay.tagNodes + [n], tagItems := lay.tagItems + [TagData(t)]);
      Proper(lay') && LiveOf(lay') == LiveOf(lay).Plus(JustNode(n))
  {
  }

  lemma TagDelete(lay: Layout, i: nat)
    requires Proper(lay) && i < |lay.tagNodes|
    requires forall k | 0 <= k < |lay.tagNodes| && k != i :: lay.tagNodes[k] != lay.tagNodes[i]
    ensures var lay' := lay.(tagNodes := RemoveAt(lay.tagNodes, i), tagItems := RemoveAt(lay.tagItems, i));
      Proper(lay') && LiveOf(lay') == LiveOf(lay).Minus(JustNode(lay.tagNodes[i]))
  {
    RemoveAtIndex(lay.tagNodes, i);
    RemoveAtIndex(lay.tagItems, i);
    NodesWithout(lay.tagNodes, i);
    var n := lay.tagNodes[i];
    forall k | 0 <= k < |lay.stacks| ensures n !in lay.stacks[k].nodes {
      assert ProperStack(lay.shellItems[k], lay.shellNodes[k], lay.stacks[k]);
    }
  }
}
