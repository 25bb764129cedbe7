/**
  The daemon's state on the heap, and what the handlers do to it: each operation keeps
  the lists in order and changes the value that they stand for (`View`).
 */
module NavDaemon {
  import opened CString
  import opened Decimal
  import opened TagFile
  import opened Daemon
  import opened HeapList
  import opened DaemonHeap

  /** The stack inside a shell lies within a set of objects. */
  ghost predicate LiesIn(d: Data, st: Stack, repr: set<object>) {
    d.ShellData? && d.shell.actions in repr && forall j | 0 <= j < |st.nodes| :: st.nodes[j] in repr
  }

  /** The list inside a shell is a chain of these nodes. */
  ghost predicate StackTied(d: Data, st: Stack)
    reads if d.ShellData? then {d.shell.actions} else {}
    reads st.nodes
  {
    && d.ShellData?
    && d.shell.actions.nodes == st.nodes && d.shell.actions.items == st.items
    && d.shell.actions.Chain()
  }

  /** Neither the list nor the nodes of this stack are those of `l`. */
  ghost predicate NotOf(l: LinkedList, d: Data, st: Stack) {
    && d.ShellData? && d.shell.actions != l && d.shell.actions.kind == ActionList
    && forall j | 0 <= j < |st.nodes| :: st.nodes[j].owner == d.shell.actions
  }

  ghost predicate TagTied(d: Data, path: string)
    reads if d.TagData? then {d.cell} else {}
  {
    d.TagData? && d.cell.path == path
  }

  lemma ViewAppendTag(items: seq<Data>, paths: seq<string>, t: TagCell, path: string)
    requires |items| == |paths|
    ensures TagValues(items + [TagData(t)], paths + [path]) == TagValues(items, paths) + [Tag(t.name, path)]
  {
  }

  lemma ViewWithoutTag(items: seq<Data>, paths: seq<string>, i: nat)
    requires |items| == |paths| && i < |items|
    ensures TagValues(RemoveAt(items, i), RemoveAt(paths, i)) == RemoveAt(TagValues(items, paths), i)
  {
    RemoveAtIndex(items, i);
    RemoveAtIndex(paths, i);
    RemoveAtIndex(TagValues(items, paths), i);
  }

  /** Comparing tag data with a name finds what comparing names finds. */
  lemma NameMatches(lay: Layout, paths: seq<string>, name: string)
    requires Proper(lay) && |paths| == |lay.tagItems|
    ensures FirstMatch(lay.tagItems, NameKey(name)) == TagIndex(TagValues(lay.tagItems, paths), name)
  {
    var tags := TagValues(lay.tagItems, paths);
    assert forall k | 0 <= k < |tags| :: Matches(lay.tagItems[k], NameKey(name)) <==> tags[k].name == name;
  }

  lemma ViewWithoutShell(lay: Layout, i: nat)
    requires |lay.shellItems| == |lay.shellNodes| == |lay.stacks| && i < |lay.stacks|
    ensures ShellValues(WithoutShell(lay, i).shellItems, WithoutShell(lay, i).stacks)
      == RemoveAt(ShellValues(lay.shellItems, lay.stacks), i)
  {
    RemoveAtIndex(lay.shellItems, i);
    RemoveAtIndex(lay.stacks, i);
    RemoveAtIndex(ShellValues(lay.shellItems, lay.stacks), i);
  }

  lemma ViewAppendShell(lay: Layout, s: ShellCell)
    requires |lay.shellItems| == |lay.stacks|
    ensures ShellValues(lay.shellItems + [ShellData(s)], lay.stacks + [Stack([], [])])
      == ShellValues(lay.shellItems, lay.stacks) + [Shell(s.pid, s.addr, [])]
  {
    assert Paths([]) == [];
  }

  /** Comparing shells with a pid finds what comparing pids finds. */
  lemma PidMatches(lay: Layout, pid: int)
    requires Proper(lay)
    ensures FirstMatch(lay.shellItems, PidKey(pid)) == ShellIndex(ShellValues(lay.shellItems, lay.stacks), pid)
  {
    var shells := ShellValues(lay.shellItems, lay.stacks);
    forall k | 0 <= k < |shells| ensures Matches(lay.shellItems[k], PidKey(pid)) <==> shells[k].pid == pid {
      assert ProperStack(lay.shellItems[k], lay.shellNodes[k], lay.stacks[k]);
    }
  }

  lemma EmptyLayout(lay: Layout)
    requires lay == Layout([], [], [], [], [])
    ensures Proper(lay) && LiveOf(lay) == NOTHING
    ensures ShellValues([], []) == [] && TagValues([], []) == []
  {
  }

  function SetStack(s: State, i: nat, actions: seq<string>): State
    requires i < |s.shells|
  {
    s.(shells := s.shells[i := s.shells[i].(actions := actions)])
  }

  lemma ViewWithStack(lay: Layout, i: nat, st: Stack)
    requires |lay.shellItems| == |lay.stacks| && i < |lay.stacks|
    requires lay.shellItems[i].ShellData?
    ensures ShellValues(lay.shellItems, WithStack(lay, i, st).stacks) ==
      var shells := ShellValues(lay.shellItems, lay.stacks);
      shells[i := shells[i].(actions := Paths(st.items))]
  {
  }

  lemma PathsCons(a: Action, items: seq<Data>)
    ensures Paths([ActionData(a)] + items) == [a.path] + Paths(items)
  {
  }

  lemma PathsRemove(items: seq<Data>, j: nat)
    requires j < |items|
    ensures Paths(RemoveAt(items, j)) == RemoveAt(Paths(items), j)
  {
    RemoveAtIndex(items, j);
    RemoveAtIndex(Paths(items), j);
  }

  /** Comparing action data with a path finds what comparing paths finds. */
  lemma ActionMatches(d: Data, n: Node, st: Stack, path: string)
    requires ProperStack(d, n, st)
    ensures FirstMatch(st.items, PathKey(path)) == PathIndex(Paths(st.items), path)
  {
    var paths := Paths(st.items);
    assert forall k | 0 <= k < |paths| :: Matches(st.items[k], PathKey(path)) <==> paths[k] == path;
  }

  class NavState {
    const env: Env
    const shells: LinkedList
    const tags: LinkedList
    var file: string
    ghost const heap: Heap
    ghost var stacks: seq<Stack>
    ghost var paths: seq<string>
    ghost var Repr: set<object>

    ghost function Lay(): Layout
      reads this, shells, tags
    {
      Layout(shells.nodes, shells.items, stacks, tags.nodes, tags.items)
    }

    /** `stacks` mirrors the lists inside the shells. */
    ghost predicate StacksTied()
      reads this, Repr, shells
    {
      && |stacks| == |shells.items|
      && (forall k | 0 <= k < |stacks| :: LiesIn(shells.items[k], stacks[k], Repr))
      && (forall k | 0 <= k < |stacks| :: StackTied(shells.items[k], stacks[k]))
    }

    /** `paths` mirrors the paths in the tags. */
    ghost predicate TagsTied()
      reads this, Repr, tags
    {
      && |paths| == |tags.items|
      && (forall k | 0 <= k < |paths| :: tags.items[k].TagData? && tags.items[k].cell in Repr)
      && (forall k | 0 <= k < |paths| :: TagTied(tags.items[k], paths[k]))
    }

    /** The outer lists are chains, and `paths` agrees with the tags. */
    ghost predicate OuterTied()
      reads this, Repr
    {
      && this in Repr && heap !in Repr && shells in Repr && tags in Repr
      && (forall n | n in shells.nodes :: n in Repr)
      && (forall n | n in tags.nodes :: n in Repr)
      && shells.kind == ShellList && tags.kind == TagList
      && shells.Chain() && tags.Chain() && TagsTied()
    }

    /** The lists are chains, and the mirrors agree with them. */
    ghost predicate Tied()
      reads this, Repr
    {
      OuterTied() && StacksTied()
    }

    /**
      Besides, every object has the one owner its back pointer names ...
     */
    ghost predicate Owned()
      reads this, Repr
    {
      Tied() && Proper(Lay())
    }

    /** ... and what is live is exactly what the lists own. */
    ghost predicate Valid()
      reads this, Repr, heap
      ensures Valid() ==> this in Repr && heap !in Repr
    {
      Owned() && heap.live == LiveOf(Lay())
    }

    ghost function View(): State
      reads this, Repr, heap
      requires Valid()
    {
      State(ShellValues(shells.items, stacks), TagValues(tags.items, paths), file)
    }

    /** `init_state`: empty lists, and a tag file that has not been read. */
    constructor (env: Env, file: string)
      ensures this.env == env
      ensures Valid() && View() == State([], [], file)
      ensures fresh(Repr) && fresh(heap)
    {
      this.env := env;
      this.file := file;
      shells := new LinkedList(ShellList, null);
      tags := new LinkedList(TagList, null);
      heap := new Heap();
      stacks, paths := [], [];
      new;
      Repr := {this, shells, tags};
      assert OuterTied() && StacksTied();
      EmptyLayout(Lay());
    }

    // Facts about one shell

    /** The shell at position `i` of the list is `s`. */
    ghost predicate IsAt(i: nat, s: ShellCell)
      reads shells
    {
      i < |shells.items| && shells.items[i] == ShellData(s)
    }

    /** Shell `i` is `s`, and its stack is a list of live nodes that no other shell has. */
    ghost predicate IsShell(i: nat, s: ShellCell)
      reads this, Repr, heap
    {
      && Tied() && i < |shells.items| && shells.items[i] == ShellData(s)
      && (forall k | 0 <= k < |shells.items| && k != i :: NotOf(s.actions, shells.items[k], stacks[k]))
      && s.actions.kind == ActionList
      && s.actions.Held(heap.live)
    }

    lemma OneShell(i: nat, s: ShellCell)
      requires Valid() && IsAt(i, s)
      ensures IsShell(i, s)
      ensures forall k | 0 <= k < |shells.nodes| && k != i :: shells.nodes[k] != shells.nodes[i]
      ensures ProperStack(shells.items[i], shells.nodes[i], stacks[i])
    {
      shells.Distinct(i);
      ProperLive(Lay());
      assert ProperStack(shells.items[i], shells.nodes[i], stacks[i]);
      assert StackTied(shells.items[i], stacks[i]);
      forall k | 0 <= k < |shells.items| && k != i ensures NotOf(s.actions, shells.items[k], stacks[k]) {
        assert ProperStack(shells.items[k], shells.nodes[k], stacks[k]);
      }
    }

    // The stack of one shell

    /** The lists inside all shells but the one at `i` are as mirrored. */
    ghost predicate OthersTied(i: nat)
      reads this, Repr, shells
    {
      && |stacks| == |shells.items|
      && (forall k | 0 <= k < |stacks| && k != i :: LiesIn(shells.items[k], stacks[k], Repr))
      && (forall k | 0 <= k < |stacks| && k != i :: StackTied(shells.items[k], stacks[k]))
    }

    /** Brings `stacks` up to date with the list inside shell `i`. */
    ghost method Mirror(s: ShellCell, i: nat)
      requires OuterTied() && OthersTied(i)
      requires i < |shells.items| && shells.items[i] == ShellData(s)
      requires s.actions in Repr && s.actions.Chain() && forall n | n in s.actions.nodes :: n in Repr
      modifies this`stacks
      ensures Tied() && stacks == old(stacks)[i := Stack(s.actions.nodes, s.actions.items)]
    {
      ghost var before := stacks;
      stacks := stacks[i := Stack(s.actions.nodes, s.actions.items)];
      forall k | 0 <= k < |stacks|
        ensures LiesIn(shells.items[k], stacks[k], Repr) && StackTied(shells.items[k], stacks[k])
      {
        if k != i {
          assert LiesIn(shells.items[k], before[k], Repr) && StackTied(shells.items[k], before[k]);
        }
      }
    }

    ghost method GrowRepr(n: Node, i: nat)
      requires OuterTied() && OthersTied(i)
      modifies this`Repr
      ensures OuterTied() && OthersTied(i) && Repr == old(Repr) + {n}
    {
      ghost var before := Repr;
      Repr := Repr + {n};
      forall k | 0 <= k < |stacks| && k != i ensures LiesIn(shells.items[k], stacks[k], Repr) {
        assert LiesIn(shells.items[k], stacks[k], before);
      }
    }

    method PushInner(s: ShellCell, path: string, ghost i: nat) returns (ghost n: Node, ghost a: Action)
      requires IsShell(i, s)
      modifies heap, s.actions
      ensures OuterTied() && OthersTied(i) && s.actions.Chain()
      ensures fresh(n) && a.path == path && a.holder == n && n.owner == s.actions
      ensures heap.live == old(heap.live).Plus(Live({n}, {a}, {}))
      ensures s.actions.nodes == [n] + old(stacks[i].nodes) && s.actions.items == [ActionData(a)] + old(stacks[i].items)
      ensures shells.nodes == old(shells.nodes) && shells.items == old(shells.items)
      ensures tags.nodes == old(tags.nodes) && tags.items == old(tags.items)
    {
      assert StackTied(shells.items[i], stacks[i]);
      n, a := PushOn(s.actions, path, heap);
      forall k | 0 <= k < |stacks| && k != i ensures StackTied(shells.items[k], stacks[k]) {
        assert NotOf(s.actions, shells.items[k], stacks[k]) && old(StackTied(shells.items[k], stacks[k]));
      }
    }

    method PushTied(s: ShellCell, path: string, ghost i: nat) returns (ghost n: Node, ghost a: Action)
      requires IsShell(i, s)
      modifies Repr, heap
      ensures Tied() && fresh(Repr - old(Repr))
      ensures a.path == path && a.holder == n && n.owner == s.actions
      ensures heap.live == old(heap.live).Plus(Live({n}, {a}, {}))
      ensures Lay() == WithStack(old(Lay()), i,
        Stack([n] + old(stacks[i].nodes), [ActionData(a)] + old(stacks[i].items)))
      ensures file == old(file) && paths == old(paths)
    {
      assert LiesIn(shells.items[i], stacks[i], Repr);
      n, a := PushInner(s, path, i);
      GrowRepr(n, i);
      Mirror(s, i);
    }

    method DeleteInner(s: ShellCell, path: string, ghost i: nat) returns (rc: int)
      requires IsShell(i, s) && FirstMatch(stacks[i].items, PathKey(path)) < |stacks[i].items|
      modifies s.actions, s.actions.nodes, heap
      ensures OuterTied() && OthersTied(i) && s.actions.Chain() && rc == 0
      ensures shells.nodes == old(shells.nodes) && shells.items == old(shells.items)
      ensures tags.nodes == old(tags.nodes) && tags.items == old(tags.items)
      ensures var st := stacks[i]; var j := FirstMatch(st.items, PathKey(path));
        && |st.nodes| == |st.items|
        && s.actions.nodes == RemoveAt(st.nodes, j) && s.actions.items == RemoveAt(st.items, j)
        && st.items[j].ActionData?
        && heap.live == old(heap.live).Minus(Live({st.nodes[j]}, {st.items[j].action}, {}))
    {
      assert StackTied(shells.items[i], stacks[i]);
      s.actions.Owners();
      shells.Owners();
      tags.Owners();
      rc := DeletePath(s.actions, path, heap);
      forall k | 0 <= k < |stacks| && k != i ensures StackTied(shells.items[k], stacks[k]) {
        assert NotOf(s.actions, shells.items[k], stacks[k]) && old(StackTied(shells.items[k], stacks[k]));
      }
    }

    method DeleteTied(s: ShellCell, path: string, ghost i: nat) returns (rc: int)
      requires IsShell(i, s) && FirstMatch(stacks[i].items, PathKey(path)) < |stacks[i].items|
      modifies Repr, heap
      ensures Tied() && Repr == old(Repr) && rc == 0
      ensures var st := old(stacks[i]); var j := FirstMatch(st.items, PathKey(path));
        && |st.nodes| == |st.items|
        && Lay() == WithStack(old(Lay()), i, Stack(RemoveAt(st.nodes, j), RemoveAt(st.items, j)))
        && st.items[j].ActionData?
        && heap.live == old(heap.live).Minus(Live({st.nodes[j]}, {st.items[j].action}, {}))
      ensures file == old(file) && paths == old(paths)
    {
      assert StackTied(shells.items[i], stacks[i]) && LiesIn(shells.items[i], stacks[i], Repr);
      RemoveAtIndex(stacks[i].nodes, FirstMatch(stacks[i].items, PathKey(path)));
      rc := DeleteInner(s, path, i);
      Mirror(s, i);
    }

    method ClearInner(s: ShellCell, ghost i: nat) returns (rc: int)
      requires IsShell(i, s)
      modifies s.actions, heap
      ensures OuterTied() && OthersTied(i) && s.actions.Chain()
      ensures shells.nodes == old(shells.nodes) && shells.items == old(shells.items)
      ensures tags.nodes == old(tags.nodes) && tags.items == old(tags.items)
      ensures s.actions.nodes == [] && s.actions.items == []
      ensures heap.live == old(heap.live).Minus(Live(NodeSet(stacks[i].nodes), ActionsIn(stacks[i].items), {}))
    {
      assert StackTied(shells.items[i], stacks[i]);
      rc := ClearStack(s.actions, heap);
      forall k | 0 <= k < |stacks| && k != i ensures StackTied(shells.items[k], stacks[k]) {
        assert NotOf(s.actions, shells.items[k], stacks[k]) && old(StackTied(shells.items[k], stacks[k]));
      }
    }

    method ClearTied(s: ShellCell, ghost i: nat)
      requires IsShell(i, s)
      modifies Repr, heap
      ensures Tied() && Repr == old(Repr)
      ensures Lay() == WithStack(old(Lay()), i, Stack([], []))
      ensures heap.live == old(heap.live)
        .Minus(Live(NodeSet(old(stacks[i].nodes)), ActionsIn(old(stacks[i].items)), {}))
      ensures file == old(file) && paths == old(paths)
    {
      assert StackTied(shells.items[i], stacks[i]);
      var rc := ClearInner(s, i);
      Mirror(s, i);
    }

    /** The head of the list inside shell `i` is the top of its stack. */
    lemma StackOfShell(i: nat, s: ShellCell)
      requires Valid() && IsAt(i, s)
      ensures i < |View().shells| && var actions := View().shells[i].actions;
        if actions == [] then s.actions.head == null
        else s.actions.head != null && s.actions.head.data.ActionData? && s.actions.head.data.action.path == actions[0]
    {
      assert StackTied(shells.items[i], stacks[i]) && ProperStack(shells.items[i], shells.nodes[i], stacks[i]);
      var l := s.actions;
      if l.nodes != [] {
        assert l.Link(l.nodes, l.items, 0);
      }
    }

    /** Pushes a new action node on the stack of shell `i`. */
    method PushNode(s: ShellCell, path: string, ghost i: nat)
      requires Valid() && IsAt(i, s)
      modifies Repr, heap
      ensures Valid() && fresh(Repr - old(Repr))
      ensures i < |old(View()).shells|
      ensures View() == SetStack(old(View()), i, [path] + old(View()).shells[i].actions)
    {
      OneShell(i, s);
      ghost var n, a := PushTied(s, path, i);
      StackPush(old(Lay()), i, n, a);
      ViewWithStack(old(Lay()), i, Stack([n] + old(stacks[i].nodes), [ActionData(a)] + old(stacks[i].items)));
      PathsCons(a, old(stacks[i].items));
    }

    /** Deletes the first action with that path from the stack of shell `i`. */
    method DeleteAction(s: ShellCell, path: string, ghost i: nat)
      requires Valid() && IsAt(i, s)
      requires i < |View().shells| && PathIndex(View().shells[i].actions, path) < |View().shells[i].actions|
      modifies Repr, heap
      ensures Valid() && Repr == old(Repr)
      ensures i < |old(View()).shells| && View() == SetStack(old(View()), i,
        RemoveAt(old(View()).shells[i].actions, PathIndex(old(View()).shells[i].actions, path)))
    {
      OneShell(i, s);
      assert StackTied(shells.items[i], stacks[i]);
      ghost var st := stacks[i];
      ghost var j := FirstMatch(st.items, PathKey(path));
      ActionMatches(shells.items[i], shells.nodes[i], st, path);
      s.actions.Distinct(j);
      var rc := DeleteTied(s, path, i);
      StackDelete(old(Lay()), i, j);
      ViewWithStack(old(Lay()), i, Stack(RemoveAt(st.nodes, j), RemoveAt(st.items, j)));
      PathsRemove(st.items, j);
    }

    /** Empties the stack of shell `i`. */
    method ClearActions(s: ShellCell, ghost i: nat)
      requires Valid() && IsAt(i, s)
      modifies Repr, heap
      ensures Valid() && Repr == old(Repr)
      ensures i < |old(View()).shells| && View() == SetStack(old(View()), i, [])
    {
      OneShell(i, s);
      ClearTied(s, i);
      StackClear(old(Lay()), i);
      assert Paths([]) == [];
      ViewWithStack(old(Lay()), i, Stack([], []));
    }

    // The shell list

    /** `list_get_node` on the shells, and the shell in the node. */
    method FindShell(pid: int) returns (s: ShellCell?, ghost i: nat)
      requires Valid()
      ensures i == ShellIndex(View().shells, pid)
      ensures if i == |View().shells| then s == null
        else s != null && IsAt(i, s) && View().shells[i].addr == s.addr
    {
      PidMatches(Lay(), pid);
      i := ShellIndex(View().shells, pid);
      var n := shells.GetNode(PidKey(pid));
      if n == null {
        return null, i;
      }
      assert shells.Link(shells.nodes, shells.items, i);
      assert StackTied(shells.items[i], stacks[i]);
      s := n.data.shell;
    }

    /** No node of the shell list is in the tag list or in a stack. */
    lemma ShellNodesApart()
      requires Owned()
      ensures forall n | n in shells.nodes :: n !in tags.nodes && n.owner == shells
      ensures forall k, n | 0 <= k < |stacks| && n in stacks[k].nodes :: n !in shells.nodes && n !in tags.nodes
    {
      shells.Owners();
      tags.Owners();
      forall k, n | 0 <= k < |stacks| && n in stacks[k].nodes ensures n !in shells.nodes && n !in tags.nodes {
        assert ProperStack(shells.items[k], shells.nodes[k], stacks[k]);
      }
    }

    /** `stacks` mirrors the lists inside these shells. */
    ghost predicate MirrorTied(items: seq<Data>)
      reads this, Repr
    {
      && |items| == |stacks|
      && (forall k | 0 <= k < |stacks| :: LiesIn(items[k], stacks[k], Repr))
      && (forall k | 0 <= k < |stacks| :: StackTied(items[k], stacks[k]))
    }

    /** Appending to the shell list leaves the tags and the stacks alone. */
    method AppendToShells(n: Node)
      requires Owned() && n !in Repr && n.owner == shells && n.next == null
      modifies shells, shells.nodes
      ensures tags.Chain() && TagsTied() && tags.nodes == old(tags.nodes) && tags.items == old(tags.items)
      ensures MirrorTied(old(shells.items))
      ensures shells.Chain() && shells.nodes == old(shells.nodes) + [n] && shells.items == old(shells.items) + [n.data]
      ensures n.data == old(n.data)
    {
      hide LiveOf;
      ShellNodesApart();
      shells.AppendNode(n);
      forall k | 0 <= k < |stacks| ensures StackTied(old(shells.items)[k], stacks[k]) {
        assert old(StackTied(shells.items[k], stacks[k]));
      }
    }

    method AppendTied(n: Node, s: ShellCell)
      requires Owned() && n !in Repr && s.actions !in Repr
      requires n.owner == shells && n.next == null && n.data == ShellData(s)
      requires s.actions.Chain() && s.actions.nodes == []
      modifies Repr
      ensures Tied() && Repr == old(Repr) + {n, s.actions}
      ensures Lay() == WithShell(old(Lay()), n, s)
      ensures file == old(file) && paths == old(paths)
    {
      hide Proper, LiveOf;
      AppendToShells(n);
      ghost var m := |stacks|;
      ghost var before := stacks;
      stacks := stacks + [Stack([], [])];
      Repr := Repr + {n, s.actions};
      assert StackTied(shells.items[m], stacks[m]) && LiesIn(shells.items[m], stacks[m], Repr);
      forall k | 0 <= k < |stacks|
        ensures StackTied(shells.items[k], stacks[k]) && LiesIn(shells.items[k], stacks[k], Repr)
      {
        if k < m {
          assert StackTied(old(shells.items)[k], before[k]) && LiesIn(old(shells.items)[k], before[k], old(Repr));
        }
      }
    }

    /** A new shell at the end of the list. */
    method AppendShell(pid: int) returns (s: ShellCell)
      requires Valid()
      modifies Repr, heap
      ensures Valid() && fresh(Repr - old(Repr))
      ensures s.addr == DaemonAddress(env.cacheDir, pid)
      ensures View() == old(View()).(shells := old(View()).shells + [Shell(pid, s.addr, [])])
    {
      var n: Node;
      n, s := ShellNodeCreate(pid, DaemonAddress(env.cacheDir, pid), shells, heap);
      hide Proper, LiveOf, StackTied, LiesIn;
      AppendTied(n, s);
      ShellAppend(old(Lay()), n, s);
      ViewAppendShell(old(Lay()), s);
    }

    /** Deleting shell `i` leaves the tags and these other stacks alone. */
    method DeleteFromShells(pid: int, ghost i: nat, ghost s: ShellCell, ghost ds: seq<Data>, ghost sts: seq<Stack>)
        returns (rc: int)
      requires OuterTied() && shells.Held(heap.live)
      requires i == FirstMatch(shells.items, PidKey(pid)) < |shells.items| && shells.items[i] == ShellData(s)
      requires s.actions.kind == ActionList && s.actions.Chain() && s.actions.Held(heap.live)
      requires |ds| == |sts| && forall k | 0 <= k < |ds| :: StackTied(ds[k], sts[k]) && NotOf(s.actions, ds[k], sts[k])
      modifies shells, shells.nodes, s.actions, s.actions.nodes, heap
      ensures tags.Chain() && TagsTied() && tags.nodes == old(tags.nodes) && tags.items == old(tags.items)
      ensures forall k | 0 <= k < |ds| :: StackTied(ds[k], sts[k])
      ensures shells.Chain() && rc == 0
      ensures shells.nodes == RemoveAt(old(shells.nodes), i) && shells.items == RemoveAt(old(shells.items), i)
      ensures heap.live == old(heap.live)
        .Minus(Live(NodeSet(old(s.actions.nodes)), ActionsIn(old(s.actions.items)), {s}))
        .Minus(JustNode(old(shells.nodes)[i]))
    {
      shells.Owners();
      tags.Owners();
      s.actions.Owners();
      rc := DeletePid(shells, pid, i, s, heap);
      forall k | 0 <= k < |ds| ensures StackTied(ds[k], sts[k]) {
        assert old(StackTied(ds[k], sts[k])) && NotOf(s.actions, ds[k], sts[k]);
      }
    }

    lemma StacksWithout(i: nat, s: ShellCell)
      requires IsShell(i, s)
      ensures var ds, sts := RemoveAt(shells.items, i), RemoveAt(stacks, i);
        |ds| == |sts| && forall k | 0 <= k < |ds| ::
          StackTied(ds[k], sts[k]) && NotOf(s.actions, ds[k], sts[k]) && LiesIn(ds[k], sts[k], Repr)
    {
      RemoveAtIndex(shells.items, i);
      RemoveAtIndex(stacks, i);
      var ds, sts := RemoveAt(shells.items, i), RemoveAt(stacks, i);
      forall k | 0 <= k < |ds|
        ensures StackTied(ds[k], sts[k]) && NotOf(s.actions, ds[k], sts[k]) && LiesIn(ds[k], sts[k], Repr)
      {
        var m := if k < i then k else k + 1;
        assert ds[k] == shells.items[m] && sts[k] == stacks[m];
        assert StackTied(shells.items[m], stacks[m]) && NotOf(s.actions, shells.items[m], stacks[m]);
        assert LiesIn(shells.items[m], stacks[m], Repr);
      }
    }

    method DeleteShellTied(pid: int, ghost i: nat, ghost s: ShellCell) returns (rc: int)
      requires IsShell(i, s) && i == FirstMatch(shells.items, PidKey(pid)) && shells.Held(heap.live)
      modifies Repr, heap
      ensures Tied() && Repr == old(Repr) && rc == 0
      ensures shells.nodes == RemoveAt(old(shells.nodes), i) && shells.items == RemoveAt(old(shells.items), i)
      ensures stacks == RemoveAt(old(stacks), i)
      ensures tags.nodes == old(tags.nodes) && tags.items == old(tags.items)
      ensures file == old(file) && paths == old(paths)
      ensures heap.live == old(heap.live)
        .Minus(Live(NodeSet(old(s.actions.nodes)), ActionsIn(old(s.actions.items)), {s}))
        .Minus(JustNode(old(shells.nodes)[i]))
    {
      ghost var ds, sts := RemoveAt(shells.items, i), RemoveAt(stacks, i);
      hide Proper, LiveOf;
      RemoveAtIndex(shells.nodes, i);
      StacksWithout(i, s);
      assert StackTied(shells.items[i], stacks[i]);
      rc := DeleteFromShells(pid, i, s, ds, sts);
      stacks := sts;
      assert OuterTied();
      assert StacksTied();
    }

    /** Deletes the first shell with that pid and everything it owns. */
    method DeleteShell(pid: int, ghost i: nat, ghost s: ShellCell) returns (rc: int)
      requires Valid() && IsAt(i, s) && i == ShellIndex(View().shells, pid)
      modifies Repr, heap
      ensures Valid() && Repr == old(Repr) && rc == 0
      ensures i < |old(View()).shells| && View() == old(View()).(shells := RemoveAt(old(View()).shells, i))
    {
      PidMatches(Lay(), pid);
      OneShell(i, s);
      ProperLive(Lay());
      assert StackTied(shells.items[i], stacks[i]);
      rc := DeleteShellTied(pid, i, s);
      assert Lay() == WithoutShell(old(Lay()), i);
      ShellDelete(old(Lay()), i);
      ViewWithoutShell(old(Lay()), i);
    }

    // The tag list

    /** The node at position `i` of the tag list is `n`. */
    ghost predicate IsTag(i: nat, n: Node?)
      reads tags
    {
      i < |tags.nodes| && n == tags.nodes[i]
    }

    /** `list_get_node` on the tags. */
    method FindTag(name: string) returns (n: Node?, ghost i: nat)
      requires Valid()
      ensures i == TagIndex(View().tags, name)
      ensures if i == |View().tags| then n == null else IsTag(i, n)
    {
      NameMatches(Lay(), paths, name);
      i := TagIndex(View().tags, name);
      n := tags.GetNode(NameKey(name));
      if n != null {
        assert tags.Link(tags.nodes, tags.items, i);
      }
    }

    lemma CellsDistinct(i: nat)
      requires Owned() && i < |tags.items|
      ensures forall k | 0 <= k < |tags.items| && k != i :: tags.items[k].cell != tags.items[i].cell
    {
      tags.Distinct(i);
    }

    /** The other tags, the shells and the stacks stay as they are. */
    method SetCellPath(n: Node, path: string, ghost i: nat)
      requires Owned() && IsTag(i, n) && i < |tags.items|
      modifies if tags.items[i].TagData? then {tags.items[i].cell} else {}
      ensures shells.Chain() && tags.Chain() && StacksTied()
      ensures forall k | 0 <= k < |paths| :: TagTied(tags.items[k], if k == i then path else paths[k])
    {
      CellsDistinct(i);
      hide Proper, LiveOf;
      assert tags.Link(tags.nodes, tags.items, i);
      n.data.cell.path := path;
      forall k | 0 <= k < |paths| && k != i ensures TagTied(tags.items[k], paths[k]) {
        assert old(TagTied(tags.items[k], paths[k]));
      }
    }

    method SetPathTied(n: Node, path: string, ghost i: nat)
      requires Owned() && IsTag(i, n) && i < |paths|
      modifies Repr
      ensures Tied() && Repr == old(Repr) && Lay() == old(Lay())
      ensures paths == old(paths)[i := path] && file == old(file)
    {
      hide Proper, LiveOf;
      SetCellPath(n, path, i);
      paths := paths[i := path];
      assert OuterTied();
      assert StacksTied();
    }

    /** Replaces the path of tag `i` in place. */
    method SetPath(n: Node, path: string, ghost i: nat)
      requires Valid() && IsTag(i, n)
      modifies Repr
      ensures Valid() && Repr == old(Repr)
      ensures i < |old(View()).tags|
      ensures View() == old(View()).(tags := old(View()).tags[i := Tag(old(View()).tags[i].name, path)])
    {
      hide Proper, LiveOf, StackTied, LiesIn, TagTied;
      SetPathTied(n, path, i);
    }

    lemma StacksNotTags()
      requires Owned()
      ensures forall k | 0 <= k < |stacks| ::
        StackTied(shells.items[k], stacks[k]) && NotOf(tags, shells.items[k], stacks[k])
    {
      forall k | 0 <= k < |stacks| ensures NotOf(tags, shells.items[k], stacks[k]) {
        assert ProperStack(shells.items[k], shells.nodes[k], stacks[k]);
      }
    }

    /** Appending to the tag list leaves the shells and the stacks alone. */
    method AppendToTags(n: Node, ghost ds: seq<Data>)
      requires OuterTied() && n !in Repr && n.owner == tags && n.next == null
      requires |ds| == |stacks|
      requires forall k | 0 <= k < |stacks| :: StackTied(ds[k], stacks[k]) && NotOf(tags, ds[k], stacks[k])
      modifies tags, tags.nodes
      ensures shells.Chain() && shells.nodes == old(shells.nodes) && shells.items == old(shells.items)
      ensures forall k | 0 <= k < |stacks| :: StackTied(ds[k], stacks[k])
      ensures forall k | 0 <= k < |paths| :: TagTied(old(tags.items)[k], paths[k])
      ensures tags.Chain() && tags.nodes == old(tags.nodes) + [n] && tags.items == old(tags.items) + [old(n.data)]
    {
      shells.Owners();
      tags.Owners();
      tags.AppendNode(n);
      forall k | 0 <= k < |stacks| ensures StackTied(ds[k], stacks[k]) {
        assert old(StackTied(ds[k], stacks[k])) && NotOf(tags, ds[k], stacks[k]);
      }
    }

    method AppendTagTied(n: Node, ghost t: TagCell)
      requires Owned() && n !in Repr && t !in Repr && n.owner == tags && n.next == null && n.data == TagData(t)
      modifies Repr
      ensures Tied() && Repr == old(Repr) + {n, t}
      ensures tags.nodes == old(tags.nodes) + [n] && tags.items == old(tags.items) + [TagData(t)]
      ensures shells.nodes == old(shells.nodes) && shells.items == old(shells.items) && stacks == old(stacks)
      ensures paths == old(paths) + [old(t.path)] && file == old(file)
    {
      hide Proper, LiveOf;
      StacksNotTags();
      AppendToTags(n, shells.items);
      ghost var m, before := |paths|, paths;
      paths := paths + [t.path];
      Repr := Repr + {n, t};
      forall k | 0 <= k < |paths| ensures TagTied(tags.items[k], paths[k]) && tags.items[k].cell in Repr {
        if k < m { assert TagTied(old(tags.items)[k], before[k]); }
      }
    }

    /** A new tag at the end of the list. */
    method AppendTag(name: string, path: string)
      requires Valid()
      modifies Repr, heap
      ensures Valid() && fresh(Repr - old(Repr))
      ensures View() == old(View()).(tags := old(View()).tags + [Tag(name, path)])
    {
      var n: Node;
      ghost var t;
      n, t := TagNodeCreate(name, path, tags, heap);
      AppendTagTied(n, t);
      TagAppend(old(Lay()), n, t);
      ViewAppendTag(old(tags.items), old(paths), t, path);
    }

    /** Deleting a tag leaves the shells, the stacks and these other tags alone. */
    method DeleteFromTags(name: string, ghost i: nat, ghost ds: seq<Data>, ghost ts: seq<Data>, ghost ps: seq<string>)
      requires OuterTied() && tags.Held(heap.live) && i == FirstMatch(tags.items, NameKey(name)) < |tags.items|
      requires |ds| == |stacks|
      requires forall k | 0 <= k < |stacks| :: StackTied(ds[k], stacks[k]) && NotOf(tags, ds[k], stacks[k])
      requires |ts| == |ps| && forall k | 0 <= k < |ts| :: TagTied(ts[k], ps[k])
      modifies tags, tags.nodes, heap
      ensures shells.Chain() && shells.nodes == old(shells.nodes) && shells.items == old(shells.items)
      ensures forall k | 0 <= k < |stacks| :: StackTied(ds[k], stacks[k])
      ensures forall k | 0 <= k < |ts| :: TagTied(ts[k], ps[k])
      ensures tags.Chain() && tags.nodes == RemoveAt(old(tags.nodes), i) && tags.items == RemoveAt(old(tags.items), i)
      ensures heap.live == old(heap.live).Minus(JustNode(old(tags.nodes)[i]))
    {
      shells.Owners();
      tags.Owners();
      var rc := DeleteName(tags, name, i, heap);
      forall k | 0 <= k < |stacks| ensures StackTied(ds[k], stacks[k]) {
        assert old(StackTied(ds[k], stacks[k])) && NotOf(tags, ds[k], stacks[k]);
      }
    }

    lemma TagsWithout(i: nat)
      requires TagsTied() && i < |tags.items|
      ensures var ts, ps := RemoveAt(tags.items, i), RemoveAt(paths, i);
        |ts| == |ps| && forall k | 0 <= k < |ts| :: TagTied(ts[k], ps[k]) && ts[k].cell in Repr
    {
      RemoveAtIndex(tags.items, i);
      RemoveAtIndex(paths, i);
      forall k | 0 <= k < |paths| - 1
        ensures TagTied(RemoveAt(tags.items, i)[k], RemoveAt(paths, i)[k]) && RemoveAt(tags.items, i)[k].cell in Repr
      {
        assert TagTied(tags.items[if k < i then k else k + 1], paths[if k < i then k else k + 1]);
      }
    }

    method RemoveTagTied(name: string, ghost i: nat)
      requires Owned() && tags.Held(heap.live) && i == FirstMatch(tags.items, NameKey(name)) < |tags.items|
      modifies Repr, heap
      ensures Tied() && Repr == old(Repr)
      ensures tags.nodes == RemoveAt(old(tags.nodes), i) && tags.items == RemoveAt(old(tags.items), i)
      ensures shells.nodes == old(shells.nodes) && shells.items == old(shells.items) && stacks == old(stacks)
      ensures paths == RemoveAt(old(paths), i) && file == old(file)
      ensures heap.live == old(heap.live).Minus(JustNode(old(tags.nodes)[i]))
    {
      hide Proper, LiveOf;
      StacksNotTags();
      TagsWithout(i);
      RemoveAtIndex(tags.nodes, i);
      ghost var ts, ps := RemoveAt(tags.items, i), RemoveAt(paths, i);
      DeleteFromTags(name, i, shells.items, ts, ps);
      paths := ps;
      assert OuterTied();
      assert StacksTied();
    }

    /** Deletes the first tag of that name. */
    method RemoveTag(name: string, ghost i: nat)
      requires Valid() && i == TagIndex(View().tags, name) < |View().tags|
      modifies Repr, heap
      ensures Valid() && Repr == old(Repr)
      ensures View() == old(View()).(tags := RemoveAt(old(View()).tags, i))
    {
      NameMatches(Lay(), paths, name);
      ProperLive(Lay());
      tags.Distinct(i);
      RemoveTagTied(name, i);
      TagDelete(old(Lay()), i);
      ViewWithoutTag(old(tags.items), old(paths), i);
    }

    lemma TagHead()
      requires Valid()
      ensures if View().tags == [] then tags.head == null else IsTag(0, tags.head)
    {
    }

    /** A node of the tag list holds the tag at its position, and its link leads to the next. */
    lemma TagNodeAt(k: nat, n: Node)
      requires Valid() && IsTag(k, n)
      ensures k < |View().tags| && n.data.TagData?
      ensures n.data.cell.name == View().tags[k].name && n.data.cell.path == View().tags[k].path
      ensures if k + 1 == |View().tags| then n.next == null else IsTag(k + 1, n.next)
    {
      assert tags.Link(tags.nodes, tags.items, k) && TagTied(tags.items[k], paths[k]);
    }

    /** Replaces the content of the tag file. */
    method SetFile(content: string)
      requires Valid()
      modifies this`file
      ensures Valid() && View() == old(View()).(file := content)
    {
      hide Proper, LiveOf;
      file := content;
    }

    /** The node at position `k` of the stack of shell `i` is `n`. */
    ghost predicate IsAction(i: nat, s: ShellCell, k: nat, n: Node?)
      reads this, shells, s.actions
    {
      IsAt(i, s) && k < |s.actions.nodes| && n == s.actions.nodes[k]
    }

    lemma ActionHead(i: nat, s: ShellCell)
      requires Valid() && IsAt(i, s)
      ensures i < |View().shells|
      ensures if View().shells[i].actions == [] then s.actions.head == null else IsAction(i, s, 0, s.actions.head)
    {
      assert StackTied(shells.items[i], stacks[i]) && ProperStack(shells.items[i], shells.nodes[i], stacks[i]);
    }

    /** A node of a shell's stack holds the action at its position, and its link leads to the next. */
    lemma ActionNodeAt(i: nat, s: ShellCell, k: nat, n: Node)
      requires Valid() && IsAction(i, s, k, n)
      ensures i < |View().shells| && k < |View().shells[i].actions|
      ensures n.data.ActionData? && n.data.action.path == View().shells[i].actions[k]
      ensures if k + 1 == |View().shells[i].actions| then n.next == null else IsAction(i, s, k + 1, n.next)
    {
      assert StackTied(shells.items[i], stacks[i]) && ProperStack(shells.items[i], shells.nodes[i], stacks[i]);
      assert s.actions.Link(stacks[i].nodes, stacks[i].items, k);
    }
  }

  /** A pid without a shell can only register. */
  lemma NoShellStep(env: Env, s: State, c: Command, pid: int, args: Option<string>)
    requires ShellIndex(s.shells, pid) == |s.shells| && c != Register
    ensures Handle(env, s, c, pid, args) == Outcome(s, None) && ReplyFits(s, c, pid, args)
  {
  }

  /** What a stack command comes to. */
  lemma StackStep(env: Env, s: State, c: Command, pid: int, args: Option<string>, i: nat)
    requires IsStackCommand(c) && i == ShellIndex(s.shells, pid) && i < |s.shells|
    ensures var r := OnStack(env.valid, s.shells[i].actions, c, args);
      && Handle(env, s, c, pid, args) == Outcome(SetStack(s, i, r.actions), ReplyTo(s.shells[i].addr, r.text))
      && (r.actions == s.shells[i].actions ==> SetStack(s, i, r.actions) == s)
  {
  }

  /** What `get` and `delete` come to, given the name in their arguments. */
  lemma NameStep(env: Env, s: State, pid: int, args: string, i: nat, name: Option<string>)
    requires i == ShellIndex(s.shells, pid) && i < |s.shells|
    requires name == if Words(args) == [] then None else Some(Trim(Words(args)[0]))
    ensures Handle(env, s, Get, pid, Some(args)) == match name
      case None => Outcome(s, None)
      case Some(n) =>
        var j := TagIndex(s.tags, n);
        Outcome(s, Some(Reply(s.shells[i].addr, if j == |s.tags| then "BAD\n" else s.tags[j].path + "\n")))
    ensures Handle(env, s, Delete, pid, Some(args)) == match name
      case None => Outcome(s, None)
      case Some(n) =>
        var j := TagIndex(s.tags, n);
        if j == |s.tags| then Outcome(s, Some(Reply(s.shells[i].addr, "BAD\n")))
        else
          var tags := RemoveAt(s.tags, j);
          Outcome(s.(tags := tags, file := Write(tags)), Some(Reply(s.shells[i].addr, "OK\n")))
  {
    hide Words, Trim, Write, RemoveAt, OnStack;
  }

  /** What `add` comes to, given the first two words of its arguments. */
  lemma AddStep(env: Env, s: State, pid: int, args: string, i: nat, words: seq<string>)
    requires i == ShellIndex(s.shells, pid) && i < |s.shells| && words == Words(args)
    ensures Handle(env, s, Add, pid, Some(args)) ==
      if |words| != 2 || !env.valid(Trim(words[1])) then Outcome(s, Some(Reply(s.shells[i].addr, "BAD\n")))
      else
        var tags := PutTag(s.tags, Tag(Trim(words[0]), Trim(words[1])));
        Outcome(s.(tags := tags, file := Write(tags)), Some(Reply(s.shells[i].addr, "OK\n")))
  {
    hide Words, Trim, Write, PutTag, OnStack;
  }

  /** What a tag command comes to. */
  lemma TagStep(env: Env, s: State, c: Command, pid: int, args: Option<string>, i: nat)
    requires IsTagCommand(c) && i == ShellIndex(s.shells, pid) && i < |s.shells|
    requires NeedsArgs(c) ==> args.Some?
    ensures var r := OnTags(env.valid, s.tags, c, args);
      && Handle(env, s, c, pid, args) == Outcome(
        s.(tags := r.tags, file := if r.saved then Write(r.tags) else s.file), ReplyTo(s.shells[i].addr, r.text))
      && (r.tags == s.tags && !r.saved ==> s.(tags := r.tags, file := s.file) == s)
  {
    hide OnTags, OnStack, Write;
  }
}
