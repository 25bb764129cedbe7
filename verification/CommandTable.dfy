/**
  The command table: every string reaches at most one handler.
 */
module CommandTable {
  import opened CString
  import opened Daemon

  lemma {:induction false} DispatchHit(cmd: string, i: nat) returns (k: nat)
    requires i <= |COMMAND_TABLE| && DispatchFrom(cmd, i).Some?
    ensures i <= k < |COMMAND_TABLE| && COMMAND_TABLE[k].name <= cmd
    ensures COMMAND_TABLE[k].command == DispatchFrom(cmd, i).value
    decreases |COMMAND_TABLE| - i
  {
    if COMMAND_TABLE[i].name <= cmd {
      k := i;
    } else {
      k := DispatchHit(cmd, i + 1);
    }
  }

  /** A dispatched string is at least as long as the name it starts with. */
  lemma CommandName(cmd: string)
    requires Dispatch(cmd).Some?
    ensures Dispatch(cmd).value == Push ==> "push" <= cmd
    ensures Dispatch(cmd).value == Add ==> "add" <= cmd
  {
    var k := DispatchHit(cmd, 0);
  }

  /** No two names in the table start the same string. */
  lemma NamesPrefixFree(cmd: string, i: nat, j: nat)
    requires i < j < |COMMAND_TABLE|
    ensures !(COMMAND_TABLE[i].name <= cmd && COMMAND_TABLE[j].name <= cmd)
  {
    var a, b := COMMAND_TABLE[i].name, COMMAND_TABLE[j].name;
    assert |a| >= 3 && |b| >= 3;
    assert a[0] != b[0] || a[1] != b[1] || a[2] != b[2];
  }

  lemma {:induction false} DispatchReaches(cmd: string, k: nat, i: nat)
    requires i <= k < |COMMAND_TABLE| && COMMAND_TABLE[k].name <= cmd
    ensures DispatchFrom(cmd, i).Some?
    decreases k - i
  {
    if i < k { DispatchReaches(cmd, k, i + 1); }
  }

  lemma NamesDetermine(cmd: string, i: nat, j: nat)
    requires i < |COMMAND_TABLE| && j < |COMMAND_TABLE|
    requires COMMAND_TABLE[i].name <= cmd && COMMAND_TABLE[j].name <= cmd
    ensures i == j
  {
    if i < j { NamesPrefixFree(cmd, i, j); }
    if j < i { NamesPrefixFree(cmd, j, i); }
  }

  lemma CommandsDiffer(i: nat, j: nat)
    requires i < |COMMAND_TABLE| && j < |COMMAND_TABLE|
    requires COMMAND_TABLE[i].command == COMMAND_TABLE[j].command
    ensures i == j
  {
  }

  /** A string reaches a handler exactly when it starts with that handler's name. */
  lemma DispatchIff(cmd: string, k: nat)
    requires k < |COMMAND_TABLE|
    ensures Dispatch(cmd) == Some(COMMAND_TABLE[k].command) <==> COMMAND_TABLE[k].name <= cmd
  {
    hide DispatchFrom;
    if COMMAND_TABLE[k].name <= cmd {
      DispatchReaches(cmd, k, 0);
      var h := DispatchHit(cmd, 0);
      NamesDetermine(cmd, h, k);
    }
    if Dispatch(cmd) == Some(COMMAND_TABLE[k].command) {
      var h := DispatchHit(cmd, 0);
      CommandsDiffer(h, k);
    }
  }

  /** The names of the eleven commands, and what each of them stands for. */
  lemma DispatchSpecification(cmd: string)
    ensures Dispatch(cmd) == Some(Register) <==> "register" <= cmd
    ensures Dispatch(cmd) == Some(Unregister) <==> "unregister" <= cmd
    ensures Dispatch(cmd) == Some(Add) <==> "add" <= cmd
    ensures Dispatch(cmd) == Some(Delete) <==> "delete" <= cmd
    ensures Dispatch(cmd) == Some(Show) <==> "show" <= cmd
    ensures Dispatch(cmd) == Some(Get) <==> "get" <= cmd
    ensures Dispatch(cmd) == Some(Push) <==> "push" <= cmd
    ensures Dispatch(cmd) == Some(Pop) <==> "pop" <= cmd
    ensures Dispatch(cmd) == Some(Actions) <==> "actions" <= cmd
    ensures Dispatch(cmd) == Some(List) <==> "list" <= cmd
    ensures Dispatch(cmd) == Some(Reset) <==> "reset" <= cmd
  {
    hide DispatchFrom, Dispatch;
    DispatchIff(cmd, 0);
    DispatchIff(cmd, 1);
    DispatchIff(cmd, 2);
    DispatchIff(cmd, 3);
    DispatchIff(cmd, 4);
    DispatchIff(cmd, 5);
    DispatchIff(cmd, 6);
    DispatchIff(cmd, 7);
    DispatchIff(cmd, 8);
    DispatchIff(cmd, 9);
    DispatchIff(cmd, 10);
  }

  const NAMES: seq<string> :=
    ["register", "unregister", "add", "delete", "show", "get", "push", "pop", "actions", "list", "reset"]

  /** Any other string reaches no handler. */
  lemma UnknownIff(cmd: string)
    ensures Dispatch(cmd).None? <==> forall k | 0 <= k < |NAMES| :: !(NAMES[k] <= cmd)
  {
    assert |NAMES| == |COMMAND_TABLE| && forall k | 0 <= k < |NAMES| :: NAMES[k] == COMMAND_TABLE[k].name;
    hide DispatchFrom;
    if Dispatch(cmd).Some? {
      var k := DispatchHit(cmd, 0);
      assert NAMES[k] <= cmd;
    }
    if k :| 0 <= k < |NAMES| && NAMES[k] <= cmd {
      DispatchReaches(cmd, k, 0);
    }
  }
}
