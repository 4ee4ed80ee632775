/** What the leaders and the stack machine of the control-flow graph do with each kind of
    command, and the graph of a small script. */
module ShellLaws {
  import opened Digraph
  import opened ShellCfg
  import opened ShellNesting

  /** Behind a general command a block starts at what opens or closes a construct; and behind
      whatever transfers control one always starts. */
  lemma LeaderTable(commands: seq<Command>, i: nat)
    requires 0 < i < |commands|
    ensures commands[i - 1].kind in {If, Elif, Else, For, While, Until, Case, Break, Continue} ==> IsLeader(commands, i)
    ensures commands[i - 1].kind in {General, Fi, Done, Esac} ==> (IsLeader(commands, i) <==>
      commands[i].kind in {If, Elif, Else, For, While, Until, Case, Fi, Done, Esac})
    ensures IsLeader(commands, 0)
  {
  }

  /** What opens a construct, and control passes on to the next block, except into a case. */
  lemma OpenerTable(stack: seq<Open>, i: nat, n: nat, e: (nat, nat), k: Kind)
    requires i + 1 < n
    ensures k in {If, Elif, For, While, Until} ==> (EdgeAt(stack, i, k, n, e) <==> e == (i, i + 1))
    ensures !EdgeAt(stack, i, Case, n, e) && !EdgeAt(stack, i, Break, n, e)
    ensures k in {If, Elif} ==> Push(stack, i, k) == stack + [Open(i, IfTag)]
    ensures k in {For, While, Until} ==> Push(stack, i, k) == stack + [Open(i, LoopTag)]
    ensures Push(stack, i, Case) == stack + [Open(i, CaseTag)]
    ensures k in {Break, Continue, General} ==> Push(stack, i, k) == stack
  {
  }

  /** ELSE, DONE and ESAC take one entry from the stack, with an edge from its block; ELSE puts
      its own there. */
  lemma CloserTable(stack: seq<Open>, o: Open, i: nat, n: nat, e: (nat, nat), k: Kind)
    requires i + 1 < n && k in {Else, Done, Esac}
    ensures EdgeAt(stack + [o], i, k, n, e) <==> e == (o.block, i) || e == (i, i + 1)
    ensures EdgeAt([], i, k, n, e) <==> e == (i, i + 1)
    ensures Push(stack + [o], i, k) == if k == Else then stack + [Open(i, ElseTag)] else stack
    ensures Push([], i, k) == if k == Else then [Open(i, ElseTag)] else []
  {
    assert (stack + [o])[..|stack|] == stack;
  }

  /** FI takes all branches from the top of the stack, with an edge from each. */
  lemma FiTable(outer: seq<Open>, branches: seq<Open>, i: nat, n: nat, e: (nat, nat))
    requires i + 1 < n && forall o :: o in branches ==> o.tag == IfTag || o.tag == ElseTag
    requires outer != [] ==> outer[|outer| - 1].tag in {LoopTag, CaseTag}
    ensures EdgeAt(outer + branches, i, Fi, n, e) <==>
      e == (i, i + 1) || exists o :: o in branches && e == (o.block, i)
    ensures Push(outer + branches, i, Fi) == outer
  {
    hide DropBranches, InLoop, InnermostLoop;
    var stack := outer + branches;
    AllDropped(outer, branches);
    assert forall k :: |outer| <= k < |stack| ==> stack[k] == branches[k - |outer|];
    if o :| o in branches && e == (o.block, i) {
      var k :| 0 <= k < |branches| && branches[k] == o;
      assert stack[|outer| + k] == o;
    }
  }

  lemma {:induction false} AllDropped(outer: seq<Open>, branches: seq<Open>)
    requires forall o :: o in branches ==> o.tag == IfTag || o.tag == ElseTag
    requires outer != [] ==> outer[|outer| - 1].tag in {LoopTag, CaseTag}
    ensures DropBranches(outer + branches) == outer
    decreases |branches|
  {
    if branches == [] {
      assert outer + branches == outer;
    } else {
      var n := |branches| - 1;
      AllDropped(outer, branches[..n]);
      assert branches[n] in branches;
      assert (outer + branches)[..|outer| + n] == outer + branches[..n];
    }
  }

  /** CONTINUE leads to the innermost open loop, whatever is open inside it. */
  lemma ContinueTable(outer: seq<Open>, b: nat, inner: seq<Open>, i: nat, n: nat, e: (nat, nat))
    requires forall o :: o in inner ==> o.tag != LoopTag
    ensures EdgeAt(outer + [Open(b, LoopTag)] + inner, i, Continue, n, e) <==> e == (i, b)
    ensures !EdgeAt(inner, i, Continue, n, e)
  {
    var stack := outer + [Open(b, LoopTag)] + inner;
    assert stack[|outer|] == Open(b, LoopTag);
    assert forall k :: |outer| < k < |stack| ==> stack[k] == inner[k - |outer| - 1] && stack[k] in inner;
    assert forall k :: 0 <= k < |inner| ==> inner[k] in inner;
  }

  /** A general command passes control on only where nothing is open; the last block never. */
  lemma GeneralTable(stack: seq<Open>, i: nat, n: nat, e: (nat, nat))
    ensures i + 1 < n ==> (EdgeAt([], i, General, n, e) <==> e == (i, i + 1))
    ensures stack != [] ==> !EdgeAt(stack, i, General, n, e)
    ensures forall k :: i + 1 == n && k !in {Else, Fi, Done, Esac, Continue} ==> !EdgeAt(stack, i, k, n, e)
  {
  }

  /** x; if a; b; else; c; fi; d: the branch and the else both lead to FI. */
  method IfElseGraph() returns (r: Result)
    ensures r.Cfg?
    ensures forall e :: e in r.edges <==> e in {(0, 1), (1, 2), (1, 3), (3, 4), (3, 5), (5, 6)}
  {
    hide EdgeAt, Push, StackAt;
    var kinds := [General, If, General, Else, General, Fi, General];
    IfElseStacks(kinds);
    r := BuildCfg(kinds);
    forall e ensures AddedBefore(kinds, 7, e) <==> e in {(0, 1), (1, 2), (1, 3), (3, 4), (3, 5), (5, 6)} {
      GeneralTable([], 0, 7, e);
      OpenerTable([], 1, 7, e, If);
      GeneralTable([Open(1, IfTag)], 2, 7, e);
      CloserTable([], Open(1, IfTag), 3, 7, e, Else);
      GeneralTable([Open(3, ElseTag)], 4, 7, e);
      FiTable([], [Open(3, ElseTag)], 5, 7, e);
      GeneralTable([], 6, 7, e);
      SevenSteps(kinds, e);
    }
  }

  lemma IfElseStacks(kinds: seq<Kind>)
    requires kinds == [General, If, General, Else, General, Fi, General]
    ensures StackAt(kinds, 0) == StackAt(kinds, 1) == []
    ensures StackAt(kinds, 2) == StackAt(kinds, 3) == [] + [Open(1, IfTag)] == [Open(1, IfTag)]
    ensures StackAt(kinds, 4) == StackAt(kinds, 5) == [] + [Open(3, ElseTag)] == [Open(3, ElseTag)]
    ensures StackAt(kinds, 6) == [] && StackAt(kinds, 7) == []
  {
    hide StackAt, DropBranches;
    NothingLost(kinds, 0);
    NothingOpen(kinds, 1);
    StackStep(kinds, 0);
    StackStep(kinds, 1);
    StackStep(kinds, 2);
    CloserTable([], Open(1, IfTag), 3, 7, (0, 0), Else);
    StackStep(kinds, 3);
    StackStep(kinds, 4);
    AllDropped([], [Open(3, ElseTag)]);
    StackStep(kinds, 5);
    StackStep(kinds, 6);
  }

  lemma SevenSteps(kinds: seq<Kind>, e: (nat, nat))
    requires |kinds| == 7
    ensures AddedBefore(kinds, 7, e) <==>
      || EdgeAt(StackAt(kinds, 0), 0, kinds[0], 7, e) || EdgeAt(StackAt(kinds, 1), 1, kinds[1], 7, e)
      || EdgeAt(StackAt(kinds, 2), 2, kinds[2], 7, e) || EdgeAt(StackAt(kinds, 3), 3, kinds[3], 7, e)
      || EdgeAt(StackAt(kinds, 4), 4, kinds[4], 7, e) || EdgeAt(StackAt(kinds, 5), 5, kinds[5], 7, e)
      || EdgeAt(StackAt(kinds, 6), 6, kinds[6], 7, e)
  {
    hide EdgeAt, StackAt;
  }
}
