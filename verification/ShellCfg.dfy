/** Basic blocks and control-flow graph of a shell script (ShellCFGGenerator). Commands come
    in already classified. */
module ShellCfg {
  import opened Digraph

  datatype Kind = If | Elif | Else | Fi | For | While | Until | Done | Case | Esac | Break | Continue | General

  datatype Command = Command(kind: Kind, text: string)

  datatype Block = Block(name: string, kind: Kind, commands: seq<Command>)

  // ----- leaders -----

  predicate Opens(k: Kind) {
    k in {If, Elif, Else, For, While, Until, Case}
  }

  predicate Transfers(k: Kind) {
    Opens(k) || k == Break || k == Continue
  }

  predicate Closes(k: Kind) {
    k == Fi || k == Done || k == Esac
  }

  predicate IsLeader(commands: seq<Command>, i: nat) {
    i < |commands| &&
    (i == 0 || Opens(commands[i].kind) || Transfers(commands[i - 1].kind) || Closes(commands[i].kind))
  }

  method IdentifyLeaders(commands: seq<Command>) returns (leaders: set<nat>)
    ensures forall i: nat :: i in leaders <==> IsLeader(commands, i)
  {
    leaders := {};
    for i := 0 to |commands|
      invariant forall k: nat :: k in leaders <==> k < i && IsLeader(commands, k)
    {
      if i == 0 {
        leaders := leaders + {i};
      } else {
        if Opens(commands[i].kind) {
          leaders := leaders + {i};
        }
        if Transfers(commands[i - 1].kind) {
          leaders := leaders + {i};
        }
        if Closes(commands[i].kind) {
          leaders := leaders + {i};
        }
      }
    }
  }

  // ----- blocks -----

  function Commands(blocks: seq<Block>): seq<Command> {
    if blocks == [] then [] else Commands(blocks[..|blocks| - 1]) + blocks[|blocks| - 1].commands
  }

  /** Where block k starts among the commands. */
  function Start(blocks: seq<Block>, k: nat): nat
    requires k <= |blocks|
  {
    |Commands(blocks[..k])|
  }

  ghost predicate StartsAt(blocks: seq<Block>, i: nat) {
    exists k :: 0 <= k < |blocks| && Start(blocks, k) == i
  }

  /** Blocks are not empty; all but the first are named and typed by their first command. */
  ghost predicate WellHeaded(blocks: seq<Block>) {
    && (forall k :: 0 <= k < |blocks| ==> blocks[k].commands != [])
    && (forall k :: 0 < k < |blocks| ==>
      blocks[k].kind == blocks[k].commands[0].kind && blocks[k].name == blocks[k].commands[0].text)
    && (blocks != [] ==> blocks[0].kind == General && blocks[0].name == "Start")
  }

  /** A block starts at command i exactly when i is 0 or a leader. */
  ghost predicate CutAt(n: nat, leaders: set<nat>, blocks: seq<Block>) {
    forall i: nat :: i < n ==> (StartsAt(blocks, i) <==> i == 0 || i in leaders)
  }

  /** The blocks cut the commands exactly before the leaders. */
  ghost predicate IsPartition(commands: seq<Command>, leaders: set<nat>, blocks: seq<Block>) {
    Commands(blocks) == commands && WellHeaded(blocks) && CutAt(|commands|, leaders, blocks)
  }

  lemma StartSnoc(blocks: seq<Block>, b: Block, i: nat)
    ensures Commands(blocks + [b]) == Commands(blocks) + b.commands
    ensures StartsAt(blocks + [b], i) <==> StartsAt(blocks, i) || i == |Commands(blocks)|
  {
    var all := blocks + [b];
    assert all[..|blocks|] == blocks;
    assert forall k :: 0 <= k <= |blocks| ==> all[..k] == blocks[..k];
    if StartsAt(blocks, i) {
      var k :| 0 <= k < |blocks| && Start(blocks, k) == i;
      assert Start(all, k) == i;
    }
    if i == |Commands(blocks)| {
      assert Start(all, |blocks|) == i;
    }
    if StartsAt(all, i) {
      var k :| 0 <= k < |all| && Start(all, k) == i;
      if k < |blocks| {
        assert Start(blocks, k) == i;
      }
    }
  }

  /** Growing the block under construction by one command, or closing it before a leader. */
  lemma PartitionGrow(commands: seq<Command>, leaders: set<nat>, blocks: seq<Block>, current: Block, c: Command)
    requires IsPartition(commands, leaders, blocks + [current]) && |commands| !in leaders
    ensures IsPartition(commands + [c], leaders, blocks + [current.(commands := current.commands + [c])])
  {
    hide Commands, StartsAt;
    var longer := current.(commands := current.commands + [c]);
    StartSnoc(blocks, current, 0);
    StartSnoc(blocks, longer, 0);
    assert WellHeaded(blocks + [longer]) by {
      assert (blocks + [current])[|blocks|] == current;
      assert forall k :: 0 <= k < |blocks| ==> (blocks + [longer])[k] == (blocks + [current])[k];
    }
    forall i: nat | i < |commands| + 1
      ensures StartsAt(blocks + [longer], i) <==> i == 0 || i in leaders
    {
      StartSnoc(blocks, current, i);
      StartSnoc(blocks, longer, i);
      if i == |commands| {
        StartBound(blocks + [current], i);
      }
    }
  }

  lemma PartitionCut(commands: seq<Command>, leaders: set<nat>, blocks: seq<Block>, c: Command)
    requires IsPartition(commands, leaders, blocks) && blocks != [] && |commands| in leaders
    ensures IsPartition(commands + [c], leaders, blocks + [Block(c.text, c.kind, [c])])
  {
    hide Commands, StartsAt;
    var b := Block(c.text, c.kind, [c]);
    StartSnoc(blocks, b, 0);
    forall i: nat | i < |commands| + 1 ensures StartsAt(blocks + [b], i) <==> i == 0 || i in leaders {
      StartSnoc(blocks, b, i);
    }
  }

  lemma {:induction false} StartBound(blocks: seq<Block>, i: nat)
    requires forall k :: 0 <= k < |blocks| ==> blocks[k].commands != []
    requires i >= |Commands(blocks)|
    ensures !StartsAt(blocks, i)
  {
    if blocks != [] {
      var rest, b := blocks[..|blocks| - 1], blocks[|blocks| - 1];
      assert blocks == rest + [b];
      StartSnoc(rest, b, i);
      StartBound(rest, i);
    }
  }

  method ConstructBasicBlocks(commands: seq<Command>, leaders: set<nat>) returns (blocks: seq<Block>)
    ensures IsPartition(commands, leaders, blocks)
  {
    hide IsPartition;
    blocks := [];
    var current := Block("Start", General, []);
    for i := 0 to |commands|
      invariant current.commands == [] ==> i == 0 && blocks == [] && current == Block("Start", General, [])
      invariant current.commands != [] ==> i > 0 && IsPartition(commands[..i], leaders, blocks + [current])
    {
      var cmd := commands[i];
      assert commands[..i + 1] == commands[..i] + [cmd];
      if i in leaders && current.commands != [] {
        PartitionCut(commands[..i], leaders, blocks + [current], cmd);
        blocks := blocks + [current];
        current := Block(cmd.text, cmd.kind, []);
      } else if current.commands != [] {
        PartitionGrow(commands[..i], leaders, blocks, current, cmd);
      } else {
        FirstBlock(cmd, leaders);
      }
      assert [] + [cmd] == [cmd];
      current := current.(commands := current.commands + [cmd]);
    }
    assert commands[..|commands|] == commands;
    if current.commands != [] {
      blocks := blocks + [current];
    } else {
      NoBlocks(leaders);
    }
  }

  lemma FirstBlock(c: Command, leaders: set<nat>)
    ensures IsPartition([c], leaders, [] + [Block("Start", General, [c])])
  {
    hide StartsAt;
    var b := Block("Start", General, [c]);
    NothingStarts(0);
    StartSnoc([], b, 0);
  }

  lemma NothingStarts(i: nat)
    ensures !StartsAt([], i)
  {
  }

  lemma NoBlocks(leaders: set<nat>)
    ensures IsPartition([], leaders, [])
  {
  }

  /** Without the last block, the leaders before it partition the commands before it. */
  lemma PartitionInit(commands: seq<Command>, leaders: set<nat>, rest: seq<Block>, b: Block, fewer: set<nat>)
    requires IsPartition(commands, leaders, rest + [b])
    requires fewer == set i | i in leaders && i < |Commands(rest)|
    ensures IsPartition(Commands(rest), fewer, rest)
    ensures |Commands(rest)| < |commands|
    ensures forall i: nat :: |Commands(rest)| <= i < |commands| ==> (i == 0 || i in leaders <==> i == |Commands(rest)|)
  {
    hide Commands, StartsAt;
    var all := rest + [b];
    StartSnoc(rest, b, 0);
    assert WellHeaded(rest) && b.commands != [] by {
      assert all[|rest|] == b && forall k :: 0 <= k < |rest| ==> all[k] == rest[k];
    }
    forall i: nat | i < |commands|
      ensures i < |Commands(rest)| ==> (StartsAt(rest, i) <==> i == 0 || i in leaders)
      ensures i >= |Commands(rest)| ==> (i == 0 || i in leaders <==> i == |Commands(rest)|)
    {
      StartSnoc(rest, b, i);
      if i >= |Commands(rest)| {
        StartBound(rest, i);
      }
    }
  }

  /** There are as many blocks as leaders. */
  lemma {:induction false} BlockCount(commands: seq<Command>, leaders: set<nat>, blocks: seq<Block>)
    requires IsPartition(commands, leaders, blocks)
    requires (forall i :: i in leaders ==> i < |commands|) && (commands != [] ==> 0 in leaders)
    ensures |blocks| == |leaders|
    decreases |blocks|
  {
    if blocks == [] {
      assert leaders == {};
    } else {
      hide StartsAt;
      var rest, b := blocks[..|blocks| - 1], blocks[|blocks| - 1];
      assert blocks == rest + [b];
      var start: nat := |Commands(rest)|;
      var fewer := set i | i in leaders && i < start;
      PartitionInit(commands, leaders, rest, b, fewer);
      assert leaders == fewer + {start};
      BlockCount(Commands(rest), fewer, rest);
    }
  }

  lemma {:induction false} CommandAt(blocks: seq<Block>, k: nat, m: nat)
    requires k < |blocks| && m < |blocks[k].commands|
    ensures Start(blocks, k) + m < |Commands(blocks)|
    ensures Commands(blocks)[Start(blocks, k) + m] == blocks[k].commands[m]
    decreases |blocks|
  {
    var rest := blocks[..|blocks| - 1];
    if k < |rest| {
      CommandAt(rest, k, m);
      assert blocks[..k] == rest[..k];
    }
  }

  lemma {:induction false} StartMonotone(blocks: seq<Block>, j: nat, k: nat)
    requires j < k <= |blocks|
    ensures Start(blocks, j) + |blocks[j].commands| <= Start(blocks, k)
    decreases k
  {
    assert blocks[..k][..k - 1] == blocks[..k - 1];
    if j < k - 1 {
      StartMonotone(blocks, j, k - 1);
    }
  }

  /** No leader stands inside a block. */
  lemma NoLeaderInside(commands: seq<Command>, leaders: set<nat>, blocks: seq<Block>, k: nat, m: nat)
    requires IsPartition(commands, leaders, blocks) && k < |blocks| && m + 1 < |blocks[k].commands|
    ensures Start(blocks, k) + m + 1 < |commands| && Start(blocks, k) + m + 1 !in leaders
    ensures commands[Start(blocks, k) + m] == blocks[k].commands[m]
  {
    CommandAt(blocks, k, m);
    CommandAt(blocks, k, m + 1);
    var i := Start(blocks, k) + m + 1;
    if StartsAt(blocks, i) {
      var j :| 0 <= j < |blocks| && Start(blocks, j) == i;
      if j < k {
        StartMonotone(blocks, j, k);
      } else if k < j {
        StartMonotone(blocks, k, j);
      }
      assert false;
    }
  }

  /** With the leaders the program computes, a command that transfers control ends its block:
      one that opens a block is alone in it. */
  lemma ControlBlocksAreSingletons(commands: seq<Command>, leaders: set<nat>, blocks: seq<Block>, k: nat, m: nat)
    requires IsPartition(commands, leaders, blocks) && k < |blocks| && m < |blocks[k].commands|
    requires forall i: nat :: i in leaders <==> IsLeader(commands, i)
    requires Transfers(blocks[k].commands[m].kind)
    ensures m == |blocks[k].commands| - 1
  {
    if m + 1 < |blocks[k].commands| {
      NoLeaderInside(commands, leaders, blocks, k, m);
      assert false;
    }
  }

  /** Where every command is a leader, each is a block of its own. */
  lemma {:induction false} LeadersAlone(commands: seq<Command>, leaders: set<nat>, blocks: seq<Block>, n: nat)
    requires IsPartition(commands, leaders, blocks) && n <= |blocks|
    requires forall i :: 0 < i < |commands| ==> i in leaders
    ensures Start(blocks, n) == n <= |commands|
    ensures forall k :: 0 <= k < n ==> blocks[k].commands == [commands[k]]
  {
    if n > 0 {
      LeadersAlone(commands, leaders, blocks, n - 1);
      var b := blocks[n - 1];
      if |b.commands| > 1 {
        NoLeaderInside(commands, leaders, blocks, n - 1, 0);
      }
      CommandAt(blocks, n - 1, 0);
      assert b.commands == [commands[n - 1]];
      assert blocks[..n][..n - 1] == blocks[..n - 1];
    }
  }

  // ----- the control-flow graph -----

  datatype Tag = IfTag | ElseTag | LoopTag | CaseTag

  /** An open construct: the block that opened it, and what it is. */
  datatype Open = Open(block: nat, tag: Tag)

  /** The library call behind BREAK fails: it looks a node name up in a list of blocks. */
  datatype Result = Cfg(edges: seq<(nat, nat)>) | ValueError

  predicate IsLoop(k: Kind) {
    k == For || k == While || k == Until
  }

  /** The stack with the open if, elif and else entries on its top removed. */
  function DropBranches(stack: seq<Open>): (r: seq<Open>)
    ensures r <= stack
    ensures forall k :: |r| <= k < |stack| ==> stack[k].tag in {IfTag, ElseTag}
    ensures r == [] || r[|r| - 1].tag !in {IfTag, ElseTag}
  {
    if stack == [] || stack[|stack| - 1].tag !in {IfTag, ElseTag} then stack
    else DropBranches(stack[..|stack| - 1])
  }

  function Pop(stack: seq<Open>): seq<Open> {
    if stack == [] then [] else stack[..|stack| - 1]
  }

  /** The stack after block i. */
  function Push(stack: seq<Open>, i: nat, kind: Kind): seq<Open> {
    match kind
    case If | Elif => stack + [Open(i, IfTag)]
    case Else => Pop(stack) + [Open(i, ElseTag)]
    case Fi => DropBranches(stack)
    case For | While | Until => stack + [Open(i, LoopTag)]
    case Done | Esac => Pop(stack)
    case Case => stack + [Open(i, CaseTag)]
    case Break | Continue | General => stack
  }

  /** The stack before block i. */
  function StackAt(kinds: seq<Kind>, i: nat): seq<Open>
    requires i <= |kinds|
  {
    if i == 0 then [] else Push(StackAt(kinds, i - 1), i - 1, kinds[i - 1])
  }

  predicate InLoop(stack: seq<Open>) {
    exists k :: 0 <= k < |stack| && stack[k].tag == LoopTag
  }

  /** The innermost open loop. */
  function InnermostLoop(stack: seq<Open>): (k: nat)
    requires InLoop(stack)
    ensures k < |stack| && stack[k].tag == LoopTag
    ensures forall j :: k < j < |stack| ==> stack[j].tag != LoopTag
  {
    if stack[|stack| - 1].tag == LoopTag then |stack| - 1 else InnermostLoop(stack[..|stack| - 1])
  }

  /** Control passes on to the next block. */
  ghost predicate NextEdge(stack: seq<Open>, i: nat, kind: Kind, n: nat, e: (nat, nat)) {
    && e == (i, i + 1) && i + 1 < n
    && kind !in {Case, Break, Continue} && (kind == General ==> stack == [])
  }

  /** A construct that block i continues or closes gets an edge to it. */
  ghost predicate ClosingEdge(stack: seq<Open>, i: nat, kind: Kind, e: (nat, nat)) {
    && e.1 == i
    && if kind == Fi then exists k :: |DropBranches(stack)| <= k < |stack| && e.0 == stack[k].block
       else kind in {Else, Done, Esac} && stack != [] && e.0 == stack[|stack| - 1].block
  }

  /** CONTINUE goes to the head of the innermost open loop. */
  ghost predicate ContinueEdge(stack: seq<Open>, i: nat, kind: Kind, e: (nat, nat)) {
    kind == Continue && InLoop(stack) && e == (i, stack[InnermostLoop(stack)].block)
  }

  /** The edges added when block i is processed. */
  ghost predicate EdgeAt(stack: seq<Open>, i: nat, kind: Kind, n: nat, e: (nat, nat)) {
    NextEdge(stack, i, kind, n, e) || ClosingEdge(stack, i, kind, e) || ContinueEdge(stack, i, kind, e)
  }

  ghost predicate EdgesDescribe(kinds: seq<Kind>, n: nat, edges: seq<(nat, nat)>)
    requires n <= |kinds|
  {
    forall e: (nat, nat) :: e in edges <==> AddedBefore(kinds, n, e)
  }

  ghost predicate AddedBefore(kinds: seq<Kind>, n: nat, e: (nat, nat))
    requires n <= |kinds|
  {
    exists i :: 0 <= i < n && EdgeAt(StackAt(kinds, i), i, kinds[i], |kinds|, e)
  }

  method BuildCfg(kinds: seq<Kind>) returns (r: Result)
    ensures r.ValueError? <==> exists i :: 0 <= i < |kinds| && kinds[i] == Break && InLoop(StackAt(kinds, i))
    ensures r.Cfg? ==> EdgesDescribe(kinds, |kinds|, r.edges)
  {
    hide EdgeAt, Push, InLoop;
    var edges: seq<(nat, nat)>, stack: seq<Open> := [], [];
    for i := 0 to |kinds|
      invariant stack == StackAt(kinds, i)
      invariant forall j :: 0 <= j < i && kinds[j] == Break ==> !InLoop(StackAt(kinds, j))
      invariant EdgesDescribe(kinds, i, edges)
    {
      var added, rest, failed := ProcessBlock(stack, i, kinds[i], |kinds|);
      if failed {
        return ValueError;
      }
      forall e: (nat, nat) ensures e in edges + added <==> AddedBefore(kinds, i + 1, e) {
        assert e in edges <==> AddedBefore(kinds, i, e);
      }
      edges, stack := edges + added, rest;
    }
    r := Cfg(edges);
  }

  /** The failing input: a loop with a BREAK in it. */
  method BreakInLoopFails() returns (r: Result)
    ensures r.ValueError?
  {
    var kinds := [General, For, Break, Done];
    r := BuildCfg(kinds);
    assert StackAt(kinds, 1) == [];
    assert StackAt(kinds, 2) == [Open(1, LoopTag)];
    assert StackAt(kinds, 2)[0].tag == LoopTag;
    assert InLoop(StackAt(kinds, 2));
  }

  /** One block: the edges it adds and the stack it leaves, unless the library call fails. */
  method ProcessBlock(stack: seq<Open>, i: nat, kind: Kind, n: nat)
    returns (added: seq<(nat, nat)>, rest: seq<Open>, failed: bool)
    ensures failed <==> kind == Break && InLoop(stack)
    ensures forall e: (nat, nat) :: e in added <==> EdgeAt(stack, i, kind, n, e)
    ensures rest == Push(stack, i, kind)
  {
    hide InLoop, InnermostLoop, DropBranches;
    added, rest, failed := [], stack, false;
    var next: seq<(nat, nat)> := if i + 1 < n then [(i, i + 1)] else [];
    match kind {
      case If | Elif =>
        added, rest := next, stack + [Open(i, IfTag)];
      case Else =>
        if stack != [] {
          added, rest := [(stack[|stack| - 1].block, i)], stack[..|stack| - 1];
        }
        added, rest := added + next, rest + [Open(i, ElseTag)];
      case Fi =>
        added, rest := CloseBranches(stack, i);
        added := added + next;
      case For | While | Until =>
        added, rest := next, stack + [Open(i, LoopTag)];
      case Done | Esac =>
        if stack != [] {
          added, rest := [(stack[|stack| - 1].block, i)], stack[..|stack| - 1];
        }
        added := added + next;
      case Break =>
        var k := FindLoop(stack);
        failed := k != -1;
      case Continue =>
        var k := FindLoop(stack);
        if k != -1 {
          added := [(i, stack[k].block)];
        }
      case Case =>
        rest := stack + [Open(i, CaseTag)];
      case General =>
        if stack == [] {
          added := next;
        }
    }
  }

  /** The loop of FI: an edge from every open branch on top of the stack. */
  method CloseBranches(stack: seq<Open>, i: nat) returns (added: seq<(nat, nat)>, rest: seq<Open>)
    ensures rest == DropBranches(stack)
    ensures forall e: (nat, nat) :: e in added <==>
      exists k :: |rest| <= k < |stack| && e == (stack[k].block, i)
  {
    added, rest := [], stack;
    while rest != [] && rest[|rest| - 1].tag in {IfTag, ElseTag}
      invariant rest <= stack && DropBranches(rest) == DropBranches(stack)
      invariant forall e: (nat, nat) :: e in added <==>
        exists k :: |rest| <= k < |stack| && e == (stack[k].block, i)
    {
      added := added + [(rest[|rest| - 1].block, i)];
      rest := rest[..|rest| - 1];
    }
  }

  method FindLoop(stack: seq<Open>) returns (k: int)
    ensures k == -1 <==> !InLoop(stack)
    ensures k != -1 ==> InLoop(stack) && k == InnermostLoop(stack)
  {
    k := |stack| - 1;
    while k >= 0 && stack[k].tag != LoopTag
      invariant -1 <= k < |stack|
      invariant forall j :: k < j < |stack| ==> stack[j].tag != LoopTag
    {
      k := k - 1;
    }
  }

  // ----- the shape of the graph -----

  predicate Opened(k: Kind, tag: Tag) {
    match tag
    case IfTag => k == If || k == Elif
    case ElseTag => k == Else
    case LoopTag => IsLoop(k)
    case CaseTag => k == Case
  }

  /** Stack entries name earlier blocks of the matching kind, outermost first. */
  ghost predicate StackOk(kinds: seq<Kind>, stack: seq<Open>, i: nat) {
    && (forall k :: 0 <= k < |stack| ==>
      stack[k].block < i <= |kinds| && Opened(kinds[stack[k].block], stack[k].tag))
    && forall j, k :: 0 <= j < k < |stack| ==> stack[j].block < stack[k].block
  }

  lemma PushPrefix(kinds: seq<Kind>, stack: seq<Open>, rest: seq<Open>, i: nat, tag: Tag)
    requires StackOk(kinds, stack, i) && rest <= stack && i < |kinds|
    ensures StackOk(kinds, rest, i + 1)
    ensures Opened(kinds[i], tag) ==> StackOk(kinds, rest + [Open(i, tag)], i + 1)
  {
    assert forall k :: 0 <= k < |rest| ==> rest[k] == stack[k];
  }

  lemma {:induction false} StackEntries(kinds: seq<Kind>, i: nat)
    requires i <= |kinds|
    ensures StackOk(kinds, StackAt(kinds, i), i)
  {
    hide StackOk, DropBranches;
    if i == 0 {
      assert StackOk(kinds, [], 0) by { EmptyStackOk(kinds); }
    } else {
      StackEntries(kinds, i - 1);
      var stack, kind := StackAt(kinds, i - 1), kinds[i - 1];
      var rest := if kind == Fi then DropBranches(stack)
                  else if kind in {Else, Done, Esac} then Pop(stack) else stack;
      var tag := if kind == If || kind == Elif then IfTag else if kind == Else then ElseTag
                 else if IsLoop(kind) then LoopTag else CaseTag;
      PushPrefix(kinds, stack, rest, i - 1, tag);
    }
  }

  lemma EmptyStackOk(kinds: seq<Kind>)
    ensures StackOk(kinds, [], 0)
  {
  }

  /** Every edge joins blocks of the script. It goes strictly forward, unless it leaves a
      CONTINUE block: then it goes back to the head of a loop that is still open there. */
  lemma EdgeDirection(kinds: seq<Kind>, edges: seq<(nat, nat)>, e: (nat, nat))
    requires EdgesDescribe(kinds, |kinds|, edges) && e in edges
    ensures e.0 < |kinds| && e.1 < |kinds|
    ensures kinds[e.0] != Continue ==> e.0 < e.1
    ensures kinds[e.0] == Continue ==> e.1 < e.0 && IsLoop(kinds[e.1]) && Open(e.1, LoopTag) in StackAt(kinds, e.0)
  {
    hide EdgeAt, StackAt, StackOk;
    assert AddedBefore(kinds, |kinds|, e);
    var i :| 0 <= i < |kinds| && EdgeAt(StackAt(kinds, i), i, kinds[i], |kinds|, e);
    StackEntries(kinds, i);
    StepDirection(kinds, StackAt(kinds, i), i, e);
  }

  lemma StepDirection(kinds: seq<Kind>, stack: seq<Open>, i: nat, e: (nat, nat))
    requires i < |kinds| && StackOk(kinds, stack, i) && EdgeAt(stack, i, kinds[i], |kinds|, e)
    ensures e.0 < |kinds| && e.1 < |kinds|
    ensures kinds[e.0] != Continue ==> e.0 < e.1
    ensures kinds[e.0] == Continue ==> e.0 == i && e.1 < i && IsLoop(kinds[e.1]) && Open(e.1, LoopTag) in stack
  {
    hide InLoop, InnermostLoop, DropBranches;
    if ContinueEdge(stack, i, kinds[i], e) {
      var o := stack[InnermostLoop(stack)];
      assert o == Open(e.1, LoopTag);
    }
  }

  function Below(n: nat): (r: set<nat>)
    ensures forall i: nat :: i in r <==> i < n
  {
    if n == 0 then {} else Below(n - 1) + {n - 1}
  }

  function CfgGraph(kinds: seq<Kind>, edges: seq<(nat, nat)>): Graph<nat> {
    Graph(Below(|kinds|), Elements(edges))
  }

  lemma {:induction false} ForwardWalk(kinds: seq<Kind>, edges: seq<(nat, nat)>, p: seq<nat>)
    requires EdgesDescribe(kinds, |kinds|, edges) && IsWalk(CfgGraph(kinds, edges), p) && |p| > 1
    requires forall k :: 0 <= k < |p| && p[k] < |kinds| ==> kinds[p[k]] != Continue
    ensures p[0] < p[|p| - 1]
    decreases |p|
  {
    assert Hop(CfgGraph(kinds, edges), p, 0);
    EdgeDirection(kinds, edges, (p[0], p[1]));
    if |p| > 2 {
      SubWalk(CfgGraph(kinds, edges), p, 1, |p|);
      ForwardWalk(kinds, edges, p[1..]);
    }
  }

  /** Every cycle passes through a CONTINUE block. */
  lemma CyclesNeedContinue(kinds: seq<Kind>, edges: seq<(nat, nat)>, p: seq<nat>) returns (k: nat)
    requires EdgesDescribe(kinds, |kinds|, edges) && IsWalk(CfgGraph(kinds, edges), p)
    requires |p| > 1 && p[0] == p[|p| - 1]
    ensures k < |p| && p[k] < |kinds| && kinds[p[k]] == Continue
  {
    if forall j :: 0 <= j < |p| && p[j] < |kinds| ==> kinds[p[j]] != Continue {
      ForwardWalk(kinds, edges, p);
      assert false;
    }
    k :| 0 <= k < |p| && p[k] < |kinds| && kinds[p[k]] == Continue;
  }

  /** So a loop without CONTINUE has no back edge, whatever its DONE adds. */
  lemma WithoutContinueAcyclic(kinds: seq<Kind>, edges: seq<(nat, nat)>)
    requires EdgesDescribe(kinds, |kinds|, edges) && Continue !in kinds
    ensures Acyclic(CfgGraph(kinds, edges))
  {
    forall p | IsWalk(CfgGraph(kinds, edges), p) && |p| > 1 ensures p[0] != p[|p| - 1] {
      ForwardWalk(kinds, edges, p);
    }
  }
}
