/** Well-nested scripts: exactly when DONE and ESAC close the construct they belong to. The
    first block is of type GENERAL whatever it holds, so it never opens anything. */
module ShellNesting {
  import opened ShellCfg

  /** A well-nested script as a tree. `Enclosed` is a loop up to its DONE, or a case up to its
      ESAC; `IfOf` an if with its branches up to FI. */
  datatype Script =
    | Empty
    | Simple(kind: Kind, rest: Script)
    | Enclosed(head: Kind, body: Script, rest: Script)
    | IfOf(body: Script, more: Branches, rest: Script)

  datatype Branches = End | ElifOf(body: Script, more: Branches) | ElseOf(body: Script)

  predicate Proper(s: Script) {
    match s
    case Empty => true
    case Simple(kind, rest) => kind in {General, Break, Continue} && Proper(rest)
    case Enclosed(head, body, rest) => (IsLoop(head) || head == Case) && Proper(body) && Proper(rest)
    case IfOf(body, more, rest) => Proper(body) && ProperBranches(more) && Proper(rest)
  }

  predicate ProperBranches(m: Branches) {
    match m
    case End => true
    case ElifOf(body, more) => Proper(body) && ProperBranches(more)
    case ElseOf(body) => Proper(body)
  }

  function Closer(head: Kind): Kind {
    if head == Case then Esac else Done
  }

  function TagOf(head: Kind): Tag {
    if head == Case then CaseTag else LoopTag
  }

  /** The types of the commands at which the blocks of the script start. */
  function Kinds(s: Script): seq<Kind> {
    match s
    case Empty => []
    case Simple(kind, rest) => [kind] + Kinds(rest)
    case Enclosed(head, body, rest) => [head] + Kinds(body) + ([Closer(head)] + Kinds(rest))
    case IfOf(body, more, rest) => [If] + Kinds(body) + (BranchKinds(more) + Kinds(rest))
  }

  function BranchKinds(m: Branches): seq<Kind> {
    match m
    case End => [Fi]
    case ElifOf(body, more) => [Elif] + Kinds(body) + BranchKinds(more)
    case ElseOf(body) => [Else] + Kinds(body) + [Fi]
  }

  /** The loops and cases of a script that starts at block i: opener and closer. */
  function Pairs(s: Script, i: nat): set<(nat, nat)> {
    match s
    case Empty => {}
    case Simple(_, rest) => Pairs(rest, i + 1)
    case Enclosed(_, body, rest) =>
      var j := i + 1 + |Kinds(body)|;
      {(i, j)} + Pairs(body, i + 1) + Pairs(rest, j + 1)
    case IfOf(body, more, rest) =>
      var j := i + 1 + |Kinds(body)|;
      Pairs(body, i + 1) + BranchPairs(more, j) + Pairs(rest, j + |BranchKinds(more)|)
  }

  function BranchPairs(m: Branches, i: nat): set<(nat, nat)> {
    match m
    case End => {}
    case ElifOf(body, more) => Pairs(body, i + 1) + BranchPairs(more, i + 1 + |Kinds(body)|)
    case ElseOf(body) => Pairs(body, i + 1)
  }

  /** The closer finds its own opener on top of the stack, and so draws its edge from there. */
  predicate ClosesOwn(kinds: seq<Kind>, pair: (nat, nat)) {
    pair.1 <= |kinds| && StackAt(kinds, pair.1) != [] &&
    var stack := StackAt(kinds, pair.1);
    stack[|stack| - 1].block == pair.0
  }

  predicate AllCloseOwn(kinds: seq<Kind>, pairs: set<(nat, nat)>) {
    forall pair :: pair in pairs ==> ClosesOwn(kinds, pair)
  }

  /** Some if stands directly in the script, not inside a loop or case of it. */
  predicate HasIf(s: Script) {
    match s
    case Empty => false
    case Simple(_, rest) => HasIf(rest)
    case Enclosed(_, _, rest) => HasIf(rest)
    case IfOf(_, _, _) => true
  }

  /** Inside a loop or case, no else follows a branch in which an if stands directly. */
  predicate Clean(s: Script, enclosed: bool) {
    match s
    case Empty => true
    case Simple(_, rest) => Clean(rest, enclosed)
    case Enclosed(_, body, rest) => Clean(body, true) && Clean(rest, enclosed)
    case IfOf(body, more, rest) =>
      Clean(body, enclosed) && CleanBranches(more, HasIf(body), enclosed) && Clean(rest, enclosed)
  }

  /** `nested`: an if stands directly in the branch before these. */
  predicate CleanBranches(m: Branches, nested: bool, enclosed: bool) {
    match m
    case End => true
    case ElifOf(body, more) => Clean(body, enclosed) && CleanBranches(more, HasIf(body), enclosed)
    case ElseOf(body) => !(nested && enclosed) && Clean(body, enclosed)
  }

  // ----- the stack -----

  predicate At(all: seq<Kind>, i: nat, part: seq<Kind>) {
    i + |part| <= |all| && all[i..i + |part|] == part
  }

  lemma AtBound(all: seq<Kind>, i: nat, part: seq<Kind>)
    requires At(all, i, part)
    ensures i + |part| <= |all|
  {
  }

  lemma AtSplit(all: seq<Kind>, i: nat, a: seq<Kind>, b: seq<Kind>)
    requires At(all, i, a + b)
    ensures At(all, i, a) && At(all, i + |a|, b)
  {
    var s := all[i..i + |a + b|];
    assert all[i..i + |a|] == s[..|a|] == a;
    assert all[i + |a|..i + |a| + |b|] == s[|a|..] == b;
  }

  lemma {:induction false} AtHead(all: seq<Kind>, i: nat, k: Kind, b: seq<Kind>)
    requires At(all, i, [k] + b)
    ensures i < |all| && all[i] == k && At(all, i + 1, b)
    ensures StackAt(all, i + 1) == Push(StackAt(all, i), i, k)
  {
    AtSplit(all, i, [k], b);
    assert all[i..i + 1][0] == k;
  }

  predicate IsBranch(o: Open) {
    o.tag == IfTag || o.tag == ElseTag
  }

  predicate BranchOnTop(stack: seq<Open>) {
    stack != [] && IsBranch(stack[|stack| - 1])
  }

  lemma DropPush(stack: seq<Open>, o: Open)
    ensures DropBranches(stack + [o]) == if IsBranch(o) then DropBranches(stack) else stack + [o]
  {
    assert (stack + [o])[..|stack|] == stack;
  }

  lemma {:induction false} DropTwice(stack: seq<Open>)
    ensures DropBranches(DropBranches(stack)) == DropBranches(stack)
  {
    if BranchOnTop(stack) {
      DropTwice(stack[..|stack| - 1]);
    }
  }

  /** What the stack looks like before ELIF, ELSE or FI, unless nothing encloses them. */
  predicate BeforeBranch(stack: seq<Open>, nested: bool) {
    DropBranches(stack) == [] || if nested then stack == DropBranches(stack) else BranchOnTop(stack)
  }

  // ----- layout -----

  lemma SimpleLayout(all: seq<Kind>, s: Script, i: nat)
    requires s.Simple? && Proper(s) && At(all, i, Kinds(s))
    ensures At(all, i + 1, Kinds(s.rest)) && |Kinds(s)| == 1 + |Kinds(s.rest)|
    ensures StackAt(all, i + 1) == StackAt(all, i)
  {
    AtHead(all, i, s.kind, Kinds(s.rest));
  }

  lemma {:induction false} EnclosedLayout(all: seq<Kind>, s: Script, i: nat)
    requires s.Enclosed? && Proper(s) && At(all, i, Kinds(s))
    ensures var j := i + 1 + |Kinds(s.body)|;
      && j < |all| && all[i] == s.head && i + |Kinds(s)| == j + 1 + |Kinds(s.rest)|
      && At(all, i + 1, Kinds(s.body)) && At(all, j + 1, Kinds(s.rest))
      && StackAt(all, i + 1) == StackAt(all, i) + [Open(i, TagOf(s.head))]
      && StackAt(all, j + 1) == Pop(StackAt(all, j))
  {
    hide At, StackAt, DropBranches;
    var tail := [Closer(s.head)] + Kinds(s.rest);
    assert [s.head] + Kinds(s.body) + tail == [s.head] + (Kinds(s.body) + tail);
    AtHead(all, i, s.head, Kinds(s.body) + tail);
    AtSplit(all, i + 1, Kinds(s.body), tail);
    AtHead(all, i + 1 + |Kinds(s.body)|, Closer(s.head), Kinds(s.rest));
  }

  /** The parts of an if, and the stack in its first branch. */
  ghost predicate IfLaid(all: seq<Kind>, s: Script, i: nat)
    requires s.IfOf?
  {
    var j := i + 1 + |Kinds(s.body)|;
    && At(all, i + 1, Kinds(s.body)) && At(all, j, BranchKinds(s.more))
    && At(all, j + |BranchKinds(s.more)|, Kinds(s.rest))
    && i + |Kinds(s)| == j + |BranchKinds(s.more)| + |Kinds(s.rest)| <= |all|
    && BeforeBranch(StackAt(all, i + 1), false)
    && DropBranches(StackAt(all, i + 1)) == DropBranches(StackAt(all, i))
  }

  lemma IfLayout(all: seq<Kind>, s: Script, i: nat)
    requires s.IfOf? && At(all, i, Kinds(s))
    ensures IfLaid(all, s, i)
  {
    hide At, StackAt, DropBranches, Push;
    AtBound(all, i, Kinds(s));
    var tail := BranchKinds(s.more) + Kinds(s.rest);
    assert [If] + Kinds(s.body) + tail == [If] + (Kinds(s.body) + tail);
    AtHead(all, i, If, Kinds(s.body) + tail);
    AtSplit(all, i + 1, Kinds(s.body), tail);
    AtSplit(all, i + 1 + |Kinds(s.body)|, BranchKinds(s.more), Kinds(s.rest));
    PushIf(StackAt(all, i), i);
    DropPush(StackAt(all, i), Open(i, IfTag));
  }

  lemma PushIf(stack: seq<Open>, i: nat)
    ensures Push(stack, i, If) == stack + [Open(i, IfTag)]
  {
  }

  lemma ElifLayout(all: seq<Kind>, m: Branches, i: nat)
    requires m.ElifOf? && At(all, i, BranchKinds(m))
    ensures At(all, i + 1, Kinds(m.body)) && At(all, i + 1 + |Kinds(m.body)|, BranchKinds(m.more))
    ensures |BranchKinds(m)| == 1 + |Kinds(m.body)| + |BranchKinds(m.more)|
    ensures BranchOnTop(StackAt(all, i + 1))
    ensures DropBranches(StackAt(all, i + 1)) == DropBranches(StackAt(all, i))
  {
    hide At, StackAt, DropBranches;
    assert [Elif] + Kinds(m.body) + BranchKinds(m.more) == [Elif] + (Kinds(m.body) + BranchKinds(m.more));
    AtHead(all, i, Elif, Kinds(m.body) + BranchKinds(m.more));
    AtSplit(all, i + 1, Kinds(m.body), BranchKinds(m.more));
    DropPush(StackAt(all, i), Open(i, IfTag));
  }

  lemma {:induction false} ElseLayout(all: seq<Kind>, m: Branches, i: nat)
    requires m.ElseOf? && At(all, i, BranchKinds(m))
    ensures var k := i + 1 + |Kinds(m.body)|;
      && At(all, i + 1, Kinds(m.body)) && k < |all| && i + |BranchKinds(m)| == k + 1
      && i < |all| && all[i] == Else
      && StackAt(all, i + 1) == Pop(StackAt(all, i)) + [Open(i, ElseTag)]
      && StackAt(all, k + 1) == DropBranches(StackAt(all, k))
  {
    hide At, StackAt, DropBranches;
    assert [Else] + Kinds(m.body) + [Fi] == [Else] + (Kinds(m.body) + [Fi]);
    AtHead(all, i, Else, Kinds(m.body) + [Fi]);
    AtSplit(all, i + 1, Kinds(m.body), [Fi]);
    AtHead(all, i + 1 + |Kinds(m.body)|, Fi, []);
  }

  lemma EndLayout(all: seq<Kind>, i: nat)
    requires At(all, i, BranchKinds(End))
    ensures |BranchKinds(End)| == 1 && i < |all| && StackAt(all, i + 1) == DropBranches(StackAt(all, i))
  {
    AtHead(all, i, Fi, []);
  }

  /** The pairs of a script are those of its parts. */
  lemma PairsOfParts(all: seq<Kind>, s: Script, i: nat)
    ensures AllCloseOwn(all, Pairs(s, i)) <==>
      match s
      case Empty => true
      case Simple(_, rest) => AllCloseOwn(all, Pairs(rest, i + 1))
      case Enclosed(_, body, rest) =>
        var j := i + 1 + |Kinds(body)|;
        ClosesOwn(all, (i, j)) && AllCloseOwn(all, Pairs(body, i + 1)) && AllCloseOwn(all, Pairs(rest, j + 1))
      case IfOf(body, more, rest) =>
        var j := i + 1 + |Kinds(body)|;
        AllCloseOwn(all, Pairs(body, i + 1)) && AllCloseOwn(all, BranchPairs(more, j))
        && AllCloseOwn(all, Pairs(rest, j + |BranchKinds(more)|))
  {
    hide ClosesOwn, Kinds, BranchKinds;
    match s {
      case Empty =>
      case Simple(_, rest) =>
      case Enclosed(_, body, rest) =>
        var j := i + 1 + |Kinds(body)|;
        assert Pairs(s, i) == {(i, j)} + Pairs(body, i + 1) + Pairs(rest, j + 1);
      case IfOf(body, more, rest) =>
        var j := i + 1 + |Kinds(body)|;
        assert Pairs(s, i) == Pairs(body, i + 1) + BranchPairs(more, j) + Pairs(rest, j + |BranchKinds(more)|);
    }
  }

  lemma BranchPairsOfParts(all: seq<Kind>, m: Branches, i: nat)
    ensures AllCloseOwn(all, BranchPairs(m, i)) <==>
      match m
      case End => true
      case ElifOf(body, more) =>
        AllCloseOwn(all, Pairs(body, i + 1)) && AllCloseOwn(all, BranchPairs(more, i + 1 + |Kinds(body)|))
      case ElseOf(body) => AllCloseOwn(all, Pairs(body, i + 1))
  {
    hide ClosesOwn, Kinds;
  }

  // ----- clean scripts -----

  /** A script that closes all its loops and cases, and leaves the stack as it was; but where
      an if stands directly in it, the open branches on top are gone. */
  ghost predicate RunsClean(all: seq<Kind>, s: Script, i: nat) {
    && i + |Kinds(s)| <= |all|
    && StackAt(all, i + |Kinds(s)|) == (if HasIf(s) then DropBranches(StackAt(all, i)) else StackAt(all, i))
    && AllCloseOwn(all, Pairs(s, i))
  }

  lemma {:induction false} CleanRun(all: seq<Kind>, s: Script, i: nat)
    requires Proper(s) && At(all, i, Kinds(s))
    requires Clean(s, DropBranches(StackAt(all, i)) != [])
    ensures RunsClean(all, s, i)
    decreases s, 2
  {
    hide StackAt, DropBranches, At, Pairs, BranchPairs, AllCloseOwn, BranchKinds;
    AtBound(all, i, Kinds(s));
    match s {
      case Empty =>
        PairsOfParts(all, s, i);
      case Simple(kind, rest) =>
        PairsOfParts(all, s, i);
        SimpleLayout(all, s, i);
        CleanRun(all, rest, i + 1);
      case Enclosed(_, _, _) =>
        CleanEnclosed(all, s, i);
      case IfOf(_, _, _) =>
        IfLayout(all, s, i);
        CleanIf(all, s, i);
    }
  }

  /** Inside a loop or case the stack is not empty, and its closer undoes its opener. */
  lemma OpenerKept(stack: seq<Open>, i: nat, head: Kind)
    ensures var inside := stack + [Open(i, TagOf(head))];
      DropBranches(inside) == inside && inside != [] && Pop(inside) == stack
  {
    DropPush(stack, Open(i, TagOf(head)));
  }

  lemma {:induction false} CleanEnclosed(all: seq<Kind>, s: Script, i: nat)
    requires s.Enclosed? && Proper(s) && At(all, i, Kinds(s))
    requires Clean(s, DropBranches(StackAt(all, i)) != [])
    ensures RunsClean(all, s, i)
    decreases s, 1
  {
    hide StackAt, DropBranches, At, Pairs, BranchPairs, AllCloseOwn, Kinds, BranchKinds;
    hide Pop, Push, TagOf, Closer, IsBranch;
    AtBound(all, i, Kinds(s));
    EnclosedLayout(all, s, i);
    CleanBody(all, s, i);
    CleanRun(all, s.rest, i + 1 + |Kinds(s.body)| + 1);
    PairsOfParts(all, s, i);
  }

  /** A loop or case with a clean body is closed, and leaves the stack as it was. */
  lemma {:induction false} CleanBody(all: seq<Kind>, s: Script, i: nat)
    requires s.Enclosed? && Proper(s) && At(all, i, Kinds(s)) && Clean(s.body, true)
    ensures var j := i + 1 + |Kinds(s.body)|;
      && j < |all| && StackAt(all, j + 1) == StackAt(all, i)
      && AllCloseOwn(all, Pairs(s.body, i + 1)) && ClosesOwn(all, (i, j))
    decreases s, 0
  {
    hide StackAt, DropBranches, At, Pairs, BranchPairs, AllCloseOwn, Kinds, BranchKinds;
    hide Pop, Push, TagOf, Closer, IsBranch;
    EnclosedLayout(all, s, i);
    OpenerKept(StackAt(all, i), i, s.head);
    CleanRun(all, s.body, i + 1);
  }

  lemma {:induction false} CleanIf(all: seq<Kind>, s: Script, i: nat)
    requires s.IfOf? && Proper(s) && IfLaid(all, s, i)
    requires Clean(s, DropBranches(StackAt(all, i)) != [])
    ensures RunsClean(all, s, i)
    decreases s, 0
  {
    hide StackAt, DropBranches, At, Pairs, BranchPairs, AllCloseOwn, Kinds, BranchKinds, Pop, Push, BranchOnTop;
    var stack, j := StackAt(all, i), i + 1 + |Kinds(s.body)|;
    var k := j + |BranchKinds(s.more)|;
    DropTwice(stack);
    CleanRun(all, s.body, i + 1);
    CleanBranchesRun(all, s.more, HasIf(s.body), j);
    CleanRun(all, s.rest, k);
    PairsOfParts(all, s, i);
  }

  /** Clean branches: FI drops every open branch on top, its own and those around it. */
  lemma {:induction false} CleanBranchesRun(all: seq<Kind>, m: Branches, nested: bool, i: nat)
    requires ProperBranches(m) && At(all, i, BranchKinds(m)) && BeforeBranch(StackAt(all, i), nested)
    requires CleanBranches(m, nested, DropBranches(StackAt(all, i)) != [])
    ensures i + |BranchKinds(m)| <= |all|
    ensures StackAt(all, i + |BranchKinds(m)|) == DropBranches(StackAt(all, i))
    ensures AllCloseOwn(all, BranchPairs(m, i))
    decreases m, 1
  {
    hide StackAt, DropBranches, At, Pairs, BranchPairs, AllCloseOwn, Kinds, BranchKinds;
    AtBound(all, i, BranchKinds(m));
    match m {
      case End =>
        EndLayout(all, i);
        BranchPairsOfParts(all, m, i);
      case ElifOf(_, _) =>
        CleanElif(all, m, nested, i);
      case ElseOf(_) =>
        CleanElse(all, m, nested, i);
    }
  }

  lemma {:induction false} CleanElif(all: seq<Kind>, m: Branches, nested: bool, i: nat)
    requires m.ElifOf? && ProperBranches(m) && At(all, i, BranchKinds(m))
    requires CleanBranches(m, nested, DropBranches(StackAt(all, i)) != [])
    ensures i + |BranchKinds(m)| <= |all|
    ensures StackAt(all, i + |BranchKinds(m)|) == DropBranches(StackAt(all, i))
    ensures AllCloseOwn(all, BranchPairs(m, i))
    decreases m, 0
  {
    hide StackAt, DropBranches, At, Pairs, BranchPairs, AllCloseOwn, Kinds, BranchKinds;
    AtBound(all, i, BranchKinds(m));
    DropTwice(StackAt(all, i));
    ElifLayout(all, m, i);
    CleanRun(all, m.body, i + 1);
    CleanBranchesRun(all, m.more, HasIf(m.body), i + 1 + |Kinds(m.body)|);
    BranchPairsOfParts(all, m, i);
  }

  lemma {:induction false} CleanElse(all: seq<Kind>, m: Branches, nested: bool, i: nat)
    requires m.ElseOf? && ProperBranches(m) && At(all, i, BranchKinds(m)) && BeforeBranch(StackAt(all, i), nested)
    requires CleanBranches(m, nested, DropBranches(StackAt(all, i)) != [])
    ensures i + |BranchKinds(m)| <= |all|
    ensures StackAt(all, i + |BranchKinds(m)|) == DropBranches(StackAt(all, i))
    ensures AllCloseOwn(all, BranchPairs(m, i))
    decreases m, 0
  {
    hide StackAt, DropBranches, At, Pairs, BranchPairs, AllCloseOwn, Kinds, BranchKinds;
    AtBound(all, i, BranchKinds(m));
    DropTwice(StackAt(all, i));
    ElseLayout(all, m, i);
    ElseStack(StackAt(all, i), nested, i);
    CleanRun(all, m.body, i + 1);
    BranchPairsOfParts(all, m, i);
  }

  /** ELSE replaces a branch, or stands where nothing is open at all. */
  lemma ElseStack(stack: seq<Open>, nested: bool, i: nat)
    requires BeforeBranch(stack, nested) && !(nested && DropBranches(stack) != [])
    ensures DropBranches(Pop(stack) + [Open(i, ElseTag)]) == DropBranches(stack)
  {
    DropPush(Pop(stack), Open(i, ElseTag));
  }

  // ----- scripts that are not clean -----

  lemma {:induction false} StaysLost(all: seq<Kind>, o: Open, j: nat, k: nat)
    requires o.block < j <= k <= |all| && o !in StackAt(all, j)
    ensures o !in StackAt(all, k)
  {
    if j < k {
      StaysLost(all, o, j, k - 1);
      PushAddsNoOther(StackAt(all, k - 1), k - 1, all[k - 1], o);
    }
  }

  lemma PushAddsNoOther(stack: seq<Open>, i: nat, kind: Kind, o: Open)
    requires o.block < i && o !in stack
    ensures o !in Push(stack, i, kind)
  {
    hide DropBranches;
    assert DropBranches(stack) <= stack;
  }

  /** What encloses block i: the innermost open loop or case below the branches on top. */
  ghost predicate Loses(all: seq<Kind>, i: nat, k: nat)
    requires i <= k <= |all|
  {
    var d := DropBranches(StackAt(all, i));
    d != [] && d[|d| - 1] !in StackAt(all, k)
  }

  lemma {:induction false} KeepsLosing(all: seq<Kind>, i: nat, j: nat, k: nat)
    requires i <= j <= k <= |all| && Loses(all, i, j)
    ensures Loses(all, i, k)
  {
    hide StackAt, DropBranches;
    StackEntries(all, i);
    var d, stack := DropBranches(StackAt(all, i)), StackAt(all, i);
    assert d <= stack && d[|d| - 1] == stack[|d| - 1];
    assert d[|d| - 1] in stack;
    if i < j {
      StaysLost(all, d[|d| - 1], j, k);
    }
  }

  /** A closer whose opener is lost does not find it. */
  lemma {:induction false} LostIsNotClosed(all: seq<Kind>, i: nat, j: nat, tag: Tag)
    requires i < j <= |all| && Opened(all[i], tag) && tag in {LoopTag, CaseTag}
    requires Open(i, tag) !in StackAt(all, j)
    ensures !ClosesOwn(all, (i, j))
  {
    hide StackAt;
    StackEntries(all, j);
    var stack := StackAt(all, j);
    assert forall k :: 0 <= k < |stack| && stack[k].block == i ==> stack[k].tag == tag;
    assert forall k :: 0 <= k < |stack| ==> stack[k] in stack;
  }

  /** A loss in blocks j to k is one in blocks i to n, when the same construct encloses i and j. */
  lemma LossSpreads(all: seq<Kind>, i: nat, j: nat, k: nat, n: nat)
    requires i <= j <= k <= n <= |all| && DropBranches(StackAt(all, i)) == DropBranches(StackAt(all, j))
    requires Loses(all, j, k)
    ensures Loses(all, i, n)
  {
    hide StackAt, DropBranches, Loses;
    SameLoses(all, i, j, k);
    KeepsLosing(all, i, k, n);
  }

  lemma SameLoses(all: seq<Kind>, i: nat, j: nat, k: nat)
    requires i <= j <= k <= |all| && DropBranches(StackAt(all, i)) == DropBranches(StackAt(all, j))
    requires Loses(all, j, k)
    ensures Loses(all, i, k)
  {
    hide StackAt, DropBranches;
  }

  /** A script that is not clean leaves one of its own loops or cases open at its closer, or
      takes the construct around it from the stack. */
  lemma {:induction false} DirtyRun(all: seq<Kind>, s: Script, i: nat)
    requires Proper(s) && At(all, i, Kinds(s))
    requires !Clean(s, DropBranches(StackAt(all, i)) != [])
    ensures i + |Kinds(s)| <= |all|
    ensures !AllCloseOwn(all, Pairs(s, i)) || Loses(all, i, i + |Kinds(s)|)
    decreases s, 2
  {
    hide StackAt, DropBranches, Pairs, BranchPairs, AllCloseOwn, BranchKinds, Loses;
    match s {
      case Empty =>
      case Simple(kind, rest) =>
        PairsOfParts(all, s, i);
        SimpleLayout(all, s, i);
        DirtyRest(all, rest, i, i + 1);
      case Enclosed(head, body, rest) =>
        DirtyEnclosed(all, s, i);
      case IfOf(body, more, rest) =>
        IfLayout(all, s, i);
        DirtyIf(all, s, i);
    }
  }

  /** The script after a construct that left the stack as it was. */
  lemma {:induction false} DirtyRest(all: seq<Kind>, rest: Script, i: nat, j: nat)
    requires Proper(rest) && At(all, j, Kinds(rest)) && i <= j <= |all| && StackAt(all, i) == StackAt(all, j)
    requires !Clean(rest, DropBranches(StackAt(all, i)) != [])
    ensures j + |Kinds(rest)| <= |all|
    ensures !AllCloseOwn(all, Pairs(rest, j)) || Loses(all, i, j + |Kinds(rest)|)
    decreases rest, 3
  {
    hide StackAt, DropBranches, At, Pairs, BranchPairs, AllCloseOwn, Kinds, BranchKinds, Loses, ClosesOwn;
    DirtyRun(all, rest, j);
    var n := j + |Kinds(rest)|;
    if Loses(all, j, n) {
      LossSpreads(all, i, j, n, n);
    }
  }

  lemma EnclosedParts(s: Script, enclosed: bool)
    requires s.Enclosed? && Proper(s)
    ensures (IsLoop(s.head) || s.head == Case) && Proper(s.body) && Proper(s.rest)
    ensures Clean(s, enclosed) <==> Clean(s.body, true) && Clean(s.rest, enclosed)
  {
  }

  lemma {:induction false} DirtyEnclosed(all: seq<Kind>, s: Script, i: nat)
    requires s.Enclosed? && Proper(s) && At(all, i, Kinds(s))
    requires !Clean(s, DropBranches(StackAt(all, i)) != [])
    ensures i + |Kinds(s)| <= |all|
    ensures !AllCloseOwn(all, Pairs(s, i)) || Loses(all, i, i + |Kinds(s)|)
    decreases s, 1
  {
    hide *;
    AtBound(all, i, Kinds(s));
    EnclosedParts(s, DropBranches(StackAt(all, i)) != []);
    EnclosedLayout(all, s, i);
    PairsOfParts(all, s, i);
    if Clean(s.body, true) {
      CleanBody(all, s, i);
      DirtyRest(all, s.rest, i, i + 1 + |Kinds(s.body)| + 1);
    } else {
      DirtyBody(all, s.head, s.body, i);
    }
  }

  lemma {:induction false} DirtyBody(all: seq<Kind>, head: Kind, body: Script, i: nat)
    requires i < |all| && all[i] == head && (IsLoop(head) || head == Case)
    requires StackAt(all, i + 1) == StackAt(all, i) + [Open(i, TagOf(head))]
    requires Proper(body) && At(all, i + 1, Kinds(body)) && !Clean(body, true)
    ensures !AllCloseOwn(all, Pairs(body, i + 1)) || !ClosesOwn(all, (i, i + 1 + |Kinds(body)|))
    decreases body, 3
  {
    hide StackAt, DropBranches, At, Pairs, BranchPairs, AllCloseOwn, Kinds, BranchKinds, Loses, ClosesOwn;
    hide Pop, Push, TagOf, IsBranch;
    OpenerKept(StackAt(all, i), i, head);
    DirtyRun(all, body, i + 1);
    if Loses(all, i + 1, i + 1 + |Kinds(body)|) {
      HeadLost(all, head, i, i + 1 + |Kinds(body)|);
    }
  }

  /** A loop or case that is lost from the stack is not closed. */
  lemma {:induction false} HeadLost(all: seq<Kind>, head: Kind, i: nat, j: nat)
    requires i + 1 <= j <= |all| && all[i] == head && (IsLoop(head) || head == Case)
    requires StackAt(all, i + 1) == StackAt(all, i) + [Open(i, TagOf(head))] && Loses(all, i + 1, j)
    ensures !ClosesOwn(all, (i, j))
  {
    hide StackAt, DropBranches, Loses, ClosesOwn;
    TopLost(all, i, j, Open(i, TagOf(head)));
    LostIsNotClosed(all, i, j, TagOf(head));
  }

  lemma TopLost(all: seq<Kind>, i: nat, j: nat, o: Open)
    requires i + 1 <= j <= |all| && !IsBranch(o) && StackAt(all, i + 1) == StackAt(all, i) + [o]
    requires Loses(all, i + 1, j)
    ensures o !in StackAt(all, j)
  {
    DropPush(StackAt(all, i), o);
  }

  /** The body of a branch, inside a construct that ends at block n. */
  lemma {:induction false} DirtyBranchBody(all: seq<Kind>, body: Script, i: nat, n: nat)
    requires Proper(body) && At(all, i + 1, Kinds(body)) && i + 1 + |Kinds(body)| <= n <= |all|
    requires DropBranches(StackAt(all, i + 1)) == DropBranches(StackAt(all, i))
    requires !Clean(body, DropBranches(StackAt(all, i)) != [])
    ensures !AllCloseOwn(all, Pairs(body, i + 1)) || Loses(all, i, n)
    decreases body, 3
  {
    hide StackAt, DropBranches, At, Pairs, BranchPairs, AllCloseOwn, Kinds, BranchKinds, Loses, ClosesOwn;
    DirtyRun(all, body, i + 1);
    if Loses(all, i + 1, i + 1 + |Kinds(body)|) {
      LossSpreads(all, i, i + 1, i + 1 + |Kinds(body)|, n);
    }
  }

  lemma {:induction false} DirtyIf(all: seq<Kind>, s: Script, i: nat)
    requires s.IfOf? && Proper(s) && IfLaid(all, s, i)
    requires !Clean(s, DropBranches(StackAt(all, i)) != [])
    ensures i + |Kinds(s)| <= |all|
    ensures !AllCloseOwn(all, Pairs(s, i)) || Loses(all, i, i + |Kinds(s)|)
    decreases s, 1
  {
    hide StackAt, DropBranches, At, Pairs, BranchPairs, AllCloseOwn, Kinds, BranchKinds, Loses, ClosesOwn, Pop, Push, BranchOnTop;
    var stack, j := StackAt(all, i), i + 1 + |Kinds(s.body)|;
    PairsOfParts(all, s, i);
    if !Clean(s.body, DropBranches(stack) != []) {
      DirtyBranchBody(all, s.body, i, i + |Kinds(s)|);
    } else {
      CleanRun(all, s.body, i + 1);
      DropTwice(stack);
      DirtyAfterBody(all, s, i, j);
    }
  }

  /** An if with a clean body, seen from the ELIF, ELSE or FI after that. */
  lemma {:induction false} DirtyAfterBody(all: seq<Kind>, s: Script, i: nat, j: nat)
    requires s.IfOf? && Proper(s) && i <= j <= |all| && DropBranches(StackAt(all, i)) == DropBranches(StackAt(all, j))
    requires var k := j + |BranchKinds(s.more)|; At(all, j, BranchKinds(s.more)) && At(all, k, Kinds(s.rest))
    requires BeforeBranch(StackAt(all, j), HasIf(s.body))
    requires var e := DropBranches(StackAt(all, i)) != [];
      !CleanBranches(s.more, HasIf(s.body), e) || !Clean(s.rest, e)
    ensures var k := j + |BranchKinds(s.more)|;
      && k + |Kinds(s.rest)| <= |all|
      && (!AllCloseOwn(all, BranchPairs(s.more, j)) || !AllCloseOwn(all, Pairs(s.rest, k))
        || Loses(all, i, k + |Kinds(s.rest)|))
    decreases s, 0
  {
    hide StackAt, DropBranches, At, Pairs, BranchPairs, AllCloseOwn, Kinds, BranchKinds, Loses, ClosesOwn;
    var k := j + |BranchKinds(s.more)|;
    var n := k + |Kinds(s.rest)|;
    AtBound(all, k, Kinds(s.rest));
    DropTwice(StackAt(all, i));
    if !CleanBranches(s.more, HasIf(s.body), DropBranches(StackAt(all, i)) != []) {
      DirtyBranches(all, s.more, HasIf(s.body), j);
      if Loses(all, j, k) {
        LossSpreads(all, i, j, k, n);
      }
    } else {
      CleanBranchesRun(all, s.more, HasIf(s.body), j);
      DirtyRun(all, s.rest, k);
      if Loses(all, k, n) {
        LossSpreads(all, i, k, n, n);
      }
    }
  }

  lemma {:induction false} DirtyBranches(all: seq<Kind>, m: Branches, nested: bool, i: nat)
    requires ProperBranches(m) && At(all, i, BranchKinds(m)) && BeforeBranch(StackAt(all, i), nested)
    requires !CleanBranches(m, nested, DropBranches(StackAt(all, i)) != [])
    ensures i + |BranchKinds(m)| <= |all|
    ensures !AllCloseOwn(all, BranchPairs(m, i)) || Loses(all, i, i + |BranchKinds(m)|)
    decreases m, 1
  {
    hide StackAt, DropBranches, At, Pairs, BranchPairs, AllCloseOwn, Kinds, BranchKinds, Loses, ClosesOwn;
    AtBound(all, i, BranchKinds(m));
    match m {
      case End =>
      case ElifOf(_, _) =>
        DirtyElif(all, m, nested, i);
      case ElseOf(_) =>
        DirtyElse(all, m, nested, i);
    }
  }

  lemma {:induction false} DirtyElif(all: seq<Kind>, m: Branches, nested: bool, i: nat)
    requires m.ElifOf? && ProperBranches(m) && At(all, i, BranchKinds(m))
    requires !CleanBranches(m, nested, DropBranches(StackAt(all, i)) != [])
    ensures i + |BranchKinds(m)| <= |all|
    ensures !AllCloseOwn(all, BranchPairs(m, i)) || Loses(all, i, i + |BranchKinds(m)|)
    decreases m, 0
  {
    hide StackAt, DropBranches, At, Pairs, BranchPairs, AllCloseOwn, Kinds, BranchKinds, Loses, ClosesOwn;
    AtBound(all, i, BranchKinds(m));
    var stack, j, n := StackAt(all, i), i + 1 + |Kinds(m.body)|, i + |BranchKinds(m)|;
    BranchPairsOfParts(all, m, i);
    ElifLayout(all, m, i);
    if !Clean(m.body, DropBranches(stack) != []) {
      DirtyBranchBody(all, m.body, i, n);
    } else {
      CleanRun(all, m.body, i + 1);
      DropTwice(stack);
      DirtyBranches(all, m.more, HasIf(m.body), j);
      if Loses(all, j, n) {
        LossSpreads(all, i, j, n, n);
      }
    }
  }

  lemma {:induction false} DirtyElse(all: seq<Kind>, m: Branches, nested: bool, i: nat)
    requires m.ElseOf? && ProperBranches(m) && At(all, i, BranchKinds(m)) && BeforeBranch(StackAt(all, i), nested)
    requires !CleanBranches(m, nested, DropBranches(StackAt(all, i)) != [])
    ensures i + |BranchKinds(m)| <= |all|
    ensures !AllCloseOwn(all, BranchPairs(m, i)) || Loses(all, i, i + |BranchKinds(m)|)
    decreases m, 0
  {
    hide StackAt, DropBranches, At, Pairs, BranchPairs, AllCloseOwn, Kinds, BranchKinds, Loses, ClosesOwn;
    AtBound(all, i, BranchKinds(m));
    var stack, n := StackAt(all, i), i + |BranchKinds(m)|;
    BranchPairsOfParts(all, m, i);
    ElseLayout(all, m, i);
    if nested && DropBranches(stack) != [] {
      ElseLoses(all, i);
      KeepsLosing(all, i, i + 1, n);
    } else {
      ElseStack(stack, nested, i);
      DirtyBranchBody(all, m.body, i, n);
    }
  }

  /** After a nested if, ELSE pops the construct around both. */
  lemma {:induction false} ElseLoses(all: seq<Kind>, i: nat)
    requires i < |all| && all[i] == Else
    requires StackAt(all, i) == DropBranches(StackAt(all, i)) && StackAt(all, i) != []
    ensures Loses(all, i, i + 1)
  {
    hide DropBranches;
    StackEntries(all, i);
    var stack := StackAt(all, i);
    assert StackAt(all, i + 1) == Pop(stack) + [Open(i, ElseTag)];
    var now, top := StackAt(all, i + 1), stack[|stack| - 1];
    assert forall k :: 0 <= k < |now| ==> now[k].block != top.block;
  }

  // ----- the block list of a script -----

  function KindsOf(blocks: seq<Block>): (r: seq<Kind>)
    ensures |r| == |blocks| && forall k :: 0 <= k < |blocks| ==> r[k] == blocks[k].kind
  {
    seq(|blocks|, k requires 0 <= k < |blocks| => blocks[k].kind)
  }

  /** The blocks of commands that make up script s: block k starts with a command of type
      Kinds(s)[k]. */
  ghost predicate BlocksOf(s: Script, commands: seq<Command>, leaders: set<nat>, blocks: seq<Block>) {
    && IsPartition(commands, leaders, blocks) && |Kinds(s)| == |blocks|
    && forall k :: 0 <= k < |blocks| ==> blocks[k].commands[0].kind == Kinds(s)[k]
  }

  /** Their types: all but the first are those of the script. */
  lemma TypesOfBlocks(s: Script, commands: seq<Command>, leaders: set<nat>, blocks: seq<Block>)
    requires BlocksOf(s, commands, leaders, blocks) && blocks != []
    ensures KindsOf(blocks) == [General] + Kinds(s)[1..]
  {
    hide CutAt, Commands, Kinds;
  }

  lemma NothingOpen(all: seq<Kind>, n: nat)
    requires 1 <= n <= |all| && all[0] == General
    ensures StackAt(all, 1) == [] && DropBranches(StackAt(all, 1)) == [] && !Loses(all, 1, n)
  {
    assert StackAt(all, 0) == [];
  }

  /** The first block is never on the stack. */
  lemma FirstNotClosed(all: seq<Kind>, j: nat)
    requires all != [] && all[0] == General
    ensures !ClosesOwn(all, (0, j))
  {
    if j <= |all| {
      StackEntries(all, j);
    }
  }

  /** A script that starts with a general command: the rest runs on an empty stack. */
  lemma AfterFirst(s: Script, all: seq<Kind>, rest: Script)
    requires s.Simple? && Proper(s) && rest == s.rest && all == [General] + Kinds(rest)
    ensures AllCloseOwn(all, Pairs(s, 0)) <==> Clean(s, false)
  {
    hide StackAt, DropBranches, AllCloseOwn, Loses, Kinds;
    AtTail(all, Kinds(rest));
    NothingOpen(all, |all|);
    if Clean(rest, false) {
      CleanRun(all, rest, 1);
    } else {
      DirtyRun(all, rest, 1);
    }
  }

  /** A script that starts with an if, which the first block does not open. */
  lemma FromFirstIf(s: Script, all: seq<Kind>)
    requires s.IfOf? && Proper(s)
    requires all == [General] + (Kinds(s.body) + (BranchKinds(s.more) + Kinds(s.rest)))
    ensures AllCloseOwn(all, Pairs(s, 0)) <==> Clean(s, false)
  {
    hide StackAt, DropBranches, AllCloseOwn, Loses, At, Pairs, Clean;
    FirstIfLaid(s, all);
    NothingOpen(all, |all|);
    if Clean(s, false) {
      CleanIf(all, s, 0);
    } else {
      DirtyIf(all, s, 0);
      NothingLost(all, |all|);
    }
  }

  lemma NothingLost(all: seq<Kind>, n: nat)
    requires n <= |all|
    ensures !Loses(all, 0, n) && DropBranches(StackAt(all, 0)) == []
  {
  }

  lemma AtTail(all: seq<Kind>, part: seq<Kind>)
    requires all == [General] + part
    ensures At(all, 1, part)
  {
    assert all[1..1 + |part|] == part;
  }

  lemma FirstIfLaid(s: Script, all: seq<Kind>)
    requires s.IfOf? && all == [General] + (Kinds(s.body) + (BranchKinds(s.more) + Kinds(s.rest)))
    ensures IfLaid(all, s, 0) && DropBranches(StackAt(all, 0)) == []
  {
    hide StackAt, DropBranches, At, Loses;
    var tail := BranchKinds(s.more) + Kinds(s.rest);
    AtTail(all, Kinds(s.body) + tail);
    assert [If] + Kinds(s.body) + tail == [If] + (Kinds(s.body) + tail);
    AtSplit(all, 1, Kinds(s.body), tail);
    AtSplit(all, 1 + |Kinds(s.body)|, BranchKinds(s.more), Kinds(s.rest));
    NothingOpen(all, |all|);
    NothingLost(all, |all|);
  }

  /** In a well-nested script every DONE and ESAC closes its own construct exactly when the
      script does not start with a loop or case and, inside loops and cases, no else follows a
      branch in which an if stands directly. */
  lemma CloseOwnIff(s: Script, commands: seq<Command>, leaders: set<nat>, blocks: seq<Block>)
    requires Proper(s) && BlocksOf(s, commands, leaders, blocks)
    ensures AllCloseOwn(KindsOf(blocks), Pairs(s, 0)) <==> Clean(s, false) && !s.Enclosed?
  {
    hide StackAt, ClosesOwn, IsPartition;
    var all := KindsOf(blocks);
    if blocks != [] {
      TypesOfBlocks(s, commands, leaders, blocks);
      TailOfKinds(s);
      match s {
        case Simple(_, rest) =>
          AfterFirst(s, all, rest);
        case Enclosed(_, body, _) =>
          FirstNotClosed(all, 1 + |Kinds(body)|);
          assert (0, 1 + |Kinds(body)|) in Pairs(s, 0);
        case IfOf(_, _, _) =>
          FromFirstIf(s, all);
      }
    }
  }

  /** The script after its first command. */
  lemma TailOfKinds(s: Script)
    requires Kinds(s) != []
    ensures s.Simple? ==> Kinds(s)[1..] == Kinds(s.rest)
    ensures s.IfOf? ==> Kinds(s)[1..] == Kinds(s.body) + (BranchKinds(s.more) + Kinds(s.rest))
    ensures !s.Empty?
  {
  }

  // ----- failing inputs -----

  /** Where every command is a leader, the block types are the command types, but the first. */
  method BlocksOfLeaders(commands: seq<Command>) returns (blocks: seq<Block>)
    requires commands != [] && forall i: nat :: i < |commands| ==> IsLeader(commands, i)
    ensures |blocks| == |commands| && blocks[0].kind == General
    ensures forall k :: 0 < k < |blocks| ==> blocks[k].kind == commands[k].kind
  {
    var leaders := IdentifyLeaders(commands);
    blocks := ConstructBasicBlocks(commands, leaders);
    assert blocks[..|blocks|] == blocks;
    LeadersAlone(commands, leaders, blocks, |blocks|);
  }

  /** x; for; if; if; fi; else; fi; done: the loop is not on the stack at DONE. */
  method ElseAfterNestedIf() returns (kinds: seq<Kind>)
    ensures kinds == [General, For, If, If, Fi, Else, Fi, Done] && !ClosesOwn(kinds, (1, 7))
  {
    var commands := [Command(General, "x"), Command(For, "for"), Command(If, "if"), Command(If, "if"),
      Command(Fi, "fi"), Command(Else, "else"), Command(Fi, "fi"), Command(Done, "done")];
    var blocks := BlocksOfLeaders(commands);
    kinds := KindsOf(blocks);
    NestedIfStack(kinds);
  }

  lemma NestedIfStack(kinds: seq<Kind>)
    requires kinds == [General, For, If, If, Fi, Else, Fi, Done]
    ensures StackAt(kinds, 7) == []
  {
    hide StackAt, DropBranches;
    OpenIfs(kinds);
    DropPush([Open(1, LoopTag)] + [Open(2, IfTag)], Open(3, IfTag));
    DropPush([Open(1, LoopTag)], Open(2, IfTag));
    DropPush([], Open(1, LoopTag));
    StackStep(kinds, 4);
    assert StackAt(kinds, 5) == [Open(1, LoopTag)];
    StackStep(kinds, 5);
    assert StackAt(kinds, 6) == [] + [Open(5, ElseTag)];
    StackStep(kinds, 6);
    DropPush([], Open(5, ElseTag));
    NothingLost(kinds, 0);
  }

  lemma OpenIfs(kinds: seq<Kind>)
    requires |kinds| > 4 && kinds[..4] == [General, For, If, If]
    ensures StackAt(kinds, 4) == [Open(1, LoopTag)] + [Open(2, IfTag)] + [Open(3, IfTag)]
  {
    hide StackAt, DropBranches;
    assert forall i :: 0 <= i < 4 ==> kinds[i] == kinds[..4][i];
    NothingOpen(kinds, 1);
    StackStep(kinds, 1);
    StackStep(kinds, 2);
    StackStep(kinds, 3);
  }

  lemma StackStep(kinds: seq<Kind>, i: nat)
    requires i < |kinds|
    ensures StackAt(kinds, i + 1) == Push(StackAt(kinds, i), i, kinds[i])
  {
  }

  /** for; x; done: the first block opens no loop, and the graph has no edge from it to DONE. */
  method LeadingLoopIsLost() returns (kinds: seq<Kind>, r: Result)
    ensures kinds == [General, General, Done] && !ClosesOwn(kinds, (0, 2))
    ensures r.Cfg? && (0, 2) !in r.edges
  {
    var commands := [Command(For, "for"), Command(General, "x"), Command(Done, "done")];
    var blocks := BlocksOfLeaders(commands);
    kinds := KindsOf(blocks);
    r := BuildCfg(kinds);
    NothingOpen(kinds, 1);
    StackStep(kinds, 1);
  }
}
