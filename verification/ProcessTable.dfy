/** The fork/exec bookkeeping that rebuilds a process tree from a trace (LogPreprocessing). */
module ProcessTable {
  import opened Options
  import opened Digraph

  /** One recognised trace line. `Fork` is a line in the regular format, whose return value may
      not be a number; `RawFork` one in another format, whose child was dug out of the text. */
  datatype Event =
    | Execve(pid: int, target: string, error: bool)
    | Fork(pid: int, retval: Option<int>)
    | RawFork(pid: int, child: int)
    | Other(pid: int, segv: bool)

  type Trace = seq<Event>

  datatype Root = Root(pid: int, binary: string)

  datatype Proc = Proc(binary: string, logs: seq<Event>, segfaulted: bool)

  const UNKNOWN := "unknown"

  // ----- what a trace says -----

  /** The child that an event registers. */
  function ChildOf(e: Event): Option<int> {
    match e
    case Fork(_, Some(c)) => if c > 0 then Some(c) else None
    case RawFork(_, c) => Some(c)
    case _ => None
  }

  predicate Execs(e: Event, p: int) {
    e.Execve? && e.pid == p && e.target != "" && !e.error
  }

  /** The last event that forked p, or -1. */
  function LastFork(trace: Trace, p: int): (k: int)
    ensures -1 <= k < |trace|
    ensures k >= 0 ==> ChildOf(trace[k]) == Some(p)
    ensures forall i :: k < i < |trace| ==> ChildOf(trace[i]) != Some(p)
  {
    if trace == [] then -1
    else if ChildOf(trace[|trace| - 1]) == Some(p) then |trace| - 1
    else LastFork(trace[..|trace| - 1], p)
  }

  /** The last event that successfully replaced p's binary, or -1. */
  function LastExec(trace: Trace, p: int): (k: int)
    ensures -1 <= k < |trace|
    ensures k >= 0 ==> Execs(trace[k], p)
    ensures forall i :: k < i < |trace| ==> !Execs(trace[i], p)
  {
    if trace == [] then -1
    else if Execs(trace[|trace| - 1], p) then |trace| - 1
    else LastExec(trace[..|trace| - 1], p)
  }

  /** Attribution by history: the target of p's latest successful execve since its last fork,
      or else the binary its parent had at that fork. With `fallback`, a parent of which
      nothing is known is replaced by the root process. */
  function Binary(root: Root, trace: Trace, p: int, fallback: bool): Option<string>
    decreases |trace|
  {
    var f, x := LastFork(trace, p), LastExec(trace, p);
    if x > f then Some(trace[x].target)
    else if f < 0 then (if p == root.pid then Some(root.binary) else None)
    else
      var b := Binary(root, trace[..f], trace[f].pid, fallback);
      if b.None? && fallback then Binary(root, trace[..f], root.pid, fallback) else b
  }

  function Named(b: Option<string>): string {
    if b.Some? then b.value else UNKNOWN
  }

  predicate Mentions(e: Event, p: int) {
    e.pid == p || ChildOf(e) == Some(p)
  }

  predicate Seen(root: Root, trace: Trace, p: int) {
    p == root.pid || exists e :: e in trace && Mentions(e, p)
  }

  /** The process an event is filed under. */
  function FiledUnder(root: Root, trace: Trace, e: Event): int {
    if e.RawFork? && Binary(root, trace, e.pid, true).None? then root.pid else e.pid
  }

  function LogOf(root: Root, trace: Trace, p: int): seq<Event> {
    if trace == [] then []
    else
      var rest, e := trace[..|trace| - 1], trace[|trace| - 1];
      LogOf(root, rest, p) + if FiledUnder(root, rest, e) == p then [e] else []
  }

  function ChildrenOf(trace: Trace, p: int): seq<int> {
    if trace == [] then []
    else
      var rest, e := trace[..|trace| - 1], trace[|trace| - 1];
      ChildrenOf(rest, p) + if e.pid == p && ChildOf(e).Some? then [ChildOf(e).value] else []
  }

  // ----- one more event -----

  lemma LastSnoc(trace: Trace, e: Event, p: int)
    ensures LastFork(trace + [e], p) == if ChildOf(e) == Some(p) then |trace| else LastFork(trace, p)
    ensures LastExec(trace + [e], p) == if Execs(e, p) then |trace| else LastExec(trace, p)
  {
    assert (trace + [e])[..|trace|] == trace;
  }

  lemma BinarySnoc(root: Root, trace: Trace, e: Event, p: int, fallback: bool)
    ensures var now := Binary(root, trace + [e], p, fallback);
      if Execs(e, p) then now == Some(e.target)
      else if ChildOf(e) == Some(p) then
        var b := Binary(root, trace, e.pid, fallback);
        now == if b.None? && fallback then Binary(root, trace, root.pid, fallback) else b
      else now == Binary(root, trace, p, fallback)
  {
    var t := trace + [e];
    LastSnoc(trace, e, p);
    var f := LastFork(t, p);
    if f >= 0 {
      assert t[..f] == trace[..f];
      assert f == |trace| ==> trace[..f] == trace;
    }
  }

  lemma {:induction false} RootKnown(root: Root, trace: Trace)
    ensures Binary(root, trace, root.pid, true).Some?
    decreases |trace|
  {
    var f := LastFork(trace, root.pid);
    if f >= 0 {
      RootKnown(root, trace[..f]);
    }
  }

  lemma {:induction false} UnseenLog(root: Root, trace: Trace, p: int)
    requires !Seen(root, trace, p)
    ensures LogOf(root, trace, p) == []
  {
    if trace != [] {
      assert trace[|trace| - 1] in trace;
      UnseenLog(root, trace[..|trace| - 1], p);
    }
  }

  lemma UnseenDefaults(root: Root, trace: Trace, p: int)
    ensures !Seen(root, trace, p) ==>
      Binary(root, trace, p, false).None? && LogOf(root, trace, p) == [] && Other(p, true) !in trace
  {
    if !Seen(root, trace, p) {
      UnseenLog(root, trace, p);
      assert forall k :: 0 <= k < |trace| ==> trace[k] in trace;
      assert LastFork(trace, p) == -1 && LastExec(trace, p) == -1;
    }
  }

  lemma FiledSeen(root: Root, trace: Trace, e: Event)
    ensures FiledUnder(root, trace, e) == e.pid || FiledUnder(root, trace, e) == root.pid
    ensures !e.RawFork? ==> FiledUnder(root, trace, e) == e.pid
    ensures Seen(root, trace, root.pid)
  {
  }

  lemma SeenSnoc(root: Root, trace: Trace, e: Event, p: int)
    ensures Seen(root, trace + [e], p) <==> Seen(root, trace, p) || Mentions(e, p)
  {
    if Mentions(e, p) {
      assert e in trace + [e];
    }
  }

  lemma ListsSnoc(root: Root, trace: Trace, e: Event, p: int)
    ensures LogOf(root, trace + [e], p) ==
      LogOf(root, trace, p) + if FiledUnder(root, trace, e) == p then [e] else []
    ensures ChildrenOf(trace + [e], p) ==
      ChildrenOf(trace, p) + if e.pid == p && ChildOf(e).Some? then [ChildOf(e).value] else []
  {
    assert (trace + [e])[..|trace|] == trace;
  }

  // ----- the tables -----

  class LogPreprocessing {
    const root: Root
    var processInfo: map<int, Proc>
    var processMap: map<int, string>
    var parentMap: map<int, int>
    var parentToChildren: map<int, seq<int>>
    var childToParent: map<int, int>

    constructor (root: Root)
      ensures this.root == root && Describes([])
    {
      this.root := root;
      processInfo := map[root.pid := Proc(root.binary, [], false)];
      processMap := map[root.pid := root.binary];
      parentMap, parentToChildren, childToParent := map[], map[], map[];
    }

    /** All five tables say exactly what the trace says. */
    ghost predicate Describes(trace: Trace)
      reads this
    {
      && InfoDescribes(root, processInfo, trace)
      && MapDescribes(root, processMap, trace)
      && parentMap == childToParent
      && ParentsDescribe(childToParent, trace)
      && ChildrenDescribe(parentToChildren, trace)
    }

    /** Looks a process up, registering it with an unknown binary when it is new. */
    method GetProc(pid: int) returns (proc: Proc)
      modifies this`processInfo
      ensures proc == if pid in old(processInfo) then old(processInfo)[pid] else Proc(UNKNOWN, [], false)
      ensures processInfo == old(processInfo)[pid := proc]
    {
      if pid !in processInfo {
        processInfo := processInfo[pid := Proc(UNKNOWN, [], false)];
      }
      proc := processInfo[pid];
    }

    method HandleChildProcess(parent: int, child: int)
      modifies this`processInfo, this`parentToChildren, this`childToParent
      ensures processInfo == WithChild(old(processInfo), parent, child)
      ensures parentToChildren == Appended(old(parentToChildren), parent, child)
      ensures childToParent == old(childToParent)[child := parent]
    {
      hide WithChild, Appended;
      ghost var info, lists := processInfo, parentToChildren;
      var parentRec := GetProc(parent);
      var childRec := GetProc(child);
      processInfo := processInfo[child := childRec.(binary := parentRec.binary)];
      WithChildIs(info, parent, child, parentRec, childRec);
      AppendedIs(lists, parent, child);
      if parent !in parentToChildren {
        parentToChildren := parentToChildren[parent := []];
      }
      parentToChildren := parentToChildren[parent := parentToChildren[parent] + [child]];
      childToParent := childToParent[child := parent];
    }

    /** The fork branches: registers the child everywhere and says where the event belongs. */
    method HandleFork(parent: int, child: int) returns (known: int)
      requires root.pid in processMap
      modifies this
      ensures processInfo == WithChild(old(processInfo), parent, child)
      ensures parentToChildren == Appended(old(parentToChildren), parent, child)
      ensures childToParent == old(childToParent)[child := parent]
      ensures parentMap == old(parentMap)[child := parent]
      ensures known == if parent in old(processMap) then parent else root.pid
      ensures processMap == old(processMap)[child := old(processMap)[known]]
    {
      HandleChildProcess(parent, child);
      parentMap := parentMap[child := parent];
      known := parent;
      if known !in processMap {
        known := root.pid;
      }
      processMap := processMap[child := processMap[known]];
    }

    /** The branches of the event loop; returns the process the event belongs to. */
    method Dispatch(e: Event) returns (filedUnder: int)
      requires root.pid in processMap
      modifies this
      ensures processInfo == InfoHandled(old(processInfo), e)
      ensures processMap == MapAfter(root, old(processMap), e)
      ensures childToParent == ParentsAfter(old(childToParent), e)
      ensures parentMap == ParentsAfter(old(parentMap), e)
      ensures parentToChildren == ChildrenAfter(old(parentToChildren), e)
      ensures filedUnder == if e.RawFork? && e.pid !in old(processMap) then root.pid else e.pid
    {
      filedUnder := e.pid;
      match e {
        case Execve(pid, target, error) =>
          if target != "" && !error {
            var proc := GetProc(pid);
            processInfo := processInfo[pid := proc.(binary := target)];
            processMap := processMap[pid := target];
          }
        case Fork(pid, retval) =>
          if retval.Some? && retval.value > 0 {
            var _ := HandleFork(pid, retval.value);
          }
        case RawFork(pid, child) =>
          filedUnder := HandleFork(pid, child);
        case Other(_, _) =>
      }
    }

    method HandleEvent(e: Event, ghost trace: Trace)
      requires Describes(trace)
      modifies this
      ensures Describes(trace + [e])
    {
      hide InfoDescribes, MapDescribes, ParentsDescribe, ChildrenDescribe, FiledUnder, MapAfter, ParentsAfter, ChildrenAfter;
      InfoStep(root, processInfo, trace, e);
      MapStep(root, processMap, trace, e);
      ParentsStep(childToParent, trace, e);
      ChildrenStep(parentToChildren, trace, e);
      var filedUnder := Dispatch(e);
      var proc := GetProc(filedUnder);
      processInfo := processInfo[filedUnder := Filed(proc, e)];
      assert processInfo == InfoAfter(root, old(processInfo), trace, e);
    }

    method ParseFiles(trace: Trace)
      requires Describes([])
      modifies this
      ensures Describes(trace) && childToParent == ParentsOf(trace)
    {
      hide InfoDescribes, MapDescribes, ParentsDescribe, ChildrenDescribe;
      for i := 0 to |trace|
        invariant Describes(trace[..i])
      {
        HandleEvent(trace[i], trace[..i]);
        assert trace[..i + 1] == trace[..i] + [trace[i]];
      }
      assert trace[..|trace|] == trace;
      ParentsUnique(childToParent, trace);
    }
  }

  function WithProc(info: map<int, Proc>, p: int): map<int, Proc> {
    if p in info then info else info[p := Proc(UNKNOWN, [], false)]
  }

  function WithChild(info: map<int, Proc>, parent: int, child: int): map<int, Proc> {
    var both := WithProc(WithProc(info, parent), child);
    both[child := both[child].(binary := both[parent].binary)]
  }

  function Appended(m: map<int, seq<int>>, parent: int, child: int): map<int, seq<int>> {
    m[parent := (if parent in m then m[parent] else []) + [child]]
  }

  lemma WithChildIs(info: map<int, Proc>, parent: int, child: int, p: Proc, c: Proc)
    requires p == if parent in info then info[parent] else Proc(UNKNOWN, [], false)
    requires c == var known := info[parent := p]; if child in known then known[child] else Proc(UNKNOWN, [], false)
    ensures info[parent := p][child := c][child := c.(binary := p.binary)] == WithChild(info, parent, child)
  {
    assert WithProc(info, parent) == info[parent := p];
    assert WithProc(info[parent := p], child) == info[parent := p][child := c];
  }

  lemma AppendedIs(m: map<int, seq<int>>, parent: int, child: int)
    ensures var all := if parent in m then m else m[parent := []];
      all[parent := all[parent] + [child]] == Appended(m, parent, child)
  {
    if parent !in m {
      assert [] + [child] == [child];
      assert m[parent := []][parent := [child]] == m[parent := [child]];
    }
  }

  function Filed(proc: Proc, e: Event): Proc {
    proc.(logs := proc.logs + [e], segfaulted := proc.segfaulted || (e.Other? && e.segv))
  }

  function InfoHandled(info: map<int, Proc>, e: Event): map<int, Proc> {
    if Execs(e, e.pid) then
      var all := WithProc(info, e.pid);
      all[e.pid := all[e.pid].(binary := e.target)]
    else if ChildOf(e).Some? then WithChild(info, e.pid, ChildOf(e).value)
    else info
  }

  function InfoAfter(root: Root, info: map<int, Proc>, trace: Trace, e: Event): map<int, Proc> {
    var p := FiledUnder(root, trace, e);
    var all := WithProc(InfoHandled(info, e), p);
    all[p := Filed(all[p], e)]
  }

  function MapAfter(root: Root, m: map<int, string>, e: Event): map<int, string>
    requires root.pid in m
  {
    if Execs(e, e.pid) then m[e.pid := e.target]
    else if ChildOf(e).Some? then m[ChildOf(e).value := m[if e.pid in m then e.pid else root.pid]]
    else m
  }

  function ParentsAfter(m: map<int, int>, e: Event): map<int, int> {
    if ChildOf(e).Some? then m[ChildOf(e).value := e.pid] else m
  }

  function ChildrenAfter(m: map<int, seq<int>>, e: Event): map<int, seq<int>> {
    if ChildOf(e).Some? then Appended(m, e.pid, ChildOf(e).value) else m
  }

  function ProcOf(info: map<int, Proc>, p: int): Proc {
    if p in info then info[p] else Proc(UNKNOWN, [], false)
  }

  lemma InfoHandledAt(info: map<int, Proc>, e: Event, p: int)
    ensures p in InfoHandled(info, e) <==> p in info || Execs(e, p) || (ChildOf(e).Some? && Mentions(e, p))
    ensures ProcOf(InfoHandled(info, e), p) == ProcOf(info, p).(binary :=
      if Execs(e, p) then e.target
      else if ChildOf(e) == Some(p) then ProcOf(info, e.pid).binary
      else ProcOf(info, p).binary)
  {
  }

  lemma InfoAfterAt(root: Root, info: map<int, Proc>, trace: Trace, e: Event, p: int)
    ensures p in InfoAfter(root, info, trace, e) <==> p in info || Mentions(e, p) || p == FiledUnder(root, trace, e)
    ensures ProcOf(InfoAfter(root, info, trace, e), p) ==
      if p == FiledUnder(root, trace, e) then Filed(ProcOf(InfoHandled(info, e), p), e)
      else ProcOf(InfoHandled(info, e), p)
  {
    hide InfoHandled, FiledUnder;
    FiledSeen(root, trace, e);
    InfoHandledAt(info, e, p);
  }

  lemma InfoStep(root: Root, info: map<int, Proc>, trace: Trace, e: Event)
    requires InfoDescribes(root, info, trace)
    ensures InfoDescribes(root, InfoAfter(root, info, trace, e), trace + [e])
  {
    hide Seen, Binary, LogOf, FiledUnder, InfoAfter, InfoHandled;
    var now := InfoAfter(root, info, trace, e);
    FiledSeen(root, trace, e);
    forall p
      ensures p in now <==> Seen(root, trace + [e], p)
      ensures p in now ==> now[p].binary == Named(Binary(root, trace + [e], p, false))
      ensures p in now ==> now[p].logs == LogOf(root, trace + [e], p)
      ensures p in now ==> (now[p].segfaulted <==> Other(p, true) in trace + [e])
    {
      InfoAfterAt(root, info, trace, e, p);
      InfoHandledAt(info, e, p);
      SeenSnoc(root, trace, e, p);
      BinarySnoc(root, trace, e, p, false);
      ListsSnoc(root, trace, e, p);
      UnseenDefaults(root, trace, p);
      UnseenDefaults(root, trace, e.pid);
    }
  }

  lemma MapStep(root: Root, m: map<int, string>, trace: Trace, e: Event)
    requires MapDescribes(root, m, trace)
    ensures root.pid in m
    ensures FiledUnder(root, trace, e) == if e.RawFork? && e.pid !in m then root.pid else e.pid
    ensures MapDescribes(root, MapAfter(root, m, e), trace + [e])
  {
    hide Binary;
    RootKnown(root, trace);
    var now := MapAfter(root, m, e);
    forall p
      ensures p in now <==> Binary(root, trace + [e], p, true).Some?
      ensures p in now ==> Binary(root, trace + [e], p, true) == Some(now[p])
    {
      BinarySnoc(root, trace, e, p, true);
    }
  }

  lemma ParentsStep(m: map<int, int>, trace: Trace, e: Event)
    requires ParentsDescribe(m, trace)
    ensures ParentsDescribe(ParentsAfter(m, e), trace + [e])
  {
    forall c {
      LastSnoc(trace, e, c);
    }
  }

  lemma ChildrenStep(m: map<int, seq<int>>, trace: Trace, e: Event)
    requires ChildrenDescribe(m, trace)
    ensures ChildrenDescribe(ChildrenAfter(m, e), trace + [e])
  {
    hide ChildrenOf, LogOf;
    var now := ChildrenAfter(m, e);
    forall p
      ensures p in now <==> ChildrenOf(trace + [e], p) != []
      ensures p in now ==> now[p] == ChildrenOf(trace + [e], p)
    {
      ListsSnoc(Root(0, ""), trace, e, p);
    }
  }

  ghost predicate InfoDescribes(root: Root, info: map<int, Proc>, trace: Trace) {
    && (forall p :: p in info <==> Seen(root, trace, p))
    && forall p :: p in info ==>
      && info[p].binary == Named(Binary(root, trace, p, false))
      && info[p].logs == LogOf(root, trace, p)
      && (info[p].segfaulted <==> Other(p, true) in trace)
  }

  ghost predicate MapDescribes(root: Root, m: map<int, string>, trace: Trace) {
    && (forall p :: p in m <==> Binary(root, trace, p, true).Some?)
    && forall p :: p in m ==> Binary(root, trace, p, true) == Some(m[p])
  }

  ghost predicate ParentsDescribe(m: map<int, int>, trace: Trace) {
    && (forall c :: c in m <==> LastFork(trace, c) >= 0)
    && forall c :: c in m ==> m[c] == trace[LastFork(trace, c)].pid
  }

  ghost predicate ChildrenDescribe(m: map<int, seq<int>>, trace: Trace) {
    && (forall p :: p in m <==> ChildrenOf(trace, p) != [])
    && forall p :: p in m ==> m[p] == ChildrenOf(trace, p)
  }

  // ----- when the two attributions agree -----

  /** Wherever process_map knows a process, process_info names the same binary. */
  ghost predicate Agrees(root: Root, trace: Trace) {
    forall p :: Binary(root, trace, p, true).Some? ==>
      Named(Binary(root, trace, p, false)) == Binary(root, trace, p, true).value
  }

  /** A fork by a process that process_map does not know, while the root's binary is known. */
  predicate ForeignFork(root: Root, trace: Trace, e: Event) {
    && ChildOf(e).Some?
    && Binary(root, trace, e.pid, true).None?
    && Binary(root, trace, root.pid, true) != Some(UNKNOWN)
  }

  lemma {:induction false} UnknownInBoth(root: Root, trace: Trace, p: int)
    requires Binary(root, trace, p, true).None?
    ensures Binary(root, trace, p, false).None?
  {
    var f := LastFork(trace, p);
    if f >= 0 {
      RootKnown(root, trace[..f]);
    }
  }

  /** One event keeps the agreement exactly when it is no such fork. */
  lemma AgreementStep(root: Root, trace: Trace, e: Event)
    requires Agrees(root, trace)
    ensures Agrees(root, trace + [e]) <==> !ForeignFork(root, trace, e)
  {
    hide Binary;
    RootKnown(root, trace);
    if Binary(root, trace, e.pid, true).None? {
      UnknownInBoth(root, trace, e.pid);
    }
    if ForeignFork(root, trace, e) {
      BinarySnoc(root, trace, e, ChildOf(e).value, true);
      BinarySnoc(root, trace, e, ChildOf(e).value, false);
    } else {
      forall p | Binary(root, trace + [e], p, true).Some?
        ensures Named(Binary(root, trace + [e], p, false)) == Binary(root, trace + [e], p, true).value
      {
        BinarySnoc(root, trace, e, p, true);
        BinarySnoc(root, trace, e, p, false);
      }
    }
  }

  /** Over whole traces: process_info and process_map attribute alike when every forking
      process is known at its fork. */
  lemma {:induction false} KnownForksAgree(root: Root, trace: Trace)
    requires forall k :: 0 <= k < |trace| && ChildOf(trace[k]).Some? ==>
      Binary(root, trace[..k], trace[k].pid, true).Some?
    ensures Agrees(root, trace)
    decreases |trace|
  {
    hide Binary;
    if trace == [] {
      InitiallyAgree(root);
    } else {
      var rest, e := trace[..|trace| - 1], trace[|trace| - 1];
      assert trace == rest + [e];
      forall k | 0 <= k < |rest| ensures rest[..k] == trace[..k] && rest[k] == trace[k] {
      }
      KnownForksAgree(root, rest);
      AgreementStep(root, rest, e);
    }
  }

  /** And exactly: the two agree after every event if and only if no such fork occurs. */
  lemma {:induction false} AgreesThroughoutIff(root: Root, trace: Trace)
    ensures (forall n :: 0 <= n <= |trace| ==> Agrees(root, trace[..n])) <==>
      (forall k :: 0 <= k < |trace| ==> !ForeignFork(root, trace[..k], trace[k]))
    decreases |trace|
  {
    hide Agrees, ForeignFork;
    if trace == [] {
      InitiallyAgree(root);
    } else {
      var n := |trace| - 1;
      AgreesThroughoutIff(root, trace[..n]);
      assert forall k :: 0 <= k <= n ==> trace[..n][..k] == trace[..k];
      assert forall k :: 0 <= k < n ==> trace[..n][k] == trace[k];
      assert trace[..n + 1] == trace == trace[..n] + [trace[n]];
      if Agrees(root, trace[..n]) {
        AgreementStep(root, trace[..n], trace[n]);
      }
    }
  }

  /** A process that no other line has mentioned forks, after a line of the initial process:
      the attributions of its child differ. */
  lemma UnknownForkerDisagrees()
    ensures var root, t := Root(1, "httpd"), [Other(1, false), Fork(9, Some(10))];
      Binary(root, t, 10, true) == Some("httpd") && Binary(root, t, 10, false) == None && !Agrees(root, t)
  {
    var root, o, e := Root(1, "httpd"), Other(1, false), Fork(9, Some(10));
    assert [] + [o] == [o] && [o] + [e] == [o, e];
    forall p: int, fallback: bool ensures Binary(root, [o], p, fallback) == Binary(root, [], p, fallback) {
      BinarySnoc(root, [], o, p, fallback);
    }
    assert Binary(root, [], 9, true) == None && Binary(root, [], 9, false) == None;
    assert Binary(root, [], 1, true) == Some("httpd");
    BinarySnoc(root, [o], e, 10, true);
    BinarySnoc(root, [o], e, 10, false);
  }

  lemma InitiallyAgree(root: Root)
    ensures Agrees(root, [])
  {
  }

  // ----- ancestry -----

  /** A child's recorded parent lists it. */
  lemma {:induction false} ChildListed(trace: Trace, c: int)
    requires LastFork(trace, c) >= 0
    ensures c in ChildrenOf(trace, trace[LastFork(trace, c)].pid)
  {
    var rest, e := trace[..|trace| - 1], trace[|trace| - 1];
    if ChildOf(e) != Some(c) {
      ChildListed(rest, c);
    }
  }

  /** Whoever lists c forked it at some point of the trace. */
  lemma {:induction false} ListedWasForked(trace: Trace, p: int, c: int) returns (k: nat)
    requires c in ChildrenOf(trace, p)
    ensures k < |trace| && trace[k].pid == p && ChildOf(trace[k]) == Some(c)
  {
    var rest, e := trace[..|trace| - 1], trace[|trace| - 1];
    if e.pid == p && ChildOf(e) == Some(c) {
      return |trace| - 1;
    }
    k := ListedWasForked(rest, p, c);
  }

  lemma {:induction false} ForkIsListed(trace: Trace, k: nat)
    requires k < |trace| && ChildOf(trace[k]).Some?
    ensures ChildOf(trace[k]).value in ChildrenOf(trace, trace[k].pid)
  {
    if k < |trace| - 1 {
      ForkIsListed(trace[..|trace| - 1], k);
    }
  }

  /** No process is forked twice. Its own lines may come before its fork. */
  predicate ForkedAtMostOnce(trace: Trace) {
    forall j, k :: 0 <= j < k < |trace| && ChildOf(trace[j]).Some? ==> ChildOf(trace[j]) != ChildOf(trace[k])
  }

  /** p's list names each child once, and only children whose recorded parent is p. */
  ghost predicate ListsOwnOnce(trace: Trace, p: int) {
    && Distinct(ChildrenOf(trace, p))
    && forall c :: c in ChildrenOf(trace, p) ==> LastFork(trace, c) >= 0 && trace[LastFork(trace, c)].pid == p
  }

  lemma {:induction false} OnceForkedOnceListed(trace: Trace, p: int)
    requires ForkedAtMostOnce(trace)
    ensures ListsOwnOnce(trace, p)
  {
    if trace != [] {
      var n := |trace| - 1;
      OnceForkedOnceListed(trace[..n], p);
      if ChildOf(trace[n]).Some? && ChildOf(trace[n]).value in ChildrenOf(trace[..n], p) {
        assert false;
      }
    }
    forall c | c in ChildrenOf(trace, p)
      ensures LastFork(trace, c) >= 0 && trace[LastFork(trace, c)].pid == p
    {
      var k := ListedWasForked(trace, p, c);
    }
  }

  lemma {:induction false} TwiceForkedTwiceListed(trace: Trace, j: nat, k: nat)
    requires j < k < |trace| && ChildOf(trace[j]).Some? && ChildOf(trace[j]) == ChildOf(trace[k])
    requires trace[j].pid == trace[k].pid
    ensures !Distinct(ChildrenOf(trace, trace[k].pid))
  {
    var n := |trace| - 1;
    var before, c := ChildrenOf(trace[..n], trace[k].pid), ChildOf(trace[k]).value;
    if k == n {
      ForkIsListed(trace[..n], j);
      var i :| 0 <= i < |before| && before[i] == c;
      assert ChildrenOf(trace, trace[k].pid)[i] == ChildrenOf(trace, trace[k].pid)[|before|] == c;
    } else {
      TwiceForkedTwiceListed(trace[..n], j, k);
      var a, b :| 0 <= a < b < |before| && before[a] == before[b];
      assert ChildrenOf(trace, trace[k].pid)[a] == ChildrenOf(trace, trace[k].pid)[b];
    }
  }

  /** Every child stands in exactly one list, once, and that is its recorded parent's: exactly
      when no process is forked twice. */
  lemma ListedExactlyOnceIff(trace: Trace)
    ensures ForkedAtMostOnce(trace) <==> forall p :: ListsOwnOnce(trace, p)
  {
    if ForkedAtMostOnce(trace) {
      forall p ensures ListsOwnOnce(trace, p) {
        OnceForkedOnceListed(trace, p);
      }
    } else {
      var j, k :| 0 <= j < k < |trace| && ChildOf(trace[j]).Some? && ChildOf(trace[j]) == ChildOf(trace[k]);
      ForkIsListed(trace, j);
      ForkIsListed(trace, k);
      if trace[j].pid == trace[k].pid {
        TwiceForkedTwiceListed(trace, j, k);
      }
      assert !ListsOwnOnce(trace, trace[j].pid) || !ListsOwnOnce(trace, trace[k].pid);
    }
  }

  // ----- following parents -----

  /** A child-to-parent table as a graph. */
  function ParentGraph(m: map<int, int>): (g: Graph<int>)
    ensures WellFormed(g)
  {
    Graph(m.Keys + m.Values, set c | c in m :: (c, m[c]))
  }

  lemma ParentEdge(m: map<int, int>, e: (int, int))
    ensures e in ParentGraph(m).edges <==> e.0 in m && m[e.0] == e.1
  {
    var edges := set c | c in m :: (c, m[c]);
    assert forall c :: c in m ==> (c, m[c]) in edges;
    if e.0 in m && m[e.0] == e.1 {
      assert (e.0, m[e.0]) in edges && e == (e.0, m[e.0]);
    }
  }

  /** The table after a trace. */
  function ParentsOf(trace: Trace): map<int, int> {
    if trace == [] then map[]
    else ParentsAfter(ParentsOf(trace[..|trace| - 1]), trace[|trace| - 1])
  }

  lemma {:induction false} ParentsOfDescribes(trace: Trace)
    ensures ParentsDescribe(ParentsOf(trace), trace)
  {
    if trace == [] {
      assert forall c :: LastFork(trace, c) == -1;
    } else {
      var rest, e := trace[..|trace| - 1], trace[|trace| - 1];
      ParentsOfDescribes(rest);
      ParentsStep(ParentsOf(rest), rest, e);
      assert trace == rest + [e];
    }
  }

  lemma ParentsUnique(m: map<int, int>, trace: Trace)
    requires ParentsDescribe(m, trace)
    ensures m == ParentsOf(trace)
  {
    ParentsOfDescribes(trace);
    SameParents(m, ParentsOf(trace), trace);
  }

  lemma SameParents(m: map<int, int>, t: map<int, int>, trace: Trace)
    requires ParentsDescribe(m, trace) && ParentsDescribe(t, trace)
    ensures m == t
  {
    forall c ensures c in m <==> c in t {
      assert c in m <==> LastFork(trace, c) >= 0;
    }
    forall c | c in m ensures m[c] == t[c] {
      assert c in t;
    }
  }

  /** Whether a node is reached does not depend on where it leads itself. */
  lemma ReachWithoutOwnEdges(g: Graph<int>, h: Graph<int>, a: int, b: int)
    requires h.edges <= g.edges && forall e :: e in g.edges && e.0 != b ==> e in h.edges
    ensures Reach(g, a, b) <==> Reach(h, a, b)
  {
    if Reach(h, a, b) {
      ReachMonotone(h, g, a, b);
    }
    if Reach(g, a, b) {
      var p :| WalkBetween(g, p, a, b);
      var k := 0;
      while p[k] != b
        invariant 0 <= k < |p| && forall i :: 0 <= i < k ==> p[i] != b
        decreases |p| - k
      {
        k := k + 1;
      }
      var q := p[..k + 1];
      forall i: nat | i + 1 < |q| ensures Hop(h, q, i) {
        assert Hop(g, p, i);
      }
      assert WalkBetween(h, q, a, b);
    }
  }

  /** A fork keeps an acyclic table acyclic exactly when the child is neither the forker nor
      one of its recorded ancestors. */
  lemma ForkKeepsAcyclicIff(m: map<int, int>, parent: int, child: int)
    requires Acyclic(ParentGraph(m))
    ensures Acyclic(ParentGraph(m[child := parent])) <==> !Reach(ParentGraph(m), parent, child)
  {
    var g, now := ParentGraph(m), ParentGraph(m[child := parent]);
    var cut := Graph(g.nodes, set e | e in g.edges && e.0 != child);
    var added := AddEdge(cut, child, parent);
    forall e ensures e in now.edges <==> e in added.edges {
      ParentEdge(m, e);
      ParentEdge(m[child := parent], e);
    }
    AcyclicMonotone(cut, g);
    ReachWithoutOwnEdges(g, cut, parent, child);
    AcyclicAddEdge(cut, child, parent);
    if Acyclic(added) {
      AcyclicMonotone(now, added);
    }
    if Acyclic(now) {
      AcyclicMonotone(added, now);
    }
  }

  ghost predicate TableAcyclic(trace: Trace) {
    Acyclic(ParentGraph(ParentsOf(trace)))
  }

  /** The event forks its own process or a recorded ancestor of it. */
  ghost predicate ForksAncestor(trace: Trace, e: Event) {
    ChildOf(e).Some? && Reach(ParentGraph(ParentsOf(trace)), e.pid, ChildOf(e).value)
  }

  /** Over whole traces: the table is acyclic all the way exactly when no event does that. */
  lemma {:induction false} AncestryAcyclicIff(trace: Trace)
    ensures (forall n :: 0 <= n <= |trace| ==> TableAcyclic(trace[..n])) <==>
      (forall k :: 0 <= k < |trace| ==> !ForksAncestor(trace[..k], trace[k]))
    decreases |trace|
  {
    hide TableAcyclic, ForksAncestor;
    if trace == [] {
      EmptyTableAcyclic();
    } else {
      var n := |trace| - 1;
      AncestryAcyclicIff(trace[..n]);
      assert forall k :: 0 <= k <= n ==> trace[..n][..k] == trace[..k];
      assert forall k :: 0 <= k < n ==> trace[..n][k] == trace[k];
      assert trace[..n + 1] == trace == trace[..n] + [trace[n]];
      if TableAcyclic(trace[..n]) {
        EventKeepsAcyclicIff(trace[..n], trace[n]);
      }
    }
  }

  lemma EventKeepsAcyclicIff(trace: Trace, e: Event)
    requires TableAcyclic(trace)
    ensures TableAcyclic(trace + [e]) <==> !ForksAncestor(trace, e)
  {
    assert (trace + [e])[..|trace|] == trace;
    if ChildOf(e).Some? {
      ForkKeepsAcyclicIff(ParentsOf(trace), e.pid, ChildOf(e).value);
    }
  }

  lemma NotReachedFromEmpty(a: int, b: int)
    requires a != b
    ensures !Reach(ParentGraph(ParentsOf([])), a, b)
  {
    if Reach(ParentGraph(ParentsOf([])), a, b) {
      ReachInNodes(ParentGraph(ParentsOf([])), a, b);
      assert false;
    }
  }

  lemma EmptyTableAcyclic()
    ensures TableAcyclic([])
  {
    AcyclicByEdges(ParentGraph(ParentsOf([])));
  }

  /** Following parents from anywhere ends, within as many steps as there are children, exactly
      when the table is acyclic. */
  lemma AncestryEndsIff(m: map<int, int>)
    ensures Acyclic(ParentGraph(m)) <==> forall p :: IsWalk(ParentGraph(m), p) ==> |p| <= |m| + 1
  {
    var g := ParentGraph(m);
    if Acyclic(g) {
      forall p | IsWalk(g, p) ensures |p| <= |m| + 1 {
        AcyclicWalkDistinct(g, p);
        var q := p[..|p| - 1];
        forall x | x in q ensures x in m.Keys {
          var i :| 0 <= i < |q| && q[i] == x;
          assert Hop(g, p, i);
        }
        DistinctBound(q, m.Keys);
        assert |m.Keys| == |m|;
      }
    } else {
      var p :| IsWalk(g, p) && |p| > 1 && p[0] == p[|p| - 1];
      var q := GoRound(g, p, |m| + 1);
      assert IsWalk(g, q);
    }
  }

  /** Two processes that fork each other: the case that fails. */
  lemma ReuseMakesACycle()
    ensures var t := [Fork(1, Some(2)), Fork(2, Some(1))];
      ForksAncestor(t[..1], t[1]) && !TableAcyclic(t)
  {
    var t := [Fork(1, Some(2)), Fork(2, Some(1))];
    assert t[..1][..0] == [] && t[..2] == t;
    assert ParentsOf(t[..1]) == map[2 := 1];
    assert ParentsOf(t) == map[2 := 1, 1 := 2];
    ParentEdge(map[2 := 1], (2, 1));
    ReachEdge(ParentGraph(map[2 := 1]), 2, 1);
    EmptyTableAcyclic();
    EventKeepsAcyclicIff([], t[0]);
    assert [] + [t[0]] == t[..1] && t[..1] + [t[1]] == t;
    NotReachedFromEmpty(1, 2);
    EventKeepsAcyclicIff(t[..1], t[1]);
  }
}
